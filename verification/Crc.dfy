/**
  The CCITT frame check sequence of crc.c: the table-driven update refines the bit-serial
  shift register with polynomial 0x8408 (Appendix C.2 of RFC 1662).

  `unsigned short` is bv16 and the bytes of a C string are bv8; `UPDCIT` masks the table index
  with 0xff, so the sign extension of a C `char` never reaches the result.
 */
module Crc {
  import opened Options
  import opened ReverseHex

  // ----- The bit-serial register -----

  /** The register after one shift: the low-order bit leaves and feeds the polynomial back. */
  function Shift(x: bv16): bv16 {
    if x & 1 == 1 then (x >> 1) ^ 0x8408 else x >> 1
  }

  function Shifts(x: bv16, n: nat): bv16
    decreases n, x
  {
    if n == 0 then x else Shifts(Shift(x), n - 1)
  }

  /** A message byte enters the register and is shifted through it bit by bit. */
  function FeedByte(crc: bv16, c: bv8): bv16 {
    Shifts(crc ^ (c as bv16), 8)
  }

  function Feed(crc: bv16, s: seq<bv8>): bv16
    decreases |s|
  {
    if s == [] then crc else Feed(FeedByte(crc, s[0]), s[1..])
  }

  /** The frame check sequence of s that continues the frame check sequence `start`. */
  function Fcs(s: seq<bv8>, start: bv16): bv16 {
    !Feed(!start, s)
  }

  // ----- The table `ccitt_tab`, sixteen entries to a row -----

  function Shift8(x: bv16): bv16 {
    Shift(Shift(Shift(Shift(Shift(Shift(Shift(Shift(x))))))))
  }

  lemma Unroll(x: bv16)
    ensures Shifts(x, 8) == Shift8(x)
  {
    var y := Shift(Shift(Shift(Shift(x))));
    assert Shifts(x, 8) == Shifts(Shift(Shift(x)), 6) == Shifts(y, 4);
    var z := Shift(Shift(y));
    assert Shifts(y, 4) == Shifts(z, 2) == Shifts(Shift(z), 1) == Shifts(Shift(Shift(z)), 0);
  }

  function Row0(lo: bv16): (v: bv16)
    requires lo <= 15
    ensures v == Shift8(0x00 | lo)
  {
    match lo
    case 0 => 0x0000 case 1 => 0x1189 case 2 => 0x2312 case 3 => 0x329B
    case 4 => 0x4624 case 5 => 0x57AD case 6 => 0x6536 case 7 => 0x74BF
    case 8 => 0x8C48 case 9 => 0x9DC1 case 10 => 0xAF5A case 11 => 0xBED3
    case 12 => 0xCA6C case 13 => 0xDBE5 case 14 => 0xE97E case _ => 0xF8F7
  }

  function Row1(lo: bv16): (v: bv16)
    requires lo <= 15
    ensures v == Shift8(0x10 | lo)
  {
    match lo
    case 0 => 0x1081 case 1 => 0x0108 case 2 => 0x3393 case 3 => 0x221A
    case 4 => 0x56A5 case 5 => 0x472C case 6 => 0x75B7 case 7 => 0x643E
    case 8 => 0x9CC9 case 9 => 0x8D40 case 10 => 0xBFDB case 11 => 0xAE52
    case 12 => 0xDAED case 13 => 0xCB64 case 14 => 0xF9FF case _ => 0xE876
  }

  function Row2(lo: bv16): (v: bv16)
    requires lo <= 15
    ensures v == Shift8(0x20 | lo)
  {
    match lo
    case 0 => 0x2102 case 1 => 0x308B case 2 => 0x0210 case 3 => 0x1399
    case 4 => 0x6726 case 5 => 0x76AF case 6 => 0x4434 case 7 => 0x55BD
    case 8 => 0xAD4A case 9 => 0xBCC3 case 10 => 0x8E58 case 11 => 0x9FD1
    case 12 => 0xEB6E case 13 => 0xFAE7 case 14 => 0xC87C case _ => 0xD9F5
  }

  function Row3(lo: bv16): (v: bv16)
    requires lo <= 15
    ensures v == Shift8(0x30 | lo)
  {
    match lo
    case 0 => 0x3183 case 1 => 0x200A case 2 => 0x1291 case 3 => 0x0318
    case 4 => 0x77A7 case 5 => 0x662E case 6 => 0x54B5 case 7 => 0x453C
    case 8 => 0xBDCB case 9 => 0xAC42 case 10 => 0x9ED9 case 11 => 0x8F50
    case 12 => 0xFBEF case 13 => 0xEA66 case 14 => 0xD8FD case _ => 0xC974
  }

  function Row4(lo: bv16): (v: bv16)
    requires lo <= 15
    ensures v == Shift8(0x40 | lo)
  {
    match lo
    case 0 => 0x4204 case 1 => 0x538D case 2 => 0x6116 case 3 => 0x709F
    case 4 => 0x0420 case 5 => 0x15A9 case 6 => 0x2732 case 7 => 0x36BB
    case 8 => 0xCE4C case 9 => 0xDFC5 case 10 => 0xED5E case 11 => 0xFCD7
    case 12 => 0x8868 case 13 => 0x99E1 case 14 => 0xAB7A case _ => 0xBAF3
  }

  function Row5(lo: bv16): (v: bv16)
    requires lo <= 15
    ensures v == Shift8(0x50 | lo)
  {
    match lo
    case 0 => 0x5285 case 1 => 0x430C case 2 => 0x7197 case 3 => 0x601E
    case 4 => 0x14A1 case 5 => 0x0528 case 6 => 0x37B3 case 7 => 0x263A
    case 8 => 0xDECD case 9 => 0xCF44 case 10 => 0xFDDF case 11 => 0xEC56
    case 12 => 0x98E9 case 13 => 0x8960 case 14 => 0xBBFB case _ => 0xAA72
  }

  function Row6(lo: bv16): (v: bv16)
    requires lo <= 15
    ensures v == Shift8(0x60 | lo)
  {
    match lo
    case 0 => 0x6306 case 1 => 0x728F case 2 => 0x4014 case 3 => 0x519D
    case 4 => 0x2522 case 5 => 0x34AB case 6 => 0x0630 case 7 => 0x17B9
    case 8 => 0xEF4E case 9 => 0xFEC7 case 10 => 0xCC5C case 11 => 0xDDD5
    case 12 => 0xA96A case 13 => 0xB8E3 case 14 => 0x8A78 case _ => 0x9BF1
  }

  function Row7(lo: bv16): (v: bv16)
    requires lo <= 15
    ensures v == Shift8(0x70 | lo)
  {
    match lo
    case 0 => 0x7387 case 1 => 0x620E case 2 => 0x5095 case 3 => 0x411C
    case 4 => 0x35A3 case 5 => 0x242A case 6 => 0x16B1 case 7 => 0x0738
    case 8 => 0xFFCF case 9 => 0xEE46 case 10 => 0xDCDD case 11 => 0xCD54
    case 12 => 0xB9EB case 13 => 0xA862 case 14 => 0x9AF9 case _ => 0x8B70
  }

  function Row8(lo: bv16): (v: bv16)
    requires lo <= 15
    ensures v == Shift8(0x80 | lo)
  {
    match lo
    case 0 => 0x8408 case 1 => 0x9581 case 2 => 0xA71A case 3 => 0xB693
    case 4 => 0xC22C case 5 => 0xD3A5 case 6 => 0xE13E case 7 => 0xF0B7
    case 8 => 0x0840 case 9 => 0x19C9 case 10 => 0x2B52 case 11 => 0x3ADB
    case 12 => 0x4E64 case 13 => 0x5FED case 14 => 0x6D76 case _ => 0x7CFF
  }

  function Row9(lo: bv16): (v: bv16)
    requires lo <= 15
    ensures v == Shift8(0x90 | lo)
  {
    match lo
    case 0 => 0x9489 case 1 => 0x8500 case 2 => 0xB79B case 3 => 0xA612
    case 4 => 0xD2AD case 5 => 0xC324 case 6 => 0xF1BF case 7 => 0xE036
    case 8 => 0x18C1 case 9 => 0x0948 case 10 => 0x3BD3 case 11 => 0x2A5A
    case 12 => 0x5EE5 case 13 => 0x4F6C case 14 => 0x7DF7 case _ => 0x6C7E
  }

  function RowA(lo: bv16): (v: bv16)
    requires lo <= 15
    ensures v == Shift8(0xA0 | lo)
  {
    match lo
    case 0 => 0xA50A case 1 => 0xB483 case 2 => 0x8618 case 3 => 0x9791
    case 4 => 0xE32E case 5 => 0xF2A7 case 6 => 0xC03C case 7 => 0xD1B5
    case 8 => 0x2942 case 9 => 0x38CB case 10 => 0x0A50 case 11 => 0x1BD9
    case 12 => 0x6F66 case 13 => 0x7EEF case 14 => 0x4C74 case _ => 0x5DFD
  }

  function RowB(lo: bv16): (v: bv16)
    requires lo <= 15
    ensures v == Shift8(0xB0 | lo)
  {
    match lo
    case 0 => 0xB58B case 1 => 0xA402 case 2 => 0x9699 case 3 => 0x8710
    case 4 => 0xF3AF case 5 => 0xE226 case 6 => 0xD0BD case 7 => 0xC134
    case 8 => 0x39C3 case 9 => 0x284A case 10 => 0x1AD1 case 11 => 0x0B58
    case 12 => 0x7FE7 case 13 => 0x6E6E case 14 => 0x5CF5 case _ => 0x4D7C
  }

  function RowC(lo: bv16): (v: bv16)
    requires lo <= 15
    ensures v == Shift8(0xC0 | lo)
  {
    match lo
    case 0 => 0xC60C case 1 => 0xD785 case 2 => 0xE51E case 3 => 0xF497
    case 4 => 0x8028 case 5 => 0x91A1 case 6 => 0xA33A case 7 => 0xB2B3
    case 8 => 0x4A44 case 9 => 0x5BCD case 10 => 0x6956 case 11 => 0x78DF
    case 12 => 0x0C60 case 13 => 0x1DE9 case 14 => 0x2F72 case _ => 0x3EFB
  }

  function RowD(lo: bv16): (v: bv16)
    requires lo <= 15
    ensures v == Shift8(0xD0 | lo)
  {
    match lo
    case 0 => 0xD68D case 1 => 0xC704 case 2 => 0xF59F case 3 => 0xE416
    case 4 => 0x90A9 case 5 => 0x8120 case 6 => 0xB3BB case 7 => 0xA232
    case 8 => 0x5AC5 case 9 => 0x4B4C case 10 => 0x79D7 case 11 => 0x685E
    case 12 => 0x1CE1 case 13 => 0x0D68 case 14 => 0x3FF3 case _ => 0x2E7A
  }

  function RowE(lo: bv16): (v: bv16)
    requires lo <= 15
    ensures v == Shift8(0xE0 | lo)
  {
    match lo
    case 0 => 0xE70E case 1 => 0xF687 case 2 => 0xC41C case 3 => 0xD595
    case 4 => 0xA12A case 5 => 0xB0A3 case 6 => 0x8238 case 7 => 0x93B1
    case 8 => 0x6B46 case 9 => 0x7ACF case 10 => 0x4854 case 11 => 0x59DD
    case 12 => 0x2D62 case 13 => 0x3CEB case 14 => 0x0E70 case _ => 0x1FF9
  }

  function RowF(lo: bv16): (v: bv16)
    requires lo <= 15
    ensures v == Shift8(0xF0 | lo)
  {
    match lo
    case 0 => 0xF78F case 1 => 0xE606 case 2 => 0xD49D case 3 => 0xC514
    case 4 => 0xB1AB case 5 => 0xA022 case 6 => 0x92B9 case 7 => 0x8330
    case 8 => 0x7BC7 case 9 => 0x6A4E case 10 => 0x58D5 case 11 => 0x495C
    case 12 => 0x3DE3 case 13 => 0x2C6A case 14 => 0x1EF1 case _ => 0x0F78
  }

  /** An access to `ccitt_tab`. */
  method CcittTab(i: bv16) returns (v: bv16)
    requires i <= 0xff
    ensures v == Shifts(i, 8)
  {
    Unroll(i);
    var lo := i & 0xf;
    match i >> 4
    case 0 => assert 0x00 | lo == i; v := Row0(lo);
    case 1 => assert 0x10 | lo == i; v := Row1(lo);
    case 2 => assert 0x20 | lo == i; v := Row2(lo);
    case 3 => assert 0x30 | lo == i; v := Row3(lo);
    case 4 => assert 0x40 | lo == i; v := Row4(lo);
    case 5 => assert 0x50 | lo == i; v := Row5(lo);
    case 6 => assert 0x60 | lo == i; v := Row6(lo);
    case 7 => assert 0x70 | lo == i; v := Row7(lo);
    case 8 => assert 0x80 | lo == i; v := Row8(lo);
    case 9 => assert 0x90 | lo == i; v := Row9(lo);
    case 10 => assert 0xA0 | lo == i; v := RowA(lo);
    case 11 => assert 0xB0 | lo == i; v := RowB(lo);
    case 12 => assert 0xC0 | lo == i; v := RowC(lo);
    case 13 => assert 0xD0 | lo == i; v := RowD(lo);
    case 14 => assert 0xE0 | lo == i; v := RowE(lo);
    case _ => assert 0xF0 | lo == i; v := RowF(lo);
  }

  // ----- The byte-wise update -----

  /** Shifting eight times only looks at the low byte; the high byte just moves down. */
  lemma TableStep(crc: bv16, c: bv8)
    ensures Shifts((crc ^ (c as bv16)) & 0xff, 8) ^ (crc >> 8) == FeedByte(crc, c)
  {
    Unroll(crc ^ (c as bv16));
    Unroll((crc ^ (c as bv16)) & 0xff);
  }

  /** The macro `UPDCIT`. */
  method Updcit(ch: bv8, crc: bv16) returns (r: bv16)
    ensures r == FeedByte(crc, ch)
  {
    TableStep(crc, ch);
    var t := CcittTab((crc ^ (ch as bv16)) & 0xff);
    r := t ^ (crc >> 8);
  }

  // ----- Strings -----

  /** `crcitt_string_ex`; `crcitt_string` is the call with start 0. */
  method CrcittStringEx(s: seq<bv8>, start: bv16) returns (r: bv16)
    ensures r == Fcs(s, start)
  {
    var ccitt := !start;
    var i := 0;
    while i < |s|
      invariant 0 <= i <= |s|
      invariant Feed(!start, s) == Feed(ccitt, s[i..])
    {
      ccitt := Updcit(s[i], ccitt);
      i := i + 1;
    }
    r := !ccitt;
  }

  lemma {:induction false} FeedConcat(crc: bv16, s: seq<bv8>, t: seq<bv8>)
    ensures Feed(crc, s + t) == Feed(Feed(crc, s), t)
    decreases |s|
  {
    if s == [] {
      assert s + t == t;
    } else {
      assert (s + t)[1..] == s[1..] + t;
      FeedConcat(FeedByte(crc, s[0]), s[1..], t);
    }
  }

  lemma {:induction false} Resume(crc: bv16, t: seq<bv8>)
    ensures Fcs(t, !crc) == !Feed(crc, t)
  {
    assert !!crc == crc;
  }

  /** Chaining over pieces gives the check sequence of the whole. */
  lemma {:induction false} Chaining(s: seq<bv8>, t: seq<bv8>, start: bv16)
    ensures Fcs(s + t, start) == Fcs(t, Fcs(s, start))
  {
    var x := Feed(!start, s);
    assert Feed(!start, s + t) == Feed(x, t) by { FeedConcat(!start, s, t); }
    assert Fcs(t, !x) == !Feed(x, t) by { Resume(x, t); }
  }

  // ----- Error detection -----

  lemma ShiftInjective(x: bv16, y: bv16)
    requires Shift(x) == Shift(y)
    ensures x == y
  {}

  lemma {:induction false} ShiftsInjective(x: bv16, y: bv16, n: nat)
    requires Shifts(x, n) == Shifts(y, n)
    ensures x == y
    decreases n
  {
    if n > 0 {
      ShiftsInjective(Shift(x), Shift(y), n - 1);
      ShiftInjective(x, y);
    }
  }

  lemma XorCancel(x: bv16, y: bv16, c: bv8)
    requires x ^ (c as bv16) == y ^ (c as bv16)
    ensures x == y
  {}

  lemma FeedByteInjective(x: bv16, y: bv16, c: bv8)
    requires FeedByte(x, c) == FeedByte(y, c)
    ensures x == y
  {
    assert x ^ (c as bv16) == y ^ (c as bv16) by {
      ShiftsInjective(x ^ (c as bv16), y ^ (c as bv16), 8);
    }
    XorCancel(x, y, c);
  }

  lemma {:induction false} FeedInjective(x: bv16, y: bv16, s: seq<bv8>)
    requires Feed(x, s) == Feed(y, s)
    ensures x == y
    decreases |s|
  {
    if s != [] {
      FeedInjective(FeedByte(x, s[0]), FeedByte(y, s[0]), s[1..]);
      FeedByteInjective(x, y, s[0]);
    }
  }

  lemma HighByteTells(x: bv16, y: bv16)
    requires x >> 8 == y >> 8 && Shift8(x) >> 8 == Shift8(y) >> 8
    ensures x == y
  {}

  lemma FirstByteTells(crc: bv16, a: bv8, b: bv8)
    requires FeedByte(crc, a) >> 8 == FeedByte(crc, b) >> 8
    ensures a == b
  {
    var x, y := crc ^ (a as bv16), crc ^ (b as bv16);
    assert x >> 8 == y >> 8;
    assert Shift8(x) >> 8 == Shift8(y) >> 8 by {
      Unroll(x);
      Unroll(y);
    }
    HighByteTells(x, y);
    assert x == y;
  }

  lemma LastByteTells(u: bv16, v: bv16, a: bv8, b: bv8)
    requires FeedByte(u, a) == FeedByte(v, b)
    ensures u >> 8 == v >> 8
    ensures u == v ==> a == b
  {
    assert u ^ (a as bv16) == v ^ (b as bv16) by {
      ShiftsInjective(u ^ (a as bv16), v ^ (b as bv16), 8);
    }
  }

  lemma TwoBytes(crc: bv16, a0: bv8, a1: bv8, b0: bv8, b1: bv8)
    requires FeedByte(FeedByte(crc, a0), a1) == FeedByte(FeedByte(crc, b0), b1)
    ensures a0 == b0 && a1 == b1
  {
    assert a0 == b0 by {
      LastByteTells(FeedByte(crc, a0), FeedByte(crc, b0), a1, b1);
      FirstByteTells(crc, a0, b0);
    }
    LastByteTells(FeedByte(crc, a0), FeedByte(crc, b0), a1, b1);
  }

  lemma {:induction false} BurstBytesEqual(x: bv16, s: seq<bv8>, t: seq<bv8>, k: nat)
    requires |s| == |t| && k + 2 <= |s|
    requires s[..k] == t[..k] && s[k + 2..] == t[k + 2..]
    requires Feed(x, s) == Feed(x, t)
    ensures s[k] == t[k] && s[k + 1] == t[k + 1]
  {
    var crc := Feed(x, s[..k]);
    var u := FeedByte(FeedByte(crc, s[k]), s[k + 1]);
    var v := FeedByte(FeedByte(crc, t[k]), t[k + 1]);
    assert u == v by {
      FeedThree(x, s, k);
      FeedThree(x, t, k);
      FeedInjective(u, v, s[k + 2..]);
    }
    TwoBytes(crc, s[k], s[k + 1], t[k], t[k + 1]);
  }

  /**
    Two strings of the same length that differ, but only within two adjacent bytes, have
    different check sequences.
   */
  lemma {:induction false} DetectsTwoByteBurst(s: seq<bv8>, t: seq<bv8>, k: nat, start: bv16)
    requires |s| == |t| && k + 2 <= |s| && s != t
    requires s[..k] == t[..k] && s[k + 2..] == t[k + 2..]
    ensures Fcs(s, start) != Fcs(t, start)
  {
    if Feed(!start, s) == Feed(!start, t) {
      BurstBytesEqual(!start, s, t, k);
      assert false;
    }
    NegationInjective(Feed(!start, s), Feed(!start, t));
  }

  /** Two strings of the same length that differ in a single byte have different check sequences. */
  lemma {:induction false} DetectsOneByte(s: seq<bv8>, t: seq<bv8>, k: nat, start: bv16)
    requires |s| == |t| && k < |s| && s[k] != t[k]
    requires s[..k] == t[..k] && s[k + 1..] == t[k + 1..]
    ensures Fcs(s, start) != Fcs(t, start)
  {
    var crc := Feed(!start, s[..k]);
    var u, v := FeedByte(crc, s[k]), FeedByte(crc, t[k]);
    if u == v {
      LastByteTells(crc, crc, s[k], t[k]);
      assert false;
    }
    FeedAround(!start, s, k);
    FeedAround(!start, t, k);
    if Feed(u, s[k + 1..]) == Feed(v, s[k + 1..]) {
      FeedInjective(u, v, s[k + 1..]);
      assert false;
    }
    NegationInjective(Feed(!start, s), Feed(!start, t));
  }

  lemma {:induction false} FeedAround(crc: bv16, s: seq<bv8>, k: nat)
    requires k < |s|
    ensures Feed(crc, s) == Feed(FeedByte(Feed(crc, s[..k]), s[k]), s[k + 1..])
  {
    assert s == s[..k] + s[k..];
    FeedConcat(crc, s[..k], s[k..]);
    assert s[k..][1..] == s[k + 1..];
  }

  lemma NegationInjective(x: bv16, y: bv16)
    ensures x != y ==> !x != !y
  {}

  lemma {:induction false} FeedThree(crc: bv16, s: seq<bv8>, k: nat)
    requires k + 2 <= |s|
    ensures Feed(crc, s) == Feed(FeedByte(FeedByte(Feed(crc, s[..k]), s[k]), s[k + 1]), s[k + 2..])
  {
    assert s == s[..k] + s[k..];
    FeedConcat(crc, s[..k], s[k..]);
    assert s[k..][1..][1..] == s[k + 2..];
  }

  // ----- The good final value -----

  function LowByte(x: bv16): bv8 {
    (x & 0xff) as bv8
  }

  function HighByte(x: bv16): bv8 {
    (x >> 8) as bv8
  }

  lemma Residue(crc: bv16)
    ensures FeedByte(FeedByte(crc, LowByte(!crc)), HighByte(!crc)) == 0xF0B8
  {
    var x := crc ^ (LowByte(!crc) as bv16);
    Unroll(x);
    Unroll(Shift8(x) ^ (HighByte(!crc) as bv16));
  }

  lemma {:induction false} FeedTwo(crc: bv16, a: bv8, b: bv8)
    ensures Feed(crc, [a, b]) == FeedByte(FeedByte(crc, a), b)
  {
    assert [a, b][1..] == [b];
    assert Feed(FeedByte(crc, a), [b]) == Feed(FeedByte(FeedByte(crc, a), b), []);
  }

  /** A message followed by its own check sequence, low byte first, always leaves 0xF0B8. */
  lemma {:induction false} GoodFinalValue(s: seq<bv8>)
    ensures var fcs := Fcs(s, 0); Feed(0xFFFF, s + [LowByte(fcs), HighByte(fcs)]) == 0xF0B8
  {
    var crc := Feed(0xFFFF, s);
    assert Fcs(s, 0) == !crc;
    FeedConcat(0xFFFF, s, [LowByte(!crc), HighByte(!crc)]);
    FeedTwo(crc, LowByte(!crc), HighByte(!crc));
    Residue(crc);
  }

  // ----- Fragments and the textual form -----

  const CRC16_LEN := 4

  function Flatten(src: seq<seq<bv8>>): seq<bv8> {
    if src == [] then [] else Flatten(src[..|src| - 1]) + src[|src| - 1]
  }

  /** The two nested loops of `crcitt_string_array`. */
  method FeedFragments(src: seq<seq<bv8>>) returns (ccitt: bv16)
    ensures ccitt == Feed(0xFFFF, Flatten(src))
  {
    ccitt := 0xFFFF;
    for i := 0 to |src|
      invariant ccitt == Feed(0xFFFF, Flatten(src[..i]))
    {
      ghost var done := Flatten(src[..i]);
      assert done + src[i][..0] == done;
      for j := 0 to |src[i]|
        invariant ccitt == Feed(0xFFFF, done + src[i][..j])
      {
        FeedOne(0xFFFF, done + src[i][..j], src[i][j]);
        assert done + src[i][..j] + [src[i][j]] == done + src[i][..j + 1];
        ccitt := Updcit(src[i][j], ccitt);
      }
      assert src[i][..|src[i]|] == src[i] && src[..i + 1][..i] == src[..i];
    }
    assert src[..|src|] == src;
  }

  /** Sixteen bits are always enough for four digits. */
  lemma FourDigits(w: bv16)
    ensures 0 <= w as int < 0x1_0000
    ensures Pow16(CRC16_LEN) == 0x1_0000
  {
    assert Pow16(1) == 16 && Pow16(2) == 256 && Pow16(3) == 4096;
  }

  /** The text of a check sequence: its four digits, lowest first. */
  ghost predicate IsText(w: bv16, text: string) {
    text == Digits(w as int, CRC16_LEN) && Value(text) == Some(w as int)
  }

  method Print(w: bv16) returns (dst: string)
    ensures IsText(w, dst)
  {
    FourDigits(w);
    dst := WritePadded(w as int, CRC16_LEN);
  }

  method FcsOfFragments(src: seq<seq<bv8>>) returns (ccitt: bv16)
    ensures ccitt == Fcs(Flatten(src), 0)
  {
    ccitt := FeedFragments(src);
    ccitt := !ccitt;
  }

  /**
    `crcitt_string_array`: the check sequence of all fragments together, as four hex digits, which
    `reverse_hex2int` reads back.
   */
  method CrcittStringArray(src: seq<seq<bv8>>) returns (dst: string)
    ensures IsText(Fcs(Flatten(src), 0), dst)
  {
    var ccitt := FcsOfFragments(src);
    dst := Print(ccitt);
  }

  lemma {:induction false} FeedOne(crc: bv16, s: seq<bv8>, c: bv8)
    ensures Feed(crc, s + [c]) == FeedByte(Feed(crc, s), c)
  {
    FeedConcat(crc, s, [c]);
    assert Feed(FeedByte(Feed(crc, s), c), []) == FeedByte(Feed(crc, s), c);
  }
}
