/**
  Base64 of basex.h and basex.c: the encoder that looks up two output characters at a time in
  an 8K table (16-bit stores or byte stores, either byte order) against the plain six-bit
  encoding of section 4 of RFC 4648, the decoder, and the faster non-standard alphabet.
 */
module Base64 {
  import opened Sequences

  datatype Endian = Little | Big

  /** Six-bit values to characters and back, and the padding character. */
  datatype Alphabet = Alphabet(enc: bv8 -> bv8, dec: bv8 -> bv8, pad: bv8)

  const PAD: bv8 := 0x3d        // '='
  const Q_B64_BASE: bv8 := 0x30 // '0'
  const Q_B64_PAD: bv8 := 0x7a  // 'z'

  /** `base64_enc_char` */
  function EncChar(v: bv8): bv8 {
    if v == 0x3f then 0x2f
    else if v == 0x3e then 0x2b
    else if v <= 25 then v + 0x41
    else if v <= 51 then v - 26 + 0x61
    else if v <= 61 then v - 52 + 0x30
    else 0xff
  }

  /** `base64_dec_char`, which answers 0xff for a character outside the alphabet. */
  function DecChar(v: bv8): bv8 {
    if v == 0x2f then 0x3f
    else if v == 0x2b then 0x3e
    else if 0x3a <= v <= 0x40 || 0x5b <= v <= 0x60 then 0xff
    else if v < 0x30 then 0xff
    else if v <= 0x39 then v - 0x30 + 0x34
    else if v <= 0x5a then v - 0x41
    else if v <= 0x7a then v - 0x61 + 0x1a
    else 0xff
  }

  function QEncChar(v: bv8): bv8 {
    v + Q_B64_BASE
  }

  function QDecChar(v: bv8): bv8 {
    v - Q_B64_BASE
  }

  const STANDARD := Alphabet(EncChar, DecChar, PAD)
  const QUICK := Alphabet(QEncChar, QDecChar, Q_B64_PAD)

  /** Every six-bit value survives encoding and decoding and is never the padding. */
  ghost predicate Reversible(al: Alphabet) {
    forall v: bv8 | v <= 0x3f :: al.dec(al.enc(v)) == v && al.enc(v) != al.pad
  }

  lemma StandardReversible()
    ensures Reversible(STANDARD)
  {}

  lemma QuickReversible()
    ensures Reversible(QUICK)
  {}

  // ----- The plain encoding -----

  function Digit1(a: bv8): bv8 { a >> 2 }
  function Digit2(a: bv8, b: bv8): bv8 { ((a << 4) & 0x3f) | (b >> 4) }
  function Digit3(b: bv8, c: bv8): bv8 { ((b << 2) & 0x3f) | (c >> 6) }
  function Digit4(c: bv8): bv8 { c & 0x3f }

  function Quad(al: Alphabet, a: bv8, b: bv8, c: bv8): seq<bv8> {
    [al.enc(Digit1(a)), al.enc(Digit2(a, b)), al.enc(Digit3(b, c)), al.enc(Digit4(c))]
  }

  function Encode(al: Alphabet, s: seq<bv8>): seq<bv8> {
    if |s| == 0 then []
    else if |s| == 1 then [al.enc(Digit1(s[0])), al.enc(Digit2(s[0], 0)), al.pad, al.pad]
    else if |s| == 2 then [al.enc(Digit1(s[0])), al.enc(Digit2(s[0], s[1])), al.enc(Digit3(s[1], 0)), al.pad]
    else Quad(al, s[0], s[1], s[2]) + Encode(al, s[3..])
  }

  // ----- Decoding -----

  function Byte1(a: bv8, b: bv8): bv8 { (a << 2) | (b >> 4) }
  function Byte2(b: bv8, c: bv8): bv8 { (b << 4) | (c >> 2) }
  function Byte3(c: bv8, d: bv8): bv8 { (c << 6) | d }

  function Triple(al: Alphabet, q: seq<bv8>): (bytes: seq<bv8>)
    requires |q| == 4
    ensures |bytes| == 3
  {
    var a, b, c, d := al.dec(q[0]), al.dec(q[1]), al.dec(q[2]), al.dec(q[3]);
    [Byte1(a, b), Byte2(b, c), Byte3(c, d)]
  }

  /** What the decoder accepts; it does not look at the characters themselves. */
  predicate Decodable(al: Alphabet, t: seq<bv8>) {
    |t| >= 4 && |t| % 4 == 0 && !(t[|t| - 2] == al.pad && t[|t| - 1] != al.pad)
  }

  function PadCount(al: Alphabet, t: seq<bv8>): nat
    requires |t| >= 4
  {
    (if t[|t| - 2] == al.pad then 1 else 0) + (if t[|t| - 1] == al.pad then 1 else 0)
  }

  /** Three bytes for every four characters; the last four give as many as the padding leaves. */
  function Decode(al: Alphabet, t: seq<bv8>): seq<bv8>
    requires Decodable(al, t)
  {
    if |t| == 4 then Triple(al, t)[..3 - PadCount(al, t)] else Triple(al, t[..4]) + Decode(al, t[4..])
  }

  /** The characters that less than three bytes take. */
  function TailSize(n: nat): nat {
    if n == 0 then 0 else 4
  }

  lemma {:induction false} DecodeSize(al: Alphabet, t: seq<bv8>, g: nat)
    requires Decodable(al, t) && |t| == 4 * g + 4
    ensures |Decode(al, t)| == 3 * g + 3 - PadCount(al, t)
  {
    if g > 0 {
      DecodeSize(al, t[4..], g - 1);
    }
  }

  lemma {:induction false} EncodeSize(al: Alphabet, s: seq<bv8>, g: nat)
    requires 3 * g <= |s| < 3 * g + 3
    ensures |Encode(al, s)| == 4 * g + TailSize(|s| - 3 * g)
  {
    if g > 0 {
      EncodeSize(al, s[3..], g - 1);
    }
  }

  /** `base64_enc_len` and `base64_dec_len` count whole groups and the rest. */
  lemma Groups(n: nat)
    ensures var g := n / 3; 3 * g <= n < 3 * g + 3 && (n + 2) / 3 * 4 == 4 * g + TailSize(n - 3 * g)
  {}

  lemma EncodeLength(al: Alphabet, s: seq<bv8>)
    ensures |Encode(al, s)| == (|s| + 2) / 3 * 4
  {
    Groups(|s|);
    EncodeSize(al, s, |s| / 3);
  }

  lemma DecodeLength(al: Alphabet, t: seq<bv8>)
    requires Decodable(al, t)
    ensures |Decode(al, t)| == |t| / 4 * 3 - PadCount(al, t)
  {
    DecodeSize(al, t, |t| / 4 - 1);
  }

  lemma DigitsInRange(a: bv8, b: bv8, c: bv8)
    ensures Digit1(a) <= 0x3f && Digit2(a, b) <= 0x3f && Digit3(b, c) <= 0x3f && Digit4(c) <= 0x3f
  {}

  lemma BytesFromDigits(a: bv8, b: bv8, c: bv8)
    ensures Byte1(Digit1(a), Digit2(a, b)) == a
    ensures Byte2(Digit2(a, b), Digit3(b, c)) == b
    ensures Byte3(Digit3(b, c), Digit4(c)) == c
  {}

  lemma QuadDecodes(al: Alphabet, a: bv8, b: bv8, c: bv8)
    requires Reversible(al)
    ensures var q := Quad(al, a, b, c);
            && q[2] != al.pad && q[3] != al.pad
            && Triple(al, q) == [a, b, c]
  {
    DigitsInRange(a, b, c);
    BytesFromDigits(a, b, c);
  }

  lemma {:induction false} LastQuad(al: Alphabet, s: seq<bv8>)
    requires Reversible(al) && 1 <= |s| <= 3
    ensures |Encode(al, s)| == 4 && Decodable(al, Encode(al, s)) && Decode(al, Encode(al, s)) == s
  {
    var b := if |s| > 1 then s[1] else 0;
    var c := if |s| > 2 then s[2] else 0;
    QuadDecodes(al, s[0], b, c);
    if |s| == 3 {
      assert Encode(al, s) == Quad(al, s[0], s[1], s[2]);
    }
  }

  lemma {:induction false} DecodeStep(al: Alphabet, q: seq<bv8>, t: seq<bv8>)
    requires |q| == 4 && Decodable(al, t)
    ensures Decodable(al, q + t)
    ensures Decode(al, q + t) == Triple(al, q) + Decode(al, t)
  {
    assert (q + t)[4..] == t;
  }

  /** Decoding undoes encoding, for every non-empty byte string and every reversible alphabet. */
  lemma {:induction false} RoundTrip(al: Alphabet, s: seq<bv8>)
    requires Reversible(al) && s != []
    ensures Decodable(al, Encode(al, s)) && Decode(al, Encode(al, s)) == s
  {
    if |s| <= 3 {
      LastQuad(al, s);
    } else {
      RoundTrip(al, s[3..]);
      DecodeStep(al, Quad(al, s[0], s[1], s[2]), Encode(al, s[3..]));
      QuadDecodes(al, s[0], s[1], s[2]);
    }
  }

  /** Both alphabets of basex.h round-trip every byte string. */
  lemma BothAlphabetsRoundTrip(s: seq<bv8>)
    requires s != []
    ensures Decodable(STANDARD, Encode(STANDARD, s)) && Decode(STANDARD, Encode(STANDARD, s)) == s
    ensures Decodable(QUICK, Encode(QUICK, s)) && Decode(QUICK, Encode(QUICK, s)) == s
  {
    StandardReversible();
    RoundTrip(STANDARD, s);
    QuickReversible();
    RoundTrip(QUICK, s);
  }

  // ----- The 8K table -----

  /** The byte a 16-bit store puts at the lower address, and the one after it. */
  function First8b(e: Endian, w: bv16): bv8 {
    if e.Little? then (w & 0xff) as bv8 else (w >> 8) as bv8
  }

  function Last8b(e: Endian, w: bv16): bv8 {
    if e.Little? then (w >> 8) as bv8 else (w & 0xff) as bv8
  }

  /** The entry `init_basex` stores at index r: the characters of the two six-bit halves of r. */
  function Entry(e: Endian, r: bv16): bv16 {
    var hi, lo := EncChar(((r >> 6) & 0xff) as bv8) as bv16, EncChar((r & 0x3f) as bv8) as bv16;
    if e.Little? then hi | (lo << 8) else (hi << 8) | lo
  }

  ghost predicate TableReady(e: Endian, b64: array<bv16>)
    reads b64
  {
    b64.Length == 4096 && forall r | 0 <= r < 4096 :: b64[r] == Entry(e, r as bv16)
  }

  /** The encoding table of `init_basex`. */
  method InitEncodeTable(e: Endian) returns (b64: array<bv16>)
    ensures fresh(b64) && TableReady(e, b64)
  {
    b64 := new bv16[4096];
    for r := 0 to 4096
      invariant forall k | 0 <= k < r :: b64[k] == Entry(e, k as bv16)
    {
      b64[r] := Entry(e, r as bv16);
    }
  }

  ghost predicate DecodeReady(ub64: array<bv8>)
    reads ub64
  {
    ub64.Length == 256 && forall v: bv8 :: ub64[v as int] == DecChar(v)
  }

  /** The decoding table of `init_basex`. */
  method InitDecodeTable() returns (ub64: array<bv8>)
    ensures fresh(ub64) && DecodeReady(ub64)
  {
    ub64 := new bv8[256];
    for r := 0 to 256
      invariant forall k | 0 <= k < r :: ub64[k] == DecChar(k as bv8)
    {
      ub64[r] := DecChar(r as bv8);
    }
    forall v: bv8
      ensures ub64[v as int] == DecChar(v)
    {
      assert (v as int) as bv8 == v;
    }
  }

  function Index12(a: bv8, b: bv8): bv16 {
    ((a as bv16) << 4) | ((b as bv16) >> 4)
  }

  function Index34(b: bv8, c: bv8): bv16 {
    (((b & 0xf) as bv16) << 8) | (c as bv16)
  }

  lemma Entry12(e: Endian, a: bv8, b: bv8)
    ensures Index12(a, b) <= 0xfff
    ensures First8b(e, Entry(e, Index12(a, b))) == EncChar(Digit1(a))
    ensures Last8b(e, Entry(e, Index12(a, b))) == EncChar(Digit2(a, b))
  {}

  lemma Entry34(e: Endian, b: bv8, c: bv8)
    ensures Index34(b, c) <= 0xfff
    ensures First8b(e, Entry(e, Index34(b, c))) == EncChar(Digit3(b, c))
    ensures Last8b(e, Entry(e, Index34(b, c))) == EncChar(Digit4(c))
  {}

  /** The macro `BASE64_12`: one table access for the first two characters. */
  method Base64Pair12(e: Endian, b64: array<bv16>, a: bv8, b: bv8) returns (w: bv16)
    requires TableReady(e, b64)
    ensures First8b(e, w) == EncChar(Digit1(a)) && Last8b(e, w) == EncChar(Digit2(a, b))
  {
    Entry12(e, a, b);
    var r := Index12(a, b) as int;
    assert r as bv16 == Index12(a, b);
    w := b64[r];
  }

  /** The macro `BASE64_34`: one table access for the last two characters. */
  method Base64Pair34(e: Endian, b64: array<bv16>, b: bv8, c: bv8) returns (w: bv16)
    requires TableReady(e, b64)
    ensures First8b(e, w) == EncChar(Digit3(b, c)) && Last8b(e, w) == EncChar(Digit4(c))
  {
    Entry34(e, b, c);
    var r := Index34(b, c) as int;
    assert r as bv16 == Index34(b, c);
    w := b64[r];
  }

  // ----- Encoding into a buffer -----

  /** A 16-bit store, in the byte order of the machine. */
  method Store16(e: Endian, dst: array<bv8>, j: nat, w: bv16)
    requires j + 2 <= dst.Length
    modifies dst
    ensures dst[..] == Written(old(dst[..]), j, [First8b(e, w), Last8b(e, w)])
  {
    if e.Little? {
      dst[j], dst[j + 1] := (w & 0xff) as bv8, (w >> 8) as bv8;
    } else {
      dst[j], dst[j + 1] := (w >> 8) as bv8, (w & 0xff) as bv8;
    }
  }

  /** Four characters at j, byte by byte. */
  method StoreFour(dst: array<bv8>, j: nat, a: bv8, b: bv8, c: bv8, d: bv8)
    requires j + 4 <= dst.Length
    modifies dst
    ensures dst[..] == Written(old(dst[..]), j, [a, b, c, d])
  {
    dst[j], dst[j + 1], dst[j + 2], dst[j + 3] := a, b, c, d;
  }

  method StoreOne(dst: array<bv8>, j: nat, b: bv8)
    requires j < dst.Length
    modifies dst
    ensures dst[..] == old(dst[..])[j := b]
  {
    dst[j] := b;
  }

  /** Four characters at j, as two 16-bit words. */
  method StoreBoth(e: Endian, dst: array<bv8>, j: nat, w: bv16, x: bv16)
    requires j + 4 <= dst.Length
    modifies dst
    ensures dst[..] == Written(old(dst[..]), j, [First8b(e, w), Last8b(e, w), First8b(e, x), Last8b(e, x)])
  {
    Store16(e, dst, j, w);
    Store16(e, dst, j + 2, x);
  }

  /** One group of three bytes; `odd` says that the destination address is odd. */
  method PutGroup(e: Endian, b64: array<bv16>, odd: bool, a: bv8, b: bv8, c: bv8, dst: array<bv8>, j: nat)
    requires TableReady(e, b64) && j + 4 <= dst.Length
    modifies dst
    ensures dst[..] == Written(old(dst[..]), j, Quad(STANDARD, a, b, c))
  {
    var w12 := Base64Pair12(e, b64, a, b);
    var w34 := Base64Pair34(e, b64, b, c);
    if odd {
      StoreFour(dst, j, First8b(e, w12), Last8b(e, w12), First8b(e, w34), Last8b(e, w34));
    } else {
      StoreBoth(e, dst, j, w12, w34);
    }
  }

  /** Two bytes left over. */
  method PutTwo(e: Endian, b64: array<bv16>, odd: bool, a: bv8, b: bv8, dst: array<bv8>, j: nat)
    requires TableReady(e, b64) && j + 4 <= dst.Length
    modifies dst
    ensures dst[..] == Written(old(dst[..]), j, [EncChar(Digit1(a)), EncChar(Digit2(a, b)), EncChar(Digit3(b, 0)), PAD])
  {
    var w12 := Base64Pair12(e, b64, a, b);
    var w34 := Base64Pair34(e, b64, b, 0);
    if odd {
      StoreFour(dst, j, First8b(e, w12), Last8b(e, w12), First8b(e, w34), PAD);
    } else {
      StoreBoth(e, dst, j, w12, w34);
      StoreOne(dst, j + 3, PAD);
    }
  }

  /** One byte left over. */
  method PutOne(e: Endian, b64: array<bv16>, odd: bool, a: bv8, dst: array<bv8>, j: nat)
    requires TableReady(e, b64) && j + 4 <= dst.Length
    modifies dst
    ensures dst[..] == Written(old(dst[..]), j, [EncChar(Digit1(a)), EncChar(Digit2(a, 0)), PAD, PAD])
  {
    var w12 := Base64Pair12(e, b64, a, 0);
    if odd {
      StoreFour(dst, j, First8b(e, w12), Last8b(e, w12), PAD, PAD);
    } else {
      Store16(e, dst, j, w12);
      dst[j + 2], dst[j + 3] := PAD, PAD;
    }
  }

  /** Whole groups are encoded independently of what follows. */
  lemma {:induction false} EncodeConcat(al: Alphabet, p: seq<bv8>, s: seq<bv8>)
    requires |p| % 3 == 0
    ensures Encode(al, p + s) == Encode(al, p) + Encode(al, s)
  {
    if p == [] {
      assert p + s == s;
    } else {
      EncodeConcat(al, p[3..], s);
      assert (p + s)[3..] == p[3..] + s;
      EncodeCons(al, p);
      EncodeCons(al, p + s);
      Associates(Quad(al, p[0], p[1], p[2]), Encode(al, p[3..]), Encode(al, s));
    }
  }

  lemma EncodeCons(al: Alphabet, s: seq<bv8>)
    requires |s| >= 3
    ensures Encode(al, s) == Quad(al, s[0], s[1], s[2]) + Encode(al, s[3..])
  {}

  lemma Associates(a: seq<bv8>, b: seq<bv8>, c: seq<bv8>)
    ensures a + (b + c) == a + b + c
  {}

  lemma WholeGroups(al: Alphabet, s: seq<bv8>, g: nat)
    requires |s| == 3 * g
    ensures |Encode(al, s)| == 4 * g
  {
    EncodeSize(al, s, g);
  }

  /** Writing q behind what has been written. */
  lemma Splice(done: seq<bv8>, q: seq<bv8>, orig: seq<bv8>, now: seq<bv8>, next: seq<bv8>)
    requires |done| + |q| <= |orig| && now == done + orig[|done|..]
    requires next == Written(now, |done|, q)
    ensures next == done + q + orig[|done| + |q|..]
  {
    assert now[..|done|] == done;
    assert now[|done| + |q|..] == orig[|done| + |q|..];
  }

  /** One turn of the encoding loop. */
  lemma EncodeStep(al: Alphabet, src: seq<bv8>, g: nat)
    requires 3 * g + 3 <= |src|
    ensures |Encode(al, src[..3 * g])| == 4 * g
    ensures Encode(al, src[..3 * (g + 1)])
            == Encode(al, src[..3 * g]) + Quad(al, src[3 * g], src[3 * g + 1], src[3 * g + 2])
  {
    WholeGroups(al, src[..3 * g], g);
    var s, t := src[..3 * g], [src[3 * g], src[3 * g + 1], src[3 * g + 2]];
    assert src[..3 * (g + 1)] == s + t;
    EncodeConcat(al, s, t);
    assert t[3..] == [];
  }

  lemma GroupWritten(al: Alphabet, src: seq<bv8>, g: nat, orig: seq<bv8>, now: seq<bv8>, next: seq<bv8>)
    requires 3 * g + 3 <= |src| && 4 * g + 4 <= |orig| == |now|
    requires now == Encode(al, src[..3 * g]) + orig[4 * g..]
    requires next == Written(now, 4 * g, Quad(al, src[3 * g], src[3 * g + 1], src[3 * g + 2]))
    ensures next == Encode(al, src[..3 * (g + 1)]) + orig[4 * (g + 1)..]
  {
    EncodeStep(al, src, g);
    var done, q := Encode(al, src[..3 * g]), Quad(al, src[3 * g], src[3 * g + 1], src[3 * g + 2]);
    Splice(done, q, orig, now, next);
  }

  /** The main loop of `base64_enc`, over g groups. */
  method PutGroups(e: Endian, b64: array<bv16>, odd: bool, src: seq<bv8>, g: nat, dst: array<bv8>)
    requires TableReady(e, b64) && |src| == 3 * g && 4 * g <= dst.Length
    modifies dst
    ensures dst[..] == Encode(STANDARD, src) + old(dst[..])[4 * g..]
  {
    ghost var orig := dst[..];
    var k := 0;
    while k < g
      invariant 0 <= k <= g
      invariant dst[..] == Encode(STANDARD, src[..3 * k]) + orig[4 * k..]
    {
      ghost var now := dst[..];
      PutGroup(e, b64, odd, src[3 * k], src[3 * k + 1], src[3 * k + 2], dst, 4 * k);
      GroupWritten(STANDARD, src, k, orig, now, dst[..]);
      k := k + 1;
    }
    assert src[..3 * k] == src;
  }

  /** The one or two bytes left over, completed with padding. */
  method PutTail(e: Endian, b64: array<bv16>, odd: bool, tail: seq<bv8>, dst: array<bv8>, j: nat)
    requires TableReady(e, b64) && |tail| <= 2 && j + TailSize(|tail|) <= dst.Length
    modifies dst
    ensures dst[..] == Written(old(dst[..]), j, Encode(STANDARD, tail))
  {
    if |tail| == 2 {
      PutTwo(e, b64, odd, tail[0], tail[1], dst, j);
    } else if |tail| == 1 {
      PutOne(e, b64, odd, tail[0], dst, j);
    }
  }

  lemma {:induction false} SplitEncoding(al: Alphabet, s: seq<bv8>, g: nat)
    requires 3 * g <= |s| < 3 * g + 3
    ensures Encode(al, s) == Encode(al, s[..3 * g]) + Encode(al, s[3 * g..])
    ensures |Encode(al, s[..3 * g])| == 4 * g && |Encode(al, s[3 * g..])| == TailSize(|s| - 3 * g)
  {
    WholeGroups(al, s[..3 * g], g);
    EncodeConcat(al, s[..3 * g], s[3 * g..]);
    assert s == s[..3 * g] + s[3 * g..];
  }

  /** The whole groups and then the rest have been written. */
  lemma AllEncoded(al: Alphabet, src: seq<bv8>, g: nat, orig: seq<bv8>, mid: seq<bv8>, final: seq<bv8>)
    requires 3 * g <= |src| < 3 * g + 3 && |orig| == |mid| >= 4 * g + TailSize(|src| - 3 * g)
    requires mid == Encode(al, src[..3 * g]) + orig[4 * g..]
    requires |Encode(al, src[3 * g..])| == TailSize(|src| - 3 * g)
             && final == Written(mid, 4 * g, Encode(al, src[3 * g..]))
    ensures final == Encode(al, src) + orig[4 * g + TailSize(|src| - 3 * g)..]
  {
    SplitEncoding(al, src, g);
    Splice(Encode(al, src[..3 * g]), Encode(al, src[3 * g..]), orig, mid, final);
  }

  /**
    `base64_enc` in its 8K form: for either byte order and either parity of the destination
    address it writes exactly the plain encoding, or reports the size it would need.
   */
  method Base64Enc(e: Endian, b64: array<bv16>, src: seq<bv8>, dst: array<bv8>, odd: bool) returns (ret: int)
    requires TableReady(e, b64)
    modifies dst
    ensures dst.Length < (|src| + 2) / 3 * 4 ==> ret == -((|src| + 2) / 3 * 4) && dst[..] == old(dst[..])
    ensures dst.Length >= (|src| + 2) / 3 * 4 ==>
              ret == (|src| + 2) / 3 * 4 && dst[..] == Encode(STANDARD, src) + old(dst[..])[ret..]
  {
    var osize := (|src| + 2) / 3 * 4;
    if dst.Length < osize {
      return -osize;
    }
    var g := |src| / 3;
    Groups(|src|);
    PutAll(e, b64, odd, src, g, dst);
    ret := osize;
  }

  method PutAll(e: Endian, b64: array<bv16>, odd: bool, src: seq<bv8>, g: nat, dst: array<bv8>)
    requires TableReady(e, b64) && 3 * g <= |src| < 3 * g + 3 && 4 * g + TailSize(|src| - 3 * g) <= dst.Length
    modifies dst
    ensures dst[..] == Encode(STANDARD, src) + old(dst[..])[4 * g + TailSize(|src| - 3 * g)..]
  {
    PutGroups(e, b64, odd, src[..3 * g], g, dst);
    ghost var mid := dst[..];
    PutTail(e, b64, odd, src[3 * g..], dst, 4 * g);
    AllEncoded(STANDARD, src, g, old(dst[..]), mid, dst[..]);
  }

  // ----- Decoding into a buffer -----

  /** The bytes of whole groups, none of them padded. */
  function Triples(al: Alphabet, t: seq<bv8>): seq<bv8> {
    if |t| < 4 then [] else Triple(al, t[..4]) + Triples(al, t[4..])
  }

  lemma {:induction false} TriplesLength(al: Alphabet, t: seq<bv8>, g: nat)
    requires |t| == 4 * g
    ensures |Triples(al, t)| == 3 * g
  {
    if g > 0 {
      TriplesLength(al, t[4..], g - 1);
    }
  }

  lemma {:induction false} TriplesSnoc(al: Alphabet, t: seq<bv8>, q: seq<bv8>, g: nat)
    requires |t| == 4 * g && |q| == 4
    ensures Triples(al, t + q) == Triples(al, t) + Triple(al, q)
    decreases g
  {
    if g == 0 {
      assert t + q == q && q[..4] == q;
    } else {
      TriplesSnoc(al, t[4..], q, g - 1);
      assert (t + q)[..4] == t[..4] && (t + q)[4..] == t[4..] + q;
      TriplesCons(al, t);
      TriplesCons(al, t + q);
      Associates(Triple(al, t[..4]), Triples(al, t[4..]), Triple(al, q));
    }
  }

  lemma DecodeCons(al: Alphabet, t: seq<bv8>)
    requires Decodable(al, t) && |t| > 4
    ensures Decodable(al, t[4..]) && PadCount(al, t[4..]) == PadCount(al, t)
    ensures Decode(al, t) == Triple(al, t[..4]) + Decode(al, t[4..])
  {}

  lemma TriplesCons(al: Alphabet, t: seq<bv8>)
    requires |t| >= 4
    ensures Triples(al, t) == Triple(al, t[..4]) + Triples(al, t[4..])
  {}

  /** What the last group contributes. */
  function LastBytes(al: Alphabet, t: seq<bv8>): seq<bv8>
    requires |t| >= 4
  {
    Triple(al, t[|t| - 4..])[..3 - PadCount(al, t)]
  }

  lemma {:induction false} SplitDecoding(al: Alphabet, t: seq<bv8>)
    requires Decodable(al, t)
    ensures Decode(al, t) == Triples(al, t[..|t| - 4]) + LastBytes(al, t)
  {
    if |t| == 4 {
      assert t[0..] == t && t[..0] == [];
    } else {
      var rest, u := t[4..], t[..|t| - 4];
      SplitDecoding(al, rest);
      DecodeCons(al, t);
      assert rest[|rest| - 4..] == t[|t| - 4..];
      assert u[..4] == t[..4] && u[4..] == rest[..|rest| - 4];
      TriplesCons(al, u);
      Associates(Triple(al, t[..4]), Triples(al, u[4..]), LastBytes(al, t));
    }
  }

  /** How a decoder gets the value of a character: from the table, or as the distance to the base. */
  datatype Lookup = Table(ub64: array<bv8>) | Distance

  ghost function Memory(lk: Lookup): set<object> {
    if lk.Table? then {lk.ub64} else {}
  }

  ghost predicate LooksUp(lk: Lookup, al: Alphabet)
    reads Memory(lk)
  {
    if lk.Table? then al == STANDARD && DecodeReady(lk.ub64) else al == QUICK
  }

  /** `UNBASE64` and `Q_UNBASE64` */
  method UnBase64(lk: Lookup, v: bv8, ghost al: Alphabet) returns (x: bv8)
    requires LooksUp(lk, al)
    ensures x == al.dec(v)
  {
    if lk.Table? {
      x := lk.ub64[v as int];
    } else {
      x := v - Q_B64_BASE;
    }
  }

  /** The registers of the decoders are unsigned ints; a store keeps the low byte. */
  function Low8(w: bv32): bv8 {
    (w & 0xff) as bv8
  }

  lemma Registers1(a: bv8, b: bv8)
    ensures Low8(((a as bv32) << 2) | ((b as bv32) >> 4)) == Byte1(a, b)
  {}

  lemma Registers2(b: bv8, c: bv8)
    ensures Low8(((b as bv32) << 4) | ((c as bv32) >> 2)) == Byte2(b, c)
  {}

  lemma Registers3(c: bv8, d: bv8)
    ensures Low8(((c as bv32) << 6) | (d as bv32)) == Byte3(c, d)
  {}

  /** `dst[0]` of a group. */
  method First(lk: Lookup, v: bv8, w: bv8, ghost al: Alphabet) returns (x: bv8)
    requires LooksUp(lk, al)
    ensures x == Byte1(al.dec(v), al.dec(w))
  {
    var a := UnBase64(lk, v, al);
    var b := UnBase64(lk, w, al);
    Registers1(a, b);
    x := Low8(((a as bv32) << 2) | ((b as bv32) >> 4));
  }

  /** `dst[1]` */
  method Second(lk: Lookup, v: bv8, w: bv8, ghost al: Alphabet) returns (x: bv8)
    requires LooksUp(lk, al)
    ensures x == Byte2(al.dec(v), al.dec(w))
  {
    var b := UnBase64(lk, v, al);
    var c := UnBase64(lk, w, al);
    Registers2(b, c);
    x := Low8(((b as bv32) << 4) | ((c as bv32) >> 2));
  }

  /** `dst[2]` */
  method Third(lk: Lookup, v: bv8, w: bv8, ghost al: Alphabet) returns (x: bv8)
    requires LooksUp(lk, al)
    ensures x == Byte3(al.dec(v), al.dec(w))
  {
    var c := UnBase64(lk, v, al);
    var d := UnBase64(lk, w, al);
    Registers3(c, d);
    x := Low8(((c as bv32) << 6) | (d as bv32));
  }

  /** A whole group: four characters, three bytes. */
  method GetThree(lk: Lookup, q: seq<bv8>, dst: array<bv8>, j: nat, ghost al: Alphabet)
    requires LooksUp(lk, al) && dst !in Memory(lk) && |q| == 4 && j + 3 <= dst.Length
    modifies dst
    ensures dst[..] == Written(old(dst[..]), j, Triple(al, q))
  {
    var x := First(lk, q[0], q[1], al);
    var y := Second(lk, q[1], q[2], al);
    var z := Third(lk, q[2], q[3], al);
    dst[j], dst[j + 1], dst[j + 2] := x, y, z;
  }

  /** One turn of the decoding loop, on the contents of the buffer. */
  lemma GroupRead(al: Alphabet, src: seq<bv8>, k: nat, orig: seq<bv8>, now: seq<bv8>, next: seq<bv8>)
    requires 4 * k + 4 <= |src| && 3 * k + 3 <= |orig| == |now|
    requires now == Triples(al, src[..4 * k]) + orig[3 * k..]
    requires next == Written(now, 3 * k, Triple(al, src[4 * k..4 * k + 4]))
    ensures next == Triples(al, src[..4 * (k + 1)]) + orig[3 * (k + 1)..]
  {
    var t, q := src[..4 * k], src[4 * k..4 * k + 4];
    TriplesLength(al, t, k);
    TriplesSnoc(al, t, q, k);
    assert t + q == src[..4 * (k + 1)];
    Splice(Triples(al, t), Triple(al, q), orig, now, next);
  }

  /** The main loop: every group of four characters but the last. */
  method GetGroups(lk: Lookup, src: seq<bv8>, g: nat, dst: array<bv8>, ghost al: Alphabet)
    requires LooksUp(lk, al) && dst !in Memory(lk) && |src| == 4 * g && 3 * g <= dst.Length
    modifies dst
    ensures dst[..] == Triples(al, src) + old(dst[..])[3 * g..]
  {
    ghost var orig := dst[..];
    var k := 0;
    while k < g
      invariant 0 <= k <= g
      invariant dst[..] == Triples(al, src[..4 * k]) + orig[3 * k..]
    {
      ghost var now := dst[..];
      GetThree(lk, src[4 * k..4 * k + 4], dst, 3 * k, al);
      GroupRead(al, src, k, orig, now, dst[..]);
      k := k + 1;
    }
    assert src[..4 * k] == src;
  }

  /** The last group: as many bytes as the padding leaves, from no more characters than they need. */
  method GetLast(lk: Lookup, q: seq<bv8>, n: nat, dst: array<bv8>, j: nat, ghost al: Alphabet)
    requires LooksUp(lk, al) && dst !in Memory(lk) && |q| == 4 && 1 <= n <= 3 && j + n <= dst.Length
    modifies dst
    ensures dst[..] == Written(old(dst[..]), j, Triple(al, q)[..n])
  {
    if n == 3 {
      GetThree(lk, q, dst, j, al);
    } else if n == 2 {
      var x := First(lk, q[0], q[1], al);
      var y := Second(lk, q[1], q[2], al);
      dst[j], dst[j + 1] := x, y;
    } else {
      dst[j] := First(lk, q[0], q[1], al);
    }
  }

  lemma {:induction false} AllDecoded(al: Alphabet, t: seq<bv8>, g: nat, orig: seq<bv8>, groups: seq<bv8>,
                                      final: seq<bv8>)
    requires Decodable(al, t) && |t| == 4 * g + 4 && |groups| == |orig| >= 3 * g + 3 - PadCount(al, t)
    requires groups == Triples(al, t[..4 * g]) + orig[3 * g..]
    requires final == Written(groups, 3 * g, LastBytes(al, t))
    ensures final == Decode(al, t) + orig[3 * g + 3 - PadCount(al, t)..]
  {
    SplitDecoding(al, t);
    TriplesLength(al, t[..4 * g], g);
    Splice(Triples(al, t[..4 * g]), LastBytes(al, t), orig, groups, final);
  }

  /** What a decoder does with a text: 0 for the wrong shape, minus the size needed for a small buffer, or the bytes. */
  ghost predicate Decoded(al: Alphabet, src: seq<bv8>, orig: seq<bv8>, now: seq<bv8>, ret: int) {
    if !Decodable(al, src) then ret == 0 && now == orig
    else if |orig| < |Decode(al, src)| then ret == -|Decode(al, src)| && now == orig
    else ret == |Decode(al, src)| && now == Decode(al, src) + orig[ret..]
  }

  /** `base64_dec`, which looks every character up in the table of `init_basex`. */
  method Base64Dec(ub64: array<bv8>, src: seq<bv8>, dst: array<bv8>) returns (ret: int)
    requires DecodeReady(ub64) && ub64 != dst
    modifies dst
    ensures Decoded(STANDARD, src, old(dst[..]), dst[..], ret)
  {
    ret := DecodeWith(Table(ub64), PAD, src, dst, STANDARD);
  }

  /** `q_base64_dec` */
  method QBase64Dec(src: seq<bv8>, dst: array<bv8>) returns (ret: int)
    modifies dst
    ensures Decoded(QUICK, src, old(dst[..]), dst[..], ret)
  {
    ret := DecodeWith(Distance, Q_B64_PAD, src, dst, QUICK);
  }

  /** The body the two share. */
  method DecodeWith(lk: Lookup, pad: bv8, src: seq<bv8>, dst: array<bv8>, ghost al: Alphabet) returns (ret: int)
    requires LooksUp(lk, al) && dst !in Memory(lk) && pad == al.pad
    modifies dst
    ensures Decoded(al, src, old(dst[..]), dst[..], ret)
  {
    if |src| < 4 || |src| % 4 != 0 || (src[|src| - 2] == pad && src[|src| - 1] != pad) {
      return 0;
    }
    DecodeLength(al, src);
    var osize := |src| / 4 * 3 - (if src[|src| - 2] == pad then 1 else 0) - (if src[|src| - 1] == pad then 1 else 0);
    if dst.Length < osize {
      return -osize;
    }
    var g := |src| / 4 - 1;
    LastCount(|src|, PadCount(al, src));
    GetAll(lk, src, g, if osize % 3 == 0 then 3 else osize % 3, dst, al);
    ret := osize;
  }

  /** How many bytes the last group gives, told by the size of the result. */
  lemma LastCount(len: nat, pad: nat)
    requires len >= 4 && len % 4 == 0 && pad <= 2
    ensures var g, osize := len / 4 - 1, len / 4 * 3 - pad;
            len == 4 * g + 4 && osize == 3 * g + 3 - pad && (if osize % 3 == 0 then 3 else osize % 3) == 3 - pad
  {}

  method GetAll(lk: Lookup, src: seq<bv8>, g: nat, n: nat, dst: array<bv8>, ghost al: Alphabet)
    requires LooksUp(lk, al) && dst !in Memory(lk)
    requires Decodable(al, src) && |src| == 4 * g + 4 && n == 3 - PadCount(al, src) && dst.Length >= 3 * g + n
    modifies dst
    ensures dst[..] == Decode(al, src) + old(dst[..])[3 * g + n..]
  {
    GetGroups(lk, src[..4 * g], g, dst, al);
    ghost var groups := dst[..];
    GetLast(lk, src[4 * g..], n, dst, 3 * g, al);
    AllDecoded(al, src, g, old(dst[..]), groups, dst[..]);
  }

  // ----- The other alphabet -----

  lemma QuickDigits(a: bv8, b: bv8, c: bv8)
    ensures QEncChar((a << 4) & 0x3f) | (b >> 4) == QEncChar(Digit2(a, b))
    ensures QEncChar((b << 2) & 0x3f) | (c >> 6) == QEncChar(Digit3(b, c))
  {}

  lemma QuickLastDigits(a: bv8, b: bv8)
    ensures Digit2(a, 0) == (a << 4) & 0x3f && Digit3(b, 0) == (b << 2) & 0x3f
  {}

  /** The main loop of `q_base64_enc`: the base character is added before the bits are merged. */
  method QPutGroups(src: seq<bv8>, g: nat, dst: array<bv8>)
    requires |src| == 3 * g && 4 * g <= dst.Length
    modifies dst
    ensures dst[..] == Encode(QUICK, src) + old(dst[..])[4 * g..]
  {
    ghost var orig := dst[..];
    var k := 0;
    while k < g
      invariant 0 <= k <= g
      invariant dst[..] == Encode(QUICK, src[..3 * k]) + orig[4 * k..]
    {
      ghost var now := dst[..];
      QPutGroup(src[3 * k], src[3 * k + 1], src[3 * k + 2], dst, 4 * k);
      GroupWritten(QUICK, src, k, orig, now, dst[..]);
      k := k + 1;
    }
    assert src[..3 * k] == src;
  }

  method QPutGroup(a: bv8, b: bv8, c: bv8, dst: array<bv8>, j: nat)
    requires j + 4 <= dst.Length
    modifies dst
    ensures dst[..] == Written(old(dst[..]), j, Quad(QUICK, a, b, c))
  {
    QuickDigits(a, b, c);
    StoreFour(dst, j, QEncChar(a >> 2), QEncChar((a << 4) & 0x3f) | (b >> 4),
              QEncChar((b << 2) & 0x3f) | (c >> 6), QEncChar(c & 0x3f));
  }

  method QPutTail(tail: seq<bv8>, dst: array<bv8>, j: nat)
    requires |tail| <= 2 && j + TailSize(|tail|) <= dst.Length
    modifies dst
    ensures dst[..] == Written(old(dst[..]), j, Encode(QUICK, tail))
  {
    if |tail| == 2 {
      var a, b := tail[0], tail[1];
      QuickDigits(a, b, 0);
      QuickLastDigits(a, b);
      StoreFour(dst, j, QEncChar(a >> 2), QEncChar((a << 4) & 0x3f) | (b >> 4),
                QEncChar((b << 2) & 0x3f), Q_B64_PAD);
    } else if |tail| == 1 {
      var a := tail[0];
      QuickLastDigits(a, 0);
      StoreFour(dst, j, QEncChar(a >> 2), QEncChar((a << 4) & 0x3f), Q_B64_PAD, Q_B64_PAD);
    }
  }

  /** `q_base64_enc` */
  method QBase64Enc(src: seq<bv8>, dst: array<bv8>) returns (ret: int)
    modifies dst
    ensures dst.Length < (|src| + 2) / 3 * 4 ==> ret == -((|src| + 2) / 3 * 4) && dst[..] == old(dst[..])
    ensures dst.Length >= (|src| + 2) / 3 * 4 ==>
              ret == (|src| + 2) / 3 * 4 && dst[..] == Encode(QUICK, src) + old(dst[..])[ret..]
  {
    var osize := (|src| + 2) / 3 * 4;
    if dst.Length < osize {
      return -osize;
    }
    var g := |src| / 3;
    Groups(|src|);
    QPutAll(src, g, dst);
    ret := osize;
  }

  method QPutAll(src: seq<bv8>, g: nat, dst: array<bv8>)
    requires 3 * g <= |src| < 3 * g + 3 && 4 * g + TailSize(|src| - 3 * g) <= dst.Length
    modifies dst
    ensures dst[..] == Encode(QUICK, src) + old(dst[..])[4 * g + TailSize(|src| - 3 * g)..]
  {
    QPutGroups(src[..3 * g], g, dst);
    ghost var mid := dst[..];
    QPutTail(src[3 * g..], dst, 4 * g);
    AllEncoded(QUICK, src, g, old(dst[..]), mid, dst[..]);
  }

  // ----- There and back, in buffers of the declared sizes -----

  /** The text in a buffer of exactly its size. */
  lemma WholeBuffer(al: Alphabet, src: seq<bv8>, text: seq<bv8>, junk: seq<bv8>)
    requires text == Encode(al, src) + junk && |text| == (|src| + 2) / 3 * 4
    ensures text == Encode(al, src)
  {
    EncodeLength(al, src);
  }

  /** What decoding an encoding gives in a buffer of the right size. */
  lemma DecodedIsSource(al: Alphabet, src: seq<bv8>, text: seq<bv8>, orig: seq<bv8>, now: seq<bv8>, ret: int)
    requires Reversible(al) && text == Encode(al, src) && |orig| == |src| && Decoded(al, text, orig, now, ret)
    ensures ret == |src| && now == src
  {
    if src != [] {
      RoundTrip(al, src);
    }
  }

  /** `base64_dec` after `base64_enc` is the identity on every byte string, for either byte order and parity. */
  method EncodeDecode(e: Endian, odd: bool, src: seq<bv8>) returns (ret: int, out: seq<bv8>)
    ensures ret == |src| && out == src
  {
    var b64 := InitEncodeTable(e);
    var ub64 := InitDecodeTable();
    var text := new bv8[(|src| + 2) / 3 * 4];
    ghost var junk := text[..];
    ret := Base64Enc(e, b64, src, text, odd);
    WholeBuffer(STANDARD, src, text[..], junk[ret..]);
    StandardReversible();
    var bytes := new bv8[|src|];
    ghost var orig := bytes[..];
    ret := Base64Dec(ub64, text[..], bytes);
    DecodedIsSource(STANDARD, src, text[..], orig, bytes[..], ret);
    out := bytes[..];
  }

  /** The same for `q_base64_enc` and `q_base64_dec`. */
  method QEncodeDecode(src: seq<bv8>) returns (ret: int, out: seq<bv8>)
    ensures ret == |src| && out == src
  {
    var text := new bv8[(|src| + 2) / 3 * 4];
    ghost var junk := text[..];
    ret := QBase64Enc(src, text);
    WholeBuffer(QUICK, src, text[..], junk[ret..]);
    QuickReversible();
    var bytes := new bv8[|src|];
    ghost var orig := bytes[..];
    ret := QBase64Dec(text[..], bytes);
    DecodedIsSource(QUICK, src, text[..], orig, bytes[..], ret);
    out := bytes[..];
  }
}
