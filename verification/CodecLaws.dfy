/**
  What the codecs and the hash compute, against facts from outside: the alphabet and the test vectors of
  RFC 4648, digits to the base 64 as ordinary numbers, the check value of the frame check sequence, and
  values of the case-insensitive hash worked out by hand.
 */
module CodecLaws {
  import opened Options
  import opened Base64
  import opened CaseHash
  import opened Crc
  import opened ReverseHex

  // ----- Base64 -----

  // Table 1 of RFC 4648, the characters in ASCII.

  lemma UpperCase()
    ensures [
        EncChar(0), EncChar(1), EncChar(2), EncChar(3), EncChar(4), EncChar(5), EncChar(6),
        EncChar(7), EncChar(8), EncChar(9), EncChar(10), EncChar(11), EncChar(12), EncChar(13),
        EncChar(14), EncChar(15), EncChar(16), EncChar(17), EncChar(18), EncChar(19), EncChar(20),
        EncChar(21), EncChar(22), EncChar(23), EncChar(24), EncChar(25)
    ] == [
        0x41, 0x42, 0x43, 0x44, 0x45, 0x46, 0x47, 0x48, 0x49, 0x4a, 0x4b, 0x4c, 0x4d,
        0x4e, 0x4f, 0x50, 0x51, 0x52, 0x53, 0x54, 0x55, 0x56, 0x57, 0x58, 0x59, 0x5a
    ]
  {}

  lemma LowerCase()
    ensures [
        EncChar(26), EncChar(27), EncChar(28), EncChar(29), EncChar(30), EncChar(31), EncChar(32),
        EncChar(33), EncChar(34), EncChar(35), EncChar(36), EncChar(37), EncChar(38), EncChar(39),
        EncChar(40), EncChar(41), EncChar(42), EncChar(43), EncChar(44), EncChar(45), EncChar(46),
        EncChar(47), EncChar(48), EncChar(49), EncChar(50), EncChar(51)
    ] == [
        0x61, 0x62, 0x63, 0x64, 0x65, 0x66, 0x67, 0x68, 0x69, 0x6a, 0x6b, 0x6c, 0x6d,
        0x6e, 0x6f, 0x70, 0x71, 0x72, 0x73, 0x74, 0x75, 0x76, 0x77, 0x78, 0x79, 0x7a
    ]
  {}

  lemma DigitsAndSigns()
    ensures [
        EncChar(52), EncChar(53), EncChar(54), EncChar(55), EncChar(56), EncChar(57), EncChar(58),
        EncChar(59), EncChar(60), EncChar(61), EncChar(62), EncChar(63)
    ] == [
        0x30, 0x31, 0x32, 0x33, 0x34, 0x35, 0x36, 0x37, 0x38, 0x39, 0x2b, 0x2f
    ]
  {}

  /** The other alphabet is the 64 characters from '0' on. */
  lemma QuickAlphabet(v: bv8)
    requires v <= 0x3f
    ensures QEncChar(v) as int == '0' as int + v as int
  {}

  /** The four digits of three bytes are those of their number to the base 64. */
  lemma DigitsToBase64(a: bv8, b: bv8, c: bv8)
    ensures Digit1(a) <= 0x3f && Digit2(a, b) <= 0x3f && Digit3(b, c) <= 0x3f && Digit4(c) <= 0x3f
    ensures (Wide(a) << 16) | (Wide(b) << 8) | Wide(c)
         == (Wide(Digit1(a)) << 18) | (Wide(Digit2(a, b)) << 12) | (Wide(Digit3(b, c)) << 6) | Wide(Digit4(c))
  {}

  function Wide(x: bv8): bv32 {
    x as bv32
  }

  /** The test vectors of section 10 of RFC 4648. */
  lemma VectorsOfTheRfc()
    ensures Encode(STANDARD, []) == []
    ensures Encode(STANDARD, [0x66]) == [0x5a, 0x67, 0x3d, 0x3d]                          // f: Zg==
    ensures Encode(STANDARD, [0x66, 0x6f]) == [0x5a, 0x6d, 0x38, 0x3d]                    // fo: Zm8=
    ensures Encode(STANDARD, [0x66, 0x6f, 0x6f]) == [0x5a, 0x6d, 0x39, 0x76]              // foo: Zm9v
    ensures Encode(STANDARD, [0x66, 0x6f, 0x6f, 0x62])
         == [0x5a, 0x6d, 0x39, 0x76, 0x59, 0x67, 0x3d, 0x3d]                              // foob: Zm9vYg==
  {
    assert [0x66, 0x6f, 0x6f][3..] == [] && [0x66, 0x6f, 0x6f, 0x62][3..] == [0x62];
    assert Encode(STANDARD, [0x62]) == [0x59, 0x67, 0x3d, 0x3d];
  }

  // ----- The frame check sequence -----

  const ONE_TO_NINE: seq<bv8> := [0x31, 0x32, 0x33, 0x34, 0x35, 0x36, 0x37, 0x38, 0x39]

  lemma Check0()
    ensures Feed(0xffff, ONE_TO_NINE[0..]) == Feed(0x634b, ONE_TO_NINE[3..])
  {
    FeedNext(0xffff, 0x2f8d, ONE_TO_NINE, 0);
    FeedNext(0x2f8d, 0x4d53, ONE_TO_NINE, 1);
    FeedNext(0x4d53, 0x634b, ONE_TO_NINE, 2);
  }

  lemma Check3()
    ensures Feed(0x634b, ONE_TO_NINE[3..]) == Feed(0x198d, ONE_TO_NINE[6..])
  {
    FeedNext(0x634b, 0x8b13, ONE_TO_NINE, 3);
    FeedNext(0x8b13, 0x44bf, ONE_TO_NINE, 4);
    FeedNext(0x44bf, 0x198d, ONE_TO_NINE, 5);
  }

  lemma Check6()
    ensures Feed(0x198d, ONE_TO_NINE[6..]) == Feed(0x6f91, ONE_TO_NINE[9..])
  {
    FeedNext(0x198d, 0x1ac8, ONE_TO_NINE, 6);
    FeedNext(0x1ac8, 0xf795, ONE_TO_NINE, 7);
    FeedNext(0xf795, 0x6f91, ONE_TO_NINE, 8);
  }

  /** The check value of this frame check sequence: that of the digits 1 to 9 is 0x906E. */
  lemma CheckValue()
    ensures Fcs(ONE_TO_NINE, 0) == 0x906e
  {
    Check0();
    Check3();
    Check6();
    assert ONE_TO_NINE[0..] == ONE_TO_NINE && ONE_TO_NINE[9..] == [];
  }

  lemma FeedNext(crc: bv16, next: bv16, s: seq<bv8>, i: nat)
    requires i < |s| && Shift8(crc ^ (s[i] as bv16)) == next
    ensures Feed(crc, s[i..]) == Feed(next, s[i + 1..])
  {
    FeedTo(crc, s[i]);
    assert s[i..][1..] == s[i + 1..];
  }

  lemma FeedTo(crc: bv16, c: bv8)
    ensures FeedByte(crc, c) == Shift8(crc ^ (c as bv16))
  {
    Unroll(crc ^ (c as bv16));
  }

  // ----- Hexadecimal digits -----

  /** The sixteen digits, and what they are worth; capital letters are read as well. */
  lemma HexDigits()
    ensures [HexChar(0), HexChar(1), HexChar(2), HexChar(3), HexChar(4), HexChar(5), HexChar(6), HexChar(7), HexChar(8),
             HexChar(9), HexChar(10), HexChar(11), HexChar(12), HexChar(13), HexChar(14), HexChar(15)]
         == "0123456789abcdef"
    ensures [DigitOf('0'), DigitOf('9'), DigitOf('a'), DigitOf('f'), DigitOf('A'), DigitOf('F'), DigitOf('g'),
             DigitOf(':')]
         == [Some(0), Some(9), Some(10), Some(15), Some(10), Some(15), None, None]
  {}

  /** The lowest digit comes first. */
  lemma LowestFirst()
    ensures Digits(0x1a2b, 4) == "b2a1" && Value("b2a1") == Some(0x1a2b)
  {
    assert Digits(0x1, 1) == "1" && Digits(0x1a, 2) == "a1" && Digits(0x1a2, 3) == "2a1";
    assert "b2a1"[1..] == "2a1" && "2a1"[1..] == "a1" && "a1"[1..] == "1" && "1"[1..] == "";
    assert Value("1") == Some(1) && Value("a1") == Some(0x1a) && Value("2a1") == Some(0x1a2);
  }

  // ----- The hash -----

  /** The hash of "sip.ex", and so of "SIP.EX", is 0x7d1851bb. */
  lemma HashOfSipEx()
    ensures HashFinish(HashUpdate(CASE_STEPS, [0x73, 0x69, 0x70, 0x2e, 0x65, 0x78], 0)) == 0x7d1851bb
  {
    var s: Name := [0x73, 0x69, 0x70, 0x2e, 0x65, 0x78];
    assert s[4..] == [0x65, 0x78] && [0x65, 0x78][1..] == [0x78];
    assert Word(0x73, 0x69, 0x70, 0x2e) == 0x7369702e;
  }
}
