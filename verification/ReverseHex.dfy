/**
  Hexadecimal numbers with the low-order digit first (ut.h): `int2reverse_hex` writes an unsigned
  number into a buffer of a given size, `reverse_hex2int` reads one.
 */
module ReverseHex {
  import opened Options

  /** Unsigned ints have 32 bits. */
  const UINT := 0x1_0000_0000

  function HexChar(d: nat): char
    requires d < 16
  {
    if d >= 10 then (d - 10 + 'a' as int) as char else (d + '0' as int) as char
  }

  /** What `reverse_hex2int` makes of one character. */
  function DigitOf(c: char): (d: Option<nat>)
    ensures d.Some? ==> d.value < 16
  {
    if '0' <= c <= '9' then Some(c as int - '0' as int)
    else if 'a' <= c <= 'f' then Some(c as int - 'a' as int + 10)
    else if 'A' <= c <= 'F' then Some(c as int - 'A' as int + 10)
    else None
  }

  /** The n low-order digits of nr, lowest first. */
  function Digits(nr: nat, n: nat): (s: string)
    ensures |s| == n
    decreases n
  {
    if n == 0 then "" else [HexChar(nr % 16)] + Digits(nr / 16, n - 1)
  }

  /** The number a text stands for; none if a character is no digit. */
  function Value(s: string): Option<nat> {
    if s == "" then Some(0)
    else
      var d, v := DigitOf(s[0]), Value(s[1..]);
      if d.Some? && v.Some? then Some(d.value + 16 * v.value) else None
  }

  function Pow16(n: nat): (p: nat)
    ensures p > 0
  {
    if n == 0 then 1 else 16 * Pow16(n - 1)
  }

  lemma ModParts(nr: nat, p: nat)
    requires p > 0
    ensures nr % (16 * p) == nr % 16 + 16 * (nr / 16 % p)
  {
    var a, q, r := nr % 16, nr / 16 / p, nr / 16 % p;
    assert nr / 16 == q * p + r;
    assert nr == (16 * p) * q + (a + 16 * r) by {
      assert 16 * (q * p) == (16 * p) * q;
    }
    DivisionIsUnique(nr, 16 * p, q, a + 16 * r);
  }

  lemma ProductGrows(m: nat, a: nat, b: nat)
    requires a <= b
    ensures m * a <= m * b
  {}

  lemma DivisionIsUnique(n: nat, m: nat, q: nat, r: nat)
    requires m > 0 && r < m && n == m * q + r
    ensures n / m == q && n % m == r
  {
    if n / m > q {
      ProductGrows(m, q + 1, n / m);
      assert false;
    } else if n / m < q {
      ProductGrows(m, n / m + 1, q);
      assert false;
    }
  }

  /** Reading n written digits gives the number modulo 16 to the n. */
  lemma {:induction false} ValueOfDigits(nr: nat, n: nat)
    ensures Value(Digits(nr, n)) == Some(nr % Pow16(n))
    decreases n
  {
    if n > 0 {
      var s := Digits(nr, n);
      assert s[1..] == Digits(nr / 16, n - 1);
      ValueOfDigits(nr / 16, n - 1);
      ModParts(nr, Pow16(n - 1));
    }
  }

  lemma {:induction false} ZeroesAdd(s: string, k: nat)
    ensures Value(s + Digits(0, k)) == Value(s)
  {
    if s == "" {
      ValueOfDigits(0, k);
      assert s + Digits(0, k) == Digits(0, k);
    } else {
      assert (s + Digits(0, k))[1..] == s[1..] + Digits(0, k);
      ZeroesAdd(s[1..], k);
    }
  }

  lemma NextDigit(out: string, rest: nat, n: nat)
    requires n > 0
    ensures out + Digits(rest, n) == (out + [HexChar(rest % 16)]) + Digits(rest / 16, n - 1)
  {}

  lemma {:induction false} PowGrows(m: nat, n: nat)
    requires m <= n
    ensures Pow16(m) <= Pow16(n)
    decreases n
  {
    if m < n {
      PowGrows(m, n - 1);
    }
  }

  /** What is left of a number without its k low-order digits. */
  function Rest(nr: nat, k: nat): nat
    decreases k
  {
    if k == 0 then nr else Rest(nr / 16, k - 1)
  }

  lemma {:induction false} RestMore(nr: nat, k: nat)
    ensures Rest(nr, k + 1) == Rest(nr, k) / 16
    decreases k
  {
    if k > 0 {
      RestMore(nr / 16, k - 1);
    }
  }

  lemma Quotient(nr: nat, p: nat)
    requires p > 0
    ensures nr / 16 < p <==> nr < 16 * p
  {}

  lemma {:induction false} RestIsNothing(nr: nat, k: nat)
    ensures Rest(nr, k) == 0 <==> nr < Pow16(k)
    decreases k
  {
    if k > 0 {
      RestIsNothing(nr / 16, k - 1);
      Quotient(nr, Pow16(k - 1));
    }
  }

  /** After some digits: what is left of the number, and no digit too many. */
  ghost predicate Wrote(nr: nat, size: nat, out: string, rest: nat) {
    && |out| <= size && out + Digits(rest, size - |out|) == Digits(nr, size)
    && rest == Rest(nr, |out|) && (|out| > 0 ==> Rest(nr, |out| - 1) != 0)
  }

  lemma WroteMore(nr: nat, size: nat, out: string, rest: nat)
    requires Wrote(nr, size, out, rest) && |out| < size && rest != 0
    ensures Wrote(nr, size, out + [HexChar(rest % 16)], rest / 16)
  {
    NextDigit(out, rest, size - |out|);
    RestMore(nr, |out|);
  }

  lemma WroteAll(nr: nat, size: nat, out: string, rest: nat)
    requires Wrote(nr, size, out, rest) && (rest == 0 || |out| == size)
    ensures rest == 0 <==> nr < Pow16(size)
    ensures rest == 0 ==> Value(out) == Some(nr)
    ensures |out| > 0 ==> Pow16(|out| - 1) <= nr
  {
    PowGrows(|out|, size);
    RestIsNothing(nr, |out|);
    if |out| > 0 {
      RestIsNothing(nr, |out| - 1);
    }
    if rest == 0 {
      ZeroesAdd(out, size - |out|);
      ValueOfDigits(nr, size);
      SmallIsItself(nr, Pow16(size));
    }
  }

  lemma SmallIsItself(n: nat, m: nat)
    requires n < m
    ensures n % m == n
  {}

  /**
    `int2reverse_hex`: 1 exactly if the number fits.  The digits written, filled up with zeroes, are
    those of the number; there are no more than needed, but at least one if there is room.
   */
  method Int2ReverseHex(nr: nat, size: nat) returns (ret: int, out: string)
    ensures ret == if nr < Pow16(size) then 1 else -1
    ensures |out| <= size && (ret == -1 ==> out == Digits(nr, size))
    ensures ret == 1 ==> out + Digits(0, size - |out|) == Digits(nr, size) && Value(out) == Some(nr)
    ensures |out| <= 1 || Pow16(|out| - 1) <= nr
  {
    if size != 0 && nr == 0 {
      NextDigit("", 0, size);
      assert "" + Digits(0, size) == Digits(0, size) && Value("0") == Some(0);
      return 1, "0";
    }
    out := "";
    var rest := nr;
    assert out + Digits(nr, size) == Digits(nr, size);
    while |out| < size && rest != 0
      invariant Wrote(nr, size, out, rest)
      decreases size - |out|
    {
      WroteMore(nr, size, out, rest);
      out := out + [HexChar(rest % 16)];
      rest := rest / 16;
    }
    WroteAll(nr, size, out, rest);
    ret := if rest != 0 then -1 else 1;
  }

  /** The number filled up with zeroes to the whole size, as `crcitt_string_array` does. */
  method WritePadded(nr: nat, size: nat) returns (dst: string)
    requires nr < Pow16(size)
    ensures dst == Digits(nr, size) && Value(dst) == Some(nr)
  {
    var ret;
    ret, dst := Int2ReverseHex(nr, size);
    ValueOfDigits(nr, size);
    SmallIsItself(nr, Pow16(size));
    while |dst| < size
      invariant |dst| <= size && dst + Digits(0, size - |dst|) == Digits(nr, size)
    {
      NextDigit(dst, 0, size - |dst|);
      dst := dst + ['0'];
    }
  }

  lemma WholeTurns(n: nat, m: nat, k: nat)
    requires m > 0
    ensures (n + m * k) % m == n % m
  {
    assert n + m * k == m * (n / m + k) + n % m;
    DivisionIsUnique(n + m * k, m, n / m + k, n % m);
  }

  lemma SixteenTimes(v: nat, m: nat, q: nat, r: nat, q': nat, r': nat)
    requires v == m * q + r && 16 * r == m * q' + r'
    ensures 16 * v == r' + m * (16 * q + q')
  {}

  /** Wrapping around in between makes no difference in the end. */
  lemma WrapStep(v: nat, d: nat, m: nat)
    requires m > 0
    ensures (16 * (v % m) % m + d) % m == (d + 16 * v) % m
  {
    var q', r' := 16 * (v % m) / m, 16 * (v % m) % m;
    SixteenTimes(v, m, v / m, v % m, q', r');
    WholeTurns(r' + d, m, 16 * (v / m) + q');
  }

  /** `reverse_hex2int`: 1 exactly if all characters are digits, and then the number, modulo 2 to the 32. */
  method ReverseHex2Int(s: string) returns (ret: int, res: nat)
    ensures ret == if Value(s).Some? then 1 else -1
    ensures ret == 1 ==> res == Value(s).value % UINT
  {
    res := 0;
    var len := |s|;
    assert s[len..] == "";
    while len > 0
      invariant 0 <= len <= |s| && Value(s[len..]).Some? && res == Value(s[len..]).value % UINT
    {
      var d := DigitOf(s[len - 1]);
      assert s[len - 1..][1..] == s[len..];
      if d.None? {
        NoValue(s, len - 1);
        return -1, res;
      }
      WrapStep(Value(s[len..]).value, d.value, UINT);
      res := (16 * res % UINT + d.value) % UINT;
      len := len - 1;
    }
    assert s[0..] == s;
    ret := 1;
  }

  /** One character that is no digit is enough. */
  lemma {:induction false} NoValue(s: string, i: nat)
    requires i < |s| && DigitOf(s[i]).None?
    ensures Value(s).None?
  {
    if i > 0 {
      NoValue(s[1..], i - 1);
    }
  }

  /** Every unsigned int is read back from a text it fits into, and only then. */
  method WriteRead(nr: nat, size: nat) returns (ok: bool, back: nat)
    requires nr < UINT
    ensures ok <==> nr < Pow16(size)
    ensures ok ==> back == nr
  {
    var ret, out := Int2ReverseHex(nr, size);
    ok, back := ret == 1, 0;
    if ok {
      ret, back := ReverseHex2Int(out);
    }
  }
}
