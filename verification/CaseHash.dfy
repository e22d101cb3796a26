/**
  The case-insensitive name hash of hashes.h and the name comparison that goes with it.

  Characters are bytes that C sees as signed `char`, words are 32-bit and wrap around.
 */
module CaseHash {

  type Name = seq<bv8>

  const HASH_SIZE := 1024

  // ----- Comparing names -----

  function Lower(c: bv8): bv8 {
    if 0x41 <= c <= 0x5a then c + 0x20 else c
  }

  /** Equal up to the case of ASCII letters. */
  ghost predicate CaseEqual(s: Name, t: Name) {
    |s| == |t| && forall i | 0 <= i < |s| :: Lower(s[i]) == Lower(t[i])
  }

  /** `strncasecmp(s, t, n) == 0`: the comparison stops at a NUL that both strings share. */
  predicate StrncasecmpZero(s: Name, t: Name, n: nat)
    requires n <= |s| && n <= |t|
    decreases n
  {
    n == 0 || (Lower(s[0]) == Lower(t[0]) && (s[0] == 0 || StrncasecmpZero(s[1..], t[1..], n - 1)))
  }

  /** The test of the cache: same length, and `strncasecmp` over that length. */
  predicate NamesMatch(entry: Name, name: Name) {
    |entry| == |name| && StrncasecmpZero(entry, name, |entry|)
  }

  // ----- Hashing names -----

  function SignExtend(c: bv8): bv32 {
    if c >= 0x80 then 0xffffff00 | (c as bv32) else c as bv32
  }

  /** The first three of four characters. */
  function High(a: bv8, b: bv8, c: bv8): bv32 {
    (SignExtend(a) << 24) + (SignExtend(b) << 16) + (SignExtend(c) << 8)
  }

  /** The fourth character; OR-ing the case bit in comes after the additions. */
  function Join(h: bv32, d: bv8): bv32 {
    (h + SignExtend(d)) | 0x20202020
  }

  function Word(a: bv8, b: bv8, c: bv8, d: bv8): bv32 {
    Join(High(a, b, c), d)
  }

  /** The body of the second loop. */
  function AddChar(v: bv32, c: bv8): bv32 {
    (v << 8) + (SignExtend(c) | 0x20)
  }

  function Mix(v: bv32): bv32 {
    v ^ (v >> 3)
  }

  function Plus(h: bv32, x: bv32): bv32 {
    h + x
  }

  /** `hash_finish` */
  function HashFinish(h: bv32): bv32 {
    (h + (h >> 11)) + ((h >> 13) + (h >> 23))
  }

  /** The finished hash modulo the size of the table. */
  function Reduced(h: bv32): bv32 {
    HashFinish(h) % 1024
  }

  function Number(x: bv32): int {
    x as int
  }

  /** The arithmetic of the two loops and of their end, kept apart from their control flow. */
  datatype Steps = Steps(
    high: (bv8, bv8, bv8) -> bv32,
    join: (bv32, bv8) -> bv32,
    oneChar: (bv32, bv8) -> bv32,
    mix: bv32 -> bv32,
    plus: (bv32, bv32) -> bv32,
    reduce: bv32 -> bv32,
    number: bv32 -> int)
  {
    function Word(a: bv8, b: bv8, c: bv8, d: bv8): bv32 {
      join(high(a, b, c), d)
    }

    /** Both loops end by mixing their word into the hash. */
    function Add(h: bv32, v: bv32): bv32 {
      plus(h, mix(v))
    }
  }

  const CASE_STEPS := Steps(High, Join, AddChar, Mix, Plus, Reduced, Number)

  function Tail(k: Steps, s: Name, v: bv32): bv32
    decreases |s|
  {
    if s == [] then v else Tail(k, s[1..], k.oneChar(v, s[0]))
  }

  /** `hash_update_case_str` */
  function HashUpdate(k: Steps, s: Name, h: bv32): bv32
    decreases |s|
  {
    if |s| >= 4 then HashUpdate(k, s[4..], k.Add(h, k.Word(s[0], s[1], s[2], s[3])))
    else k.Add(h, Tail(k, s, 0))
  }

  function Slot(k: Steps, s: Name): int {
    k.number(k.reduce(HashUpdate(k, s, 0)))
  }

  lemma NumberInRange(h: bv32)
    ensures 0 <= CASE_STEPS.number(CASE_STEPS.reduce(h)) < HASH_SIZE
  {}

  /** `dns_hash_no` */
  function Bucket(s: Name): (h: nat)
    ensures h < HASH_SIZE
  {
    NumberInRange(HashUpdate(CASE_STEPS, s, 0));
    Slot(CASE_STEPS, s)
  }

  // ----- Names that match hash alike -----

  lemma Word1(a: bv8, a': bv8, b: bv8, c: bv8, d: bv8)
    requires Lower(a) == Lower(a')
    ensures Word(a, b, c, d) == Word(a', b, c, d)
  {}

  lemma Word2(a: bv8, b: bv8, b': bv8, c: bv8, d: bv8)
    requires Lower(b) == Lower(b')
    ensures Word(a, b, c, d) == Word(a, b', c, d)
  {}

  lemma Word3(a: bv8, b: bv8, c: bv8, c': bv8, d: bv8)
    requires Lower(c) == Lower(c')
    ensures Word(a, b, c, d) == Word(a, b, c', d)
  {}

  lemma Word4(a: bv8, b: bv8, c: bv8, d: bv8, d': bv8)
    requires Lower(d) == Lower(d')
    ensures Word(a, b, c, d) == Word(a, b, c, d')
  {}

  lemma TailChar(c: bv8, c': bv8)
    requires Lower(c) == Lower(c')
    ensures SignExtend(c) | 0x20 == SignExtend(c') | 0x20
  {}

  /** The steps do not see the case of a letter. */
  ghost predicate CaseBlind(k: Steps) {
    && (forall a, b, c, d, a', b', c', d' {:trigger k.Word(a, b, c, d), k.Word(a', b', c', d')} |
          Lower(a) == Lower(a') && Lower(b) == Lower(b') && Lower(c) == Lower(c') && Lower(d) == Lower(d') ::
          k.Word(a, b, c, d) == k.Word(a', b', c', d'))
    && (forall v, c, c' {:trigger k.oneChar(v, c), k.oneChar(v, c')} | Lower(c) == Lower(c') ::
          k.oneChar(v, c) == k.oneChar(v, c'))
  }

  lemma WordCase(a: bv8, b: bv8, c: bv8, d: bv8, a': bv8, b': bv8, c': bv8, d': bv8)
    requires Lower(a) == Lower(a') && Lower(b) == Lower(b') && Lower(c) == Lower(c') && Lower(d) == Lower(d')
    ensures Word(a, b, c, d) == Word(a', b', c', d')
  {
    Word1(a, a', b, c, d);
    Word2(a', b, b', c, d);
    Word3(a', b', c, c', d);
    Word4(a', b', c', d, d');
  }

  lemma AddCharCase(v: bv32, c: bv8, c': bv8)
    requires Lower(c) == Lower(c')
    ensures CASE_STEPS.oneChar(v, c) == CASE_STEPS.oneChar(v, c')
  {
    TailChar(c, c');
  }

  lemma CaseStepsBlind()
    ensures CaseBlind(CASE_STEPS)
  {
    forall a, b, c, d, a', b', c', d' |
      Lower(a) == Lower(a') && Lower(b) == Lower(b') && Lower(c) == Lower(c') && Lower(d) == Lower(d')
      ensures CASE_STEPS.Word(a, b, c, d) == CASE_STEPS.Word(a', b', c', d')
    {
      WordCase(a, b, c, d, a', b', c', d');
    }
    forall v, c, c' | Lower(c) == Lower(c')
      ensures CASE_STEPS.oneChar(v, c) == CASE_STEPS.oneChar(v, c')
    {
      AddCharCase(v, c, c');
    }
  }

  lemma {:induction false} TailCase(k: Steps, s: Name, t: Name, v: bv32)
    requires CaseBlind(k) && CaseEqual(s, t)
    ensures Tail(k, s, v) == Tail(k, t, v)
    decreases |s|
  {
    if s != [] {
      assert k.oneChar(v, s[0]) == k.oneChar(v, t[0]);
      TailCase(k, s[1..], t[1..], k.oneChar(v, s[0]));
    }
  }

  lemma {:induction false} HashUpdateCase(k: Steps, s: Name, t: Name, h: bv32)
    requires CaseBlind(k) && CaseEqual(s, t)
    ensures HashUpdate(k, s, h) == HashUpdate(k, t, h)
    decreases |s|
  {
    if |s| >= 4 {
      var v := k.Word(s[0], s[1], s[2], s[3]);
      assert v == k.Word(t[0], t[1], t[2], t[3]);
      HashUpdateCase(k, s[4..], t[4..], k.Add(h, v));
    } else {
      TailCase(k, s, t, 0);
    }
  }

  /** Names that differ only in case are in the same bucket. */
  lemma {:induction false} SameBucket(s: Name, t: Name)
    requires CaseEqual(s, t)
    ensures Bucket(s) == Bucket(t)
  {
    CaseStepsBlind();
    HashUpdateCase(CASE_STEPS, s, t, 0);
  }

  // ----- When the comparison is case-insensitive equality -----

  /** No NUL before the last character. */
  predicate IsPlain(s: Name) {
    s == [] || 0 !in s[..|s| - 1]
  }

  lemma {:induction false} CompareToLast(entry: Name, name: Name)
    requires |entry| == |name| && IsPlain(entry)
    ensures StrncasecmpZero(entry, name, |entry|) <==> CaseEqual(entry, name)
    decreases |entry|
  {
    if |entry| > 1 {
      assert entry[0] in entry[..|entry| - 1] && entry[1..][..|entry| - 2] == entry[..|entry| - 1][1..];
      CompareToLast(entry[1..], name[1..]);
      if StrncasecmpZero(entry, name, |entry|) {
        forall i | 0 < i < |entry|
          ensures Lower(entry[i]) == Lower(name[i])
        {
          assert entry[i] == entry[1..][i - 1] && name[i] == name[1..][i - 1];
        }
      }
    }
  }

  /** For a plain cached name the cache's test is case-insensitive equality. */
  lemma MatchIsCaseEqual(entry: Name, name: Name)
    requires IsPlain(entry)
    ensures NamesMatch(entry, name) <==> CaseEqual(entry, name)
  {
    if |entry| == |name| {
      CompareToLast(entry, name);
    }
  }

  /** The comparison accepts whatever follows a NUL that both names have reached together. */
  lemma {:induction false} CompareStopsAtNul(s: Name, t: Name, i: nat)
    requires |s| == |t| && i < |s| && s[..i + 1] == t[..i + 1] && s[i] == 0
    ensures StrncasecmpZero(s, t, |s|)
    decreases i
  {
    assert s[0] == s[..i + 1][0] && t[0] == t[..i + 1][0];
    if i > 0 {
      assert s[1..][..i] == s[..i + 1][1..] && t[1..][..i] == t[..i + 1][1..];
      CompareStopsAtNul(s[1..], t[1..], i - 1);
    }
  }

  /** The name with the lowest bit of its last character flipped. */
  function Flipped(s: Name): Name
    requires s != []
  {
    FlippedBy(LOW_BIT, s)
  }

  /** A cached name that is not plain matches itself with another last character. */
  lemma NulHidesLast(entry: Name)
    requires !IsPlain(entry)
    ensures NamesMatch(entry, Flipped(entry)) && !CaseEqual(entry, Flipped(entry))
  {
    var last, name := |entry| - 1, Flipped(entry);
    var i :| 0 <= i < last && entry[i] == 0;
    assert name[..i + 1] == entry[..i + 1];
    CompareStopsAtNul(entry, name, i);
    FlipIsNoCase(entry[last]);
    assert Lower(entry[last]) != Lower(name[last]);
  }

  lemma FlipIsNoCase(c: bv8)
    ensures Lower(c ^ 1) != Lower(c)
  {}

  /** The cache's test is case-insensitive equality exactly if the cached name is plain. */
  lemma MatchIsCaseEqualExactly(entry: Name)
    ensures IsPlain(entry) <==> forall name :: NamesMatch(entry, name) <==> CaseEqual(entry, name)
  {
    if IsPlain(entry) {
      forall name
        ensures NamesMatch(entry, name) <==> CaseEqual(entry, name)
      {
        MatchIsCaseEqual(entry, name);
      }
    } else {
      NulHidesLast(entry);
    }
  }

  // ----- When names that match are in one bucket -----

  function FlipLetter(c: bv8): bv8 {
    c ^ 1
  }

  function FlipWord(x: bv32): bv32 {
    x ^ 1
  }

  predicate IsEven(x: bv32) {
    x & 1 == 0
  }

  function Succ(x: bv32): bv32 {
    x + 1
  }

  /** Flipping the lowest bit of a character and of a word; the next word. */
  datatype Flip = Flip(letter: bv8 -> bv8, word: bv32 -> bv32, even: bv32 -> bool, next: bv32 -> bv32)

  const LOW_BIT := Flip(FlipLetter, FlipWord, IsEven, Succ)

  ghost predicate HighIsEven(k: Steps, f: Flip) {
    forall a, b, c {:trigger k.high(a, b, c)} :: f.even(k.high(a, b, c))
  }

  ghost predicate JoinFlips(k: Steps, f: Flip) {
    forall h, d {:trigger k.join(h, d)} | f.even(h) :: k.join(h, f.letter(d)) == f.word(k.join(h, d))
  }

  ghost predicate CharFlips(k: Steps, f: Flip) {
    forall v, c {:trigger k.oneChar(v, c)} :: k.oneChar(v, f.letter(c)) == f.word(k.oneChar(v, c))
  }

  ghost predicate MixFlips(k: Steps, f: Flip) {
    forall v {:trigger k.mix(f.word(v))} :: k.mix(f.word(v)) == f.word(k.mix(v))
  }

  ghost predicate FlipIsByOne(f: Flip) {
    forall x {:trigger f.word(x)} :: if f.even(x) then f.word(x) == f.next(x) else x == f.next(f.word(x))
  }

  ghost predicate SumIsByOne(k: Steps, f: Flip) {
    forall h, x {:trigger k.plus(h, f.next(x))} :: k.plus(h, f.next(x)) == f.next(k.plus(h, x))
  }

  ghost predicate NextIsApart(k: Steps, f: Flip) {
    forall x {:trigger k.reduce(f.next(x))} :: k.reduce(f.next(x)) != k.reduce(x)
  }

  ghost predicate NumbersDiffer(k: Steps) {
    forall x, y {:trigger k.number(x), k.number(y)} | x != y :: k.number(x) != k.number(y)
  }

  /**
    A flipped last character flips the word it belongs to, which moves the hash by 1 and changes the
    number of the bucket.
   */
  ghost predicate FlipsThrough(k: Steps, f: Flip) {
    && HighIsEven(k, f) && JoinFlips(k, f) && CharFlips(k, f) && MixFlips(k, f)
    && FlipIsByOne(f) && SumIsByOne(k, f) && NextIsApart(k, f) && NumbersDiffer(k)
    && (forall h {:trigger k.Add(h, 0)} :: k.Add(h, 0) == h)
  }

  // The arithmetic, one operation at a time.

  lemma HighAlwaysEven(a: bv8, b: bv8, c: bv8)
    ensures IsEven(High(a, b, c))
  {}

  lemma JoinedFlip(h: bv32, d: bv8)
    requires IsEven(h)
    ensures Join(h, FlipLetter(d)) == FlipWord(Join(h, d))
  {}

  lemma CharFlip(v: bv32, c: bv8)
    ensures AddChar(v, FlipLetter(c)) == FlipWord(AddChar(v, c))
  {}

  lemma MixByte0(v: bv32)
    ensures Mix(FlipWord(v)) & 0xff == FlipWord(Mix(v)) & 0xff
  {}

  lemma MixByte1(v: bv32)
    ensures Mix(FlipWord(v)) & 0xff00 == FlipWord(Mix(v)) & 0xff00
  {}

  lemma MixByte2(v: bv32)
    ensures Mix(FlipWord(v)) & 0xff0000 == FlipWord(Mix(v)) & 0xff0000
  {}

  lemma MixByte3(v: bv32)
    ensures Mix(FlipWord(v)) & 0xff000000 == FlipWord(Mix(v)) & 0xff000000
  {}

  lemma SameBytes(x: bv32, y: bv32)
    requires x & 0xff == y & 0xff && x & 0xff00 == y & 0xff00
    requires x & 0xff0000 == y & 0xff0000 && x & 0xff000000 == y & 0xff000000
    ensures x == y
  {}

  lemma MixFlip(v: bv32)
    ensures Mix(FlipWord(v)) == FlipWord(Mix(v))
  {
    MixByte0(v);
    MixByte1(v);
    MixByte2(v);
    MixByte3(v);
    SameBytes(Mix(FlipWord(v)), FlipWord(Mix(v)));
  }

  lemma FlipByOne(x: bv32)
    ensures if IsEven(x) then FlipWord(x) == Succ(x) else x == Succ(FlipWord(x))
  {}

  lemma SumNext(h: bv32, x: bv32)
    ensures Succ(Plus(h, x)) == Plus(h, x + 1)
  {}

  lemma SumByOne(h: bv32, x: bv32)
    ensures Plus(h, Succ(x)) == Succ(Plus(h, x))
  {
    SumNext(h, x);
    assert Succ(x) == x + 1;
  }

  lemma NextApart(x: bv32)
    ensures Reduced(Succ(x)) != Reduced(x)
  {}

  lemma NumberDiffers(x: bv32, y: bv32)
    requires x != y
    ensures Number(x) != Number(y)
  {
    assert (x as int) as bv32 == x && (y as int) as bv32 == y;
  }

  lemma CaseHigh()
    ensures HighIsEven(CASE_STEPS, LOW_BIT)
  {
    forall a, b, c ensures IsEven(High(a, b, c)) { HighAlwaysEven(a, b, c); }
  }

  lemma CaseJoin()
    ensures JoinFlips(CASE_STEPS, LOW_BIT)
  {
    forall h, d | IsEven(h) ensures Join(h, FlipLetter(d)) == FlipWord(Join(h, d)) { JoinedFlip(h, d); }
  }

  lemma CaseChar()
    ensures CharFlips(CASE_STEPS, LOW_BIT)
  {
    forall v, c ensures AddChar(v, FlipLetter(c)) == FlipWord(AddChar(v, c)) { CharFlip(v, c); }
  }

  lemma CaseMix()
    ensures MixFlips(CASE_STEPS, LOW_BIT)
  {
    forall v ensures Mix(FlipWord(v)) == FlipWord(Mix(v)) { MixFlip(v); }
  }

  lemma AddNothing(h: bv32)
    ensures CASE_STEPS.Add(h, 0) == h
  {}

  lemma LowBitByOne()
    ensures FlipIsByOne(LOW_BIT)
  {
    forall x ensures if IsEven(x) then FlipWord(x) == Succ(x) else x == Succ(FlipWord(x)) { FlipByOne(x); }
  }

  lemma CaseSums()
    ensures SumIsByOne(CASE_STEPS, LOW_BIT)
  {
    forall h, x ensures Plus(h, Succ(x)) == Succ(Plus(h, x)) { SumByOne(h, x); }
  }

  lemma CaseApart()
    ensures NextIsApart(CASE_STEPS, LOW_BIT)
  {
    forall x ensures Reduced(Succ(x)) != Reduced(x) { NextApart(x); }
  }

  lemma CaseNumbers()
    ensures NumbersDiffer(CASE_STEPS)
  {
    forall x, y {:trigger Number(x), Number(y)} | x != y ensures Number(x) != Number(y) { NumberDiffers(x, y); }
  }

  lemma CaseFlipsThrough()
    ensures FlipsThrough(CASE_STEPS, LOW_BIT)
  {
    CaseHigh();
    CaseJoin();
    CaseChar();
    CaseMix();
    LowBitByOne();
    CaseSums();
    CaseApart();
    CaseNumbers();
    forall h ensures CASE_STEPS.Add(h, 0) == h { AddNothing(h); }
  }

  // The loops.

  function FlippedBy(f: Flip, s: Name): Name
    requires s != []
  {
    s[..|s| - 1] + [f.letter(s[|s| - 1])]
  }

  lemma {:induction false} TailFlips(k: Steps, f: Flip, s: Name, v: bv32)
    requires FlipsThrough(k, f) && s != []
    ensures Tail(k, FlippedBy(f, s), v) == f.word(Tail(k, s, v))
    decreases |s|
  {
    var t := FlippedBy(f, s);
    if |s| == 1 {
      assert t[1..] == s[1..] == [];
      CharFlipsAt(k, f, v, s[0]);
    } else {
      assert t[1..] == FlippedBy(f, s[1..]) && t[0] == s[0];
      TailFlips(k, f, s[1..], k.oneChar(v, s[0]));
    }
  }

  lemma ApartAt(k: Steps, f: Flip, x: bv32)
    requires FlipsThrough(k, f)
    ensures k.reduce(f.next(x)) != k.reduce(x)
  {}

  lemma WordMoves(k: Steps, f: Flip, h: bv32, v: bv32)
    requires FlipsThrough(k, f)
    ensures k.number(k.reduce(k.Add(h, f.word(v)))) != k.number(k.reduce(k.Add(h, v)))
  {
    var x := k.mix(v);
    var y := f.word(x);
    assert k.mix(f.word(v)) == y;
    if f.even(x) {
      assert k.plus(h, f.next(x)) == f.next(k.plus(h, x));
      ApartAt(k, f, k.plus(h, x));
    } else {
      assert k.plus(h, f.next(y)) == f.next(k.plus(h, y));
      ApartAt(k, f, k.plus(h, y));
    }
  }

  lemma CharFlipsAt(k: Steps, f: Flip, v: bv32, c: bv8)
    requires FlipsThrough(k, f)
    ensures k.oneChar(v, f.letter(c)) == f.word(k.oneChar(v, c))
  {}

  lemma WordFlipsAt(k: Steps, f: Flip, a: bv8, b: bv8, c: bv8, d: bv8)
    requires FlipsThrough(k, f)
    ensures k.Word(a, b, c, f.letter(d)) == f.word(k.Word(a, b, c, d))
  {
    var h := k.high(a, b, c);
    assert f.even(h);
    assert k.join(h, f.letter(d)) == f.word(k.join(h, d));
  }

  lemma {:induction false} HashMoves(k: Steps, f: Flip, s: Name, h: bv32)
    requires FlipsThrough(k, f) && s != []
    ensures k.number(k.reduce(HashUpdate(k, FlippedBy(f, s), h))) != k.number(k.reduce(HashUpdate(k, s, h)))
    decreases |s|
  {
    var t := FlippedBy(f, s);
    if |s| > 4 {
      assert t[4..] == FlippedBy(f, s[4..]);
      HashMoves(k, f, s[4..], k.Add(h, k.Word(s[0], s[1], s[2], s[3])));
    } else if |s| == 4 {
      assert s[4..] == t[4..] == [];
      FourMove(k, f, s[0], s[1], s[2], s[3], h);
    } else {
      TailFlips(k, f, s, 0);
      WordMoves(k, f, h, Tail(k, s, 0));
    }
  }

  lemma EmptyAdds(k: Steps, h: bv32, f: Flip)
    requires FlipsThrough(k, f)
    ensures HashUpdate(k, [], h) == h
  {
    assert k.Add(h, 0) == h;
  }

  lemma FourMove(k: Steps, f: Flip, a: bv8, b: bv8, c: bv8, d: bv8, h: bv32)
    requires FlipsThrough(k, f)
    ensures var v, w := k.Word(a, b, c, d), k.Word(a, b, c, f.letter(d));
            k.number(k.reduce(HashUpdate(k, [], k.Add(h, w)))) != k.number(k.reduce(HashUpdate(k, [], k.Add(h, v))))
  {
    var v := k.Word(a, b, c, d);
    WordMoves(k, f, h, v);
    WordFlipsAt(k, f, a, b, c, d);
    EmptyAdds(k, k.Add(h, v), f);
    EmptyAdds(k, k.Add(h, f.word(v)), f);
  }

  lemma SlotMoves(k: Steps, f: Flip, s: Name)
    requires FlipsThrough(k, f) && s != []
    ensures Slot(k, FlippedBy(f, s)) != Slot(k, s)
  {
    HashMoves(k, f, s, 0);
  }

  /** Flipping the lowest bit of the last character always moves a name to another bucket. */
  lemma FlippedElsewhere(s: Name)
    requires s != []
    ensures Bucket(Flipped(s)) != Bucket(s)
  {
    CaseFlipsThrough();
    SlotMoves(CASE_STEPS, LOW_BIT, s);
  }

  /** All names that match a cached name are in its bucket exactly if the cached name is plain. */
  lemma OneBucketExactly(entry: Name)
    ensures IsPlain(entry) <==> forall name | NamesMatch(entry, name) :: Bucket(name) == Bucket(entry)
  {
    if IsPlain(entry) {
      forall name | NamesMatch(entry, name)
        ensures Bucket(name) == Bucket(entry)
      {
        MatchIsCaseEqual(entry, name);
        SameBucket(entry, name);
      }
    } else {
      NulHidesLast(entry);
      FlippedElsewhere(entry);
    }
  }

  /** For example: the comparison never looks beyond the NUL, the hash does. */
  lemma NulBreaksBuckets()
    ensures NamesMatch([0x61, 0, 0x62], [0x61, 0, 0x63])
    ensures Bucket([0x61, 0, 0x62]) != Bucket([0x61, 0, 0x63])
  {
    var s: Name := [0x61, 0, 0x62];
    assert s[1] in s[..2];
    assert Flipped(s) == [0x61, 0, 0x63];
    NulHidesLast(s);
    FlippedElsewhere(s);
  }

  /** `get_hash1_case_raw` as the macro runs it, with its two loops. */
  method GetHash1CaseRaw(s: Name) returns (r: bv32)
    ensures r == HashFinish(HashUpdate(CASE_STEPS, s, 0))
  {
    var h: bv32, p := 0, 0;
    while p + 4 <= |s|
      invariant 0 <= p <= |s| && HashUpdate(CASE_STEPS, s, 0) == HashUpdate(CASE_STEPS, s[p..], h)
    {
      assert s[p..][4..] == s[p + 4..];
      h := CASE_STEPS.Add(h, CASE_STEPS.Word(s[p], s[p + 1], s[p + 2], s[p + 3]));
      p := p + 4;
    }
    var v: bv32 := 0;
    ghost var q := p;
    while p < |s|
      invariant q <= p <= |s| && Tail(CASE_STEPS, s[q..], 0) == Tail(CASE_STEPS, s[p..], v)
    {
      v := CASE_STEPS.oneChar(v, s[p]);
      p := p + 1;
    }
    r := HashFinish(CASE_STEPS.Add(h, v));
  }
}
