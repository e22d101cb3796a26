/** Sequences: repetitions, removing a set of elements, writing over a stretch. */
module Sequences {

  ghost predicate Distinct<T>(s: seq<T>) {
    s == [] || (s[0] !in s[1..] && Distinct(s[1..]))
  }

  lemma {:induction false} DistinctAt<T>(s: seq<T>, i: nat)
    requires Distinct(s) && i < |s|
    ensures s[i] !in s[..i] && s[i] !in s[i + 1..]
  {
    if i > 0 {
      DistinctAt(s[1..], i - 1);
      assert s[1..][i - 1] == s[i] && s[1..][i..] == s[i + 1..];
      assert s[..i] == [s[0]] + s[1..][..i - 1];
    }
  }

  /** s without the elements of gone, in the same order. */
  function Minus<T(==)>(s: seq<T>, gone: set<T>): (r: seq<T>)
    ensures forall x {:trigger x in r} | x in r :: x in s && x !in gone
    ensures forall x {:trigger x in r} | x in s && x !in gone :: x in r
    ensures |r| <= |s|
  {
    if s == [] then [] else (if s[0] in gone then [] else [s[0]]) + Minus(s[1..], gone)
  }

  lemma {:induction false} MinusConcat<T>(s: seq<T>, t: seq<T>, gone: set<T>)
    ensures Minus(s + t, gone) == Minus(s, gone) + Minus(t, gone)
  {
    if s == [] {
      assert s + t == t;
    } else {
      assert (s + t)[1..] == s[1..] + t;
      MinusConcat(s[1..], t, gone);
    }
  }

  lemma {:induction false} MinusNothing<T>(s: seq<T>, gone: set<T>)
    requires forall x | x in s :: x !in gone
    ensures Minus(s, gone) == s
  {
    if s != [] {
      MinusNothing(s[1..], gone);
    }
  }

  lemma {:induction false} MinusTwice<T>(s: seq<T>, g1: set<T>, g2: set<T>)
    ensures Minus(Minus(s, g1), g2) == Minus(s, g1 + g2)
  {
    if s != [] {
      var r := Minus(s[1..], g1);
      MinusTwice(s[1..], g1, g2);
      if s[0] in g1 {
        assert Minus(s, g1) == r;
      } else {
        assert Minus(s, g1) == [s[0]] + r;
        assert Minus([s[0]], g2) == if s[0] in g2 then [] else [s[0]];
        MinusConcat([s[0]], r, g2);
      }
    }
  }

  lemma {:induction false} MinusDistinct<T>(s: seq<T>, gone: set<T>)
    requires Distinct(s)
    ensures Distinct(Minus(s, gone))
  {
    if s != [] {
      MinusDistinct(s[1..], gone);
      var r := Minus(s[1..], gone);
      if s[0] in gone {
        assert Minus(s, gone) == r;
      } else {
        assert Minus(s, gone)[1..] == r;
      }
    }
  }

  lemma {:induction false} DistinctSnoc<T>(s: seq<T>, x: T)
    requires Distinct(s) && x !in s
    ensures Distinct(s + [x])
  {
    if s != [] {
      DistinctSnoc(s[1..], x);
      assert (s + [x])[1..] == s[1..] + [x];
    }
  }

  lemma UnionAssociative<T>(a: set<T>, b: set<T>, c: set<T>)
    ensures a + (b + c) == (a + b) + c
  {}

  lemma UnionEmpty<T>(a: set<T>)
    ensures a + {} == a && {} + a == a
  {}

  lemma ConcatAssociative<T>(a: seq<T>, b: seq<T>, c: seq<T>)
    ensures a + (b + c) == (a + b) + c
  {}

  lemma ConcatEmpty<T>(s: seq<T>)
    ensures [] + s == s && s + [] == s
  {}

  /** s with the elements from j on replaced by b. */
  function Written<T>(s: seq<T>, j: nat, b: seq<T>): seq<T>
    requires j + |b| <= |s|
  {
    s[..j] + b + s[j + |b|..]
  }
}
