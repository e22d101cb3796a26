/**
  The plain traversal of a record list (dns_cache.c): `dns_entry_get_rr` returns the first
  unexpired record from a number on, and the caller adds 1 to the number for the next call.  The
  function does not count the expired records it passes, and the number is one byte.
 */
module RecordOrder {
  import opened Options
  import opened DnsTable
  import opened SrvSelect

  /** The first unexpired record from n on; the end of the list if there is none. */
  function FirstFresh(list: seq<Rr>, n: nat, v: View): (k: nat)
    requires n <= |list|
    ensures n <= k <= |list| && (k < |list| ==> Fresh(list[k], v))
    ensures forall j | n <= j < k :: !Fresh(list[j], v)
    decreases |list| - n
  {
    if n == |list| || Fresh(list[n], v) then n else FirstFresh(list, n + 1, v)
  }

  /** The search does not pass an unexpired record. */
  lemma FreshStops(list: seq<Rr>, n: nat, v: View, k: nat)
    requires n <= k < |list| && Fresh(list[k], v)
    ensures FirstFresh(list, n, v) <= k
  {}

  /** What the first loop skips. */
  function Skipped(list: seq<Rr>, no: nat): nat {
    if no < |list| then no else |list|
  }

  /** `dns_entry_get_rr`: the first unexpired record from number no on; the number is not that of the record found. */
  method EntryGetRr(list: seq<Rr>, no: nat, v: View) returns (n: nat, k: nat)
    ensures n == Skipped(list, no) && k == FirstFresh(list, n, v)
    ensures n <= k <= |list| && (forall j | n <= j < k :: !Fresh(list[j], v)) && (k < |list| ==> Fresh(list[k], v))
  {
    n := 0;
    while n < |list| && n < no
      invariant n <= |list| && n <= no
    {
      n := n + 1;
    }
    k := n;
    while k < |list| && !Fresh(list[k], v)
      invariant n <= k <= |list| && FirstFresh(list, k, v) == FirstFresh(list, n, v)
    {
      k := k + 1;
    }
  }

  /** The record a call with number no returns. */
  function From(list: seq<Rr>, v: View, no: nat): Option<nat> {
    var k := FirstFresh(list, Skipped(list, no), v);
    if k < |list| then Some(k) else None
  }

  /** The number for the next call. */
  function Advanced(list: seq<Rr>, no: nat): nat {
    (Skipped(list, no) + 1) % 256
  }

  // ----- Repeated calls at a fixed time -----

  /** The number the t-th call starts at. */
  function Number(list: seq<Rr>, t: nat): nat {
    if t == 0 then 0 else Advanced(list, Number(list, t - 1))
  }

  /** What the t-th call returns. */
  function Returned(list: seq<Rr>, v: View, t: nat): Option<nat> {
    From(list, v, Number(list, t))
  }

  /** The calls one after another, each with the number the one before has left. */
  method Traverse(list: seq<Rr>, v: View, calls: nat) returns (rs: seq<Option<nat>>)
    ensures |rs| == calls && forall t | 0 <= t < calls :: rs[t] == Returned(list, v, t)
  {
    rs := [];
    var no := 0;
    while |rs| < calls
      invariant |rs| <= calls && no == Number(list, |rs|)
      invariant forall t | 0 <= t < |rs| :: rs[t] == Returned(list, v, t)
    {
      var n, k := EntryGetRr(list, no, v);
      rs := rs + [if k < |list| then Some(k) else None];
      no := (n + 1) % 256;
    }
  }

  /**
    Each unexpired record is returned by exactly one call, and after a call without a record there
    is never one again.
   */
  ghost predicate EachOnce(list: seq<Rr>, v: View) {
    && (forall t: nat, u: nat | t < u && Returned(list, v, t).Some? :: Returned(list, v, u) != Returned(list, v, t))
    && (forall k: nat | k < |list| && Fresh(list[k], v) :: exists t: nat :: Returned(list, v, t) == Some(k))
    && (forall t: nat, u: nat | t < u && Returned(list, v, t).None? :: Returned(list, v, u).None?)
  }

  /** No expired record stands before an unexpired one. */
  ghost predicate ExpiredLast(list: seq<Rr>, v: View) {
    forall j, k | 0 <= j < k < |list| && Fresh(list[k], v) :: Fresh(list[j], v)
  }

  ghost predicate AllExpired(list: seq<Rr>, v: View) {
    forall k | 0 <= k < |list| :: !Fresh(list[k], v)
  }

  /** The number of a list shorter than 255 stops behind its end. */
  lemma {:induction false} NumberOfShort(list: seq<Rr>, t: nat)
    requires |list| < 255
    ensures Skipped(list, Number(list, t)) == Skipped(list, t) && Number(list, t) <= |list| + 1
  {
    if t > 0 {
      NumberOfShort(list, t - 1);
    }
  }

  /** The number of a longer list begins again at 0. */
  lemma {:induction false} NumberOfLong(list: seq<Rr>, t: nat)
    requires |list| >= 255
    ensures Number(list, t) == t % 256
  {
    if t > 0 {
      NumberOfLong(list, t - 1);
    }
  }

  /** Which calls return record k: its own, and one more for each expired record directly before it. */
  lemma ReturnedExactly(list: seq<Rr>, v: View, t: nat, k: nat)
    requires |list| < 255
    ensures Returned(list, v, t) == Some(k) <==>
              t <= k < |list| && Fresh(list[k], v) && forall j | t <= j < k :: !Fresh(list[j], v)
  {
    NumberOfShort(list, t);
    if t <= k < |list| && Fresh(list[k], v) {
      FreshStops(list, t, v, k);
    }
  }

  /** The calls of a list of 255 records or more repeat themselves for ever. */
  lemma {:induction false} LongRepeats(list: seq<Rr>, v: View, t: nat, u: nat)
    requires |list| >= 255 && t % 256 == u % 256
    ensures Returned(list, v, u) == Returned(list, v, t)
  {
    NumberOfLong(list, t);
    NumberOfLong(list, u);
  }

  /** An expired record in front: both calls return the record behind it. */
  lemma ReturnedTwice(expired: Rr, unexpired: Rr, v: View)
    requires !Fresh(expired, v) && Fresh(unexpired, v)
    ensures var list := [expired, unexpired]; Returned(list, v, 0) == Returned(list, v, 1) == Some(1)
  {
    var list := [expired, unexpired];
    ReturnedExactly(list, v, 0, 1);
    ReturnedExactly(list, v, 1, 1);
  }

  /** In a sorted list no record comes after one it must precede. */
  lemma SortedInOrder(list: seq<Rr>, v: View, t: nat, u: nat)
    requires |list| < 255 && Sorted(list) && t < u
    requires Returned(list, v, t).Some? && Returned(list, v, u).Some?
    ensures var j, k := Returned(list, v, t).value, Returned(list, v, u).value;
            j <= k < |list| && (j < k ==> !Precedes(list[k], list[j]))
  {
    var j, k := Returned(list, v, t).value, Returned(list, v, u).value;
    ReturnedExactly(list, v, t, j);
    ReturnedExactly(list, v, u, k);
    NumberOfShort(list, t);
    FreshStops(list, t, v, k);
  }

  lemma ShortInOrder(list: seq<Rr>, v: View)
    requires |list| < 255 && ExpiredLast(list, v)
    ensures EachOnce(list, v)
  {
    forall t: nat, k: nat
      ensures Returned(list, v, t) == Some(k) <==> t == k < |list| && Fresh(list[k], v)
    {
      ReturnedExactly(list, v, t, k);
      if t < k < |list| && Fresh(list[k], v) {
        assert Fresh(list[t], v);
      }
    }
    forall k: nat | k < |list| && Fresh(list[k], v)
      ensures exists t: nat :: Returned(list, v, t) == Some(k)
    {
      assert Returned(list, v, k) == Some(k);
    }
    forall t: nat, u: nat | t < u && Returned(list, v, t).None?
      ensures Returned(list, v, u).None?
    {
      assert Returned(list, v, t) != Some(t);
    }
  }

  lemma OutOfOrder(list: seq<Rr>, v: View, j: nat, k: nat)
    requires |list| < 255 && j < k < |list| && !Fresh(list[j], v) && Fresh(list[k], v)
    ensures !EachOnce(list, v)
  {
    var n := FirstFresh(list, j, v);
    FreshStops(list, j, v, k);
    ReturnedExactly(list, v, j, n);
    ReturnedExactly(list, v, j + 1, n);
  }

  lemma LongNotOnce(list: seq<Rr>, v: View)
    requires |list| >= 255 && !AllExpired(list, v)
    ensures !EachOnce(list, v)
  {
    var n := FirstFresh(list, 0, v);
    var k :| 0 <= k < |list| && Fresh(list[k], v);
    FreshStops(list, 0, v, k);
    var t: nat, u: nat := 0, 256;
    LongRepeats(list, v, t, u);
    assert Returned(list, v, 0) == Some(n);
  }

  /** Exactly when the plain traversal returns each unexpired record once and then nothing, for ever. */
  lemma EachOnceExactly(list: seq<Rr>, v: View)
    ensures EachOnce(list, v) <==> AllExpired(list, v) || (ExpiredLast(list, v) && |list| < 255)
  {
    if AllExpired(list, v) {
    } else if |list| >= 255 {
      LongNotOnce(list, v);
    } else if ExpiredLast(list, v) {
      ShortInOrder(list, v);
    } else {
      var j: nat, k: nat :| j < k < |list| && Fresh(list[k], v) && !Fresh(list[j], v);
      OutOfOrder(list, v, j, k);
    }
  }
}
