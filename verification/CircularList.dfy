/**
  The intrusive circular lists of clist.h on real `next` and `prev` pointers.

  A list is a head and the elements met when following `next` from it.  The macros that insert,
  append or remove a sublist {s, e} rewire four pointers; here each of them is shown to perform
  the corresponding operation on the sequence of elements.
 */
module CircularList {

  class Link {
    var next: Link
    var prev: Link

    /** `clist_init` */
    constructor ()
      ensures Ring(this, [])
    {
      next := this;
      prev := this;
    }
  }

  /** The nodes in `next` order, with the head at both ends. */
  ghost function Circle(head: Link, elems: seq<Link>): seq<Link> {
    [head] + elems + [head]
  }

  ghost predicate Distinct(s: seq<Link>) {
    forall i, j | 0 <= i < j < |s| :: s[i] != s[j]
  }

  /** Neighbours point at each other. */
  ghost predicate Linked(s: seq<Link>)
    reads s
  {
    forall i | 0 <= i < |s| - 1 :: s[i].next == s[i + 1] && s[i + 1].prev == s[i]
  }

  ghost predicate Ring(head: Link, elems: seq<Link>)
    reads head, elems
  {
    Distinct([head] + elems) && Linked(Circle(head, elems))
  }

  /** A chain of nodes with ends s and e that can be put into a list. */
  ghost predicate Chain(s: Link, sub: seq<Link>, e: Link)
    reads sub
  {
    |sub| > 0 && s == sub[0] && e == sub[|sub| - 1] && Distinct(sub) && Linked(sub)
  }

  lemma DistinctConcat(s: seq<Link>, t: seq<Link>)
    requires Distinct(s) && Distinct(t) && forall x | x in t :: x !in s
    ensures Distinct(s + t)
  {
    forall i, j | 0 <= i < j < |s + t|
      ensures (s + t)[i] != (s + t)[j]
    {
      if i < |s| <= j {
        assert (s + t)[i] in s && (s + t)[j] in t;
      }
    }
  }

  /** `clist_append_sublist` */
  method AppendSublist(head: Link, ghost elems: seq<Link>, s: Link, e: Link, ghost sub: seq<Link>)
    requires Ring(head, elems) && Chain(s, sub, e)
    requires forall x | x in sub :: x !in [head] + elems
    modifies head, head.prev, s, e
    ensures Ring(head, elems + sub)
  {
    ghost var n, before, after := |elems|, Circle(head, elems), Circle(head, elems + sub);
    assert before[n].next == before[n + 1] && before[n] in [head] + elems;
    assert head !in sub && before[n] !in sub && s in sub && e in sub;
    s.prev := head.prev;
    e.next := head;
    s.prev.next := s;
    head.prev := e;
    DistinctConcat([head] + elems, sub);
    assert [head] + (elems + sub) == [head] + elems + sub;
    forall i | 0 <= i < |after| - 1
      ensures after[i].next == after[i + 1] && after[i + 1].prev == after[i]
    {
      if i < n {
        assert after[i] == before[i] == ([head] + elems)[i] && after[i + 1] == before[i + 1] == ([head] + elems)[i + 1];
      } else if n < i < n + |sub| {
        assert after[i] == sub[i - n - 1] && after[i + 1] == sub[i - n];
      }
    }
  }

  /** `clist_insert_sublist` */
  method InsertSublist(head: Link, ghost elems: seq<Link>, s: Link, e: Link, ghost sub: seq<Link>)
    requires Ring(head, elems) && Chain(s, sub, e)
    requires forall x | x in sub :: x !in [head] + elems
    modifies head, head.next, s, e
    ensures Ring(head, sub + elems)
  {
    ghost var m, before, after := |sub|, Circle(head, elems), Circle(head, sub + elems);
    assert before[0].next == before[1] && (before[1] in [head] + elems) && elems == ([head] + elems)[1..];
    assert head !in sub && before[1] !in sub && s in sub && e in sub;
    s.prev := head;
    e.next := head.next;
    e.next.prev := e;
    head.next := s;
    DistinctConcat([head], sub);
    DistinctConcat([head] + sub, elems);
    assert [head] + (sub + elems) == [head] + sub + elems;
    forall i | 0 <= i < |after| - 1
      ensures after[i].next == after[i + 1] && after[i + 1].prev == after[i]
    {
      if 0 < i < m {
        assert after[i] == sub[i - 1] && after[i + 1] == sub[i];
      } else if m < i {
        assert after[i] == before[i - m] == ([head] + elems)[i - m] && after[i + 1] == before[i - m + 1];
      }
    }
  }

  /** `clist_rm_sublist` for the elements at lo up to hi. */
  method RemoveSublist(head: Link, ghost elems: seq<Link>, s: Link, e: Link, ghost lo: nat, ghost hi: nat)
    requires Ring(head, elems) && lo < hi <= |elems| && s == elems[lo] && e == elems[hi - 1]
    modifies s.prev, e.next
    ensures Ring(head, elems[..lo] + elems[hi..])
  {
    ghost var before, after := Circle(head, elems), Circle(head, elems[..lo] + elems[hi..]);
    ghost var all := [head] + elems;
    assert before[lo].next == before[lo + 1] == s && before[hi].next == before[hi + 1] && before[hi] == e;
    s.prev.next := e.next;
    e.next.prev := s.prev;
    assert forall i | 0 <= i <= lo :: ([head] + (elems[..lo] + elems[hi..]))[i] == all[i];
    assert forall i | lo < i < |after| - 1 :: ([head] + (elems[..lo] + elems[hi..]))[i] == all[i + hi - lo];
    forall i | 0 <= i < |after| - 1
      ensures after[i].next == after[i + 1] && after[i + 1].prev == after[i]
    {
      if i < lo {
        assert after[i] == before[i] == all[i] && after[i + 1] == before[i + 1] == all[i + 1];
      } else if i > lo {
        assert after[i] == before[i + hi - lo] == all[i + hi - lo] && after[i + 1] == before[i + hi - lo + 1];
      }
    }
  }

  ghost function Without(elems: seq<Link>, doomed: set<Link>): (kept: seq<Link>)
    ensures forall x | x in kept :: x in elems && x !in doomed
  {
    if elems == [] then []
    else Without(elems[..|elems| - 1], doomed)
         + (if elems[|elems| - 1] in doomed then [] else [elems[|elems| - 1]])
  }

  lemma WithoutSnoc(elems: seq<Link>, x: Link, doomed: set<Link>)
    ensures Without(elems + [x], doomed) == if x in doomed then Without(elems, doomed) else Without(elems, doomed) + [x]
  {
    assert (elems + [x])[..|elems|] == elems;
  }

  lemma Follow(head: Link, elems: seq<Link>, i: nat)
    requires Ring(head, elems) && i <= |elems|
    ensures Circle(head, elems)[i].next == (elems + [head])[i] && Circle(head, elems)[i + 1] == (elems + [head])[i]
    ensures (elems + [head])[i].prev == Circle(head, elems)[i]
  {
    var c := Circle(head, elems);
    assert c[i].next == c[i + 1] && c[i + 1].prev == c[i];
  }

  /** The loop body: remove the current node and destroy its links, as the cache does, or keep it. */
  method Visit(head: Link, ghost kept: seq<Link>, ghost rest: seq<Link>, v: Link, doomed: bool, ghost nodes: set<Link>)
    requires Ring(head, kept + rest) && rest != [] && v == rest[0]
    requires forall x | x in kept + rest :: x in nodes
    modifies head, nodes
    ensures Ring(head, (if doomed then kept else kept + [v]) + rest[1..])
    ensures old(v.next) == (rest[1..] + [head])[0]
  {
    ghost var now := kept + rest;
    Follow(head, now, |kept| + 1);
    if doomed {
      Follow(head, now, |kept|);
      assert v.prev == Circle(head, now)[|kept|] && v.next == (now + [head])[|kept| + 1];
      RemoveSublist(head, now, v, v, |kept|, |kept| + 1);
      assert now[..|kept|] + now[|kept| + 1..] == kept + rest[1..];
      assert v !in [head] + (kept + rest[1..]) by {
        assert ([head] + now)[|kept| + 1] == v;
        assert [head] + (kept + rest[1..]) == ([head] + now)[..|kept| + 1] + ([head] + now)[|kept| + 2..];
      }
      v.next, v.prev := v, v;
    } else {
      assert now == kept + [v] + rest[1..];
    }
  }

  /** What is linked after the first k elements have been visited. */
  ghost function Progress(elems: seq<Link>, k: nat, doomed: set<Link>): seq<Link>
    requires k <= |elems|
  {
    Without(elems[..k], doomed) + elems[k..]
  }

  method Turn(head: Link, ghost elems: seq<Link>, ghost k: nat, v: Link, doomed: set<Link>)
    requires k < |elems| && v == elems[k] && Ring(head, Progress(elems, k, doomed))
    modifies head, elems
    ensures Ring(head, Progress(elems, k + 1, doomed))
    ensures old(v.next) == (elems + [head])[k + 1]
  {
    ghost var kept, rest := Without(elems[..k], doomed), elems[k..];
    ghost var nodes := set x | x in elems;
    WithoutSnoc(elems[..k], v, doomed);
    assert elems[..k + 1] == elems[..k] + [v] && rest[1..] == elems[k + 1..];
    Visit(head, kept, rest, v, v in doomed, nodes);
    assert (elems[k + 1..] + [head])[0] == (elems + [head])[k + 1];
  }

  /**
    `clist_foreach_safe` around a body that removes the current node and destroys its links:
    the saved successor makes the loop visit every element once and in order, and what stays
    is the list of the others.
   */
  method ForeachSafe(head: Link, ghost elems: seq<Link>, doomed: set<Link>) returns (visited: seq<Link>)
    requires Ring(head, elems)
    modifies head, elems
    ensures visited == elems
    ensures Ring(head, Without(elems, doomed))
  {
    assert head !in elems by {
      assert forall i | 0 <= i < |elems| :: ([head] + elems)[i + 1] == elems[i] != ([head] + elems)[0];
    }
    Follow(head, elems, 0);
    assert Progress(elems, 0, doomed) == elems;
    ghost var k := 0;
    visited := [];
    var v := head.next;
    var bak := v.next;
    while v != head
      invariant k <= |elems| && visited == elems[..k]
      invariant Ring(head, Progress(elems, k, doomed))
      invariant v == (elems + [head])[k] && bak == v.next
      decreases |elems| - k
    {
      Turn(head, elems, k, v, doomed);
      visited := visited + [v];
      k := k + 1;
      v := bak;
      bak := v.next;
    }
    assert elems[..k] == elems && Progress(elems, k, doomed) == Without(elems, doomed);
  }

  /** `clist_rm` followed by `clist_append`, the way an entry moves to the end of the last-used list. */
  method MoveToEnd(head: Link, ghost elems: seq<Link>, c: Link, ghost k: nat)
    requires Ring(head, elems) && k < |elems| && c == elems[k]
    modifies head, elems
    ensures Ring(head, elems[..k] + elems[k + 1..] + [c])
  {
    Follow(head, elems, k);
    Follow(head, elems, k + 1);
    ghost var rest := elems[..k] + elems[k + 1..];
    RemoveSublist(head, elems, c, c, k, k + 1);
    assert c !in [head] + rest by {
      assert [head] + rest == ([head] + elems)[..k + 1] + ([head] + elems)[k + 2..] && ([head] + elems)[k + 1] == c;
    }
    Follow(head, rest, |rest|);
    assert rest + [head] + [] == rest + [head];
    AppendSublist(head, rest, c, c, [c]);
  }
}
