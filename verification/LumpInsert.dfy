/**
  Insertions into a lump list, and the whole life of a copy: it is made, lumps are inserted into
  it, and it is freed.  Afterwards memory is what it was, so that the original can be freed in
  full, exactly if no lump has been inserted in one direction at a lump of a side list of the
  other: such a lump is on no list that is ever walked, and stays behind.
 */
module LumpInsert {
  import opened Sequences
  import opened LumpHeap
  import opened LumpOwnership

  // ----- Into the list itself -----

  function TopsWith(tops: seq<Top>, k: nat, p: Ptr): seq<Top>
    requires k <= |tops|
  {
    tops[..k] + [Top(p, [], [])] + tops[k..]
  }

  lemma {:induction false} TopsWithAll(tops: seq<Top>, k: nat, p: Ptr)
    requires k <= |tops| && Separate(tops) && p !in All(tops)
    ensures Separate(TopsWith(tops, k, p)) && All(TopsWith(tops, k, p)) == All(tops) + {p}
  {
    var r := TopsWith(tops, k, p);
    if k == 0 {
      assert r[1..] == tops;
      assert Family(r[0]) == {p};
    } else {
      assert r[0] == tops[0] && r[1..] == TopsWith(tops[1..], k - 1, p);
      TopsWithAll(tops[1..], k - 1, p);
    }
  }

  /** The memory after lump p, like n, has been linked behind prev (in front of the list if prev is 0). */
  function LinkedTop(m: Heap, l: Ptr, prev: Ptr, p: Ptr, n: Lump): Heap
    requires prev != 0 ==> prev in m
  {
    if prev == 0 then m[p := n.(next := l)]
    else m[p := n.(next := m[prev].next)][prev := m[prev].(next := p)]
  }

  /** A lump whose side lists are as they were, in front of a list. */
  lemma InFront(m: Heap, m': Heap, t: Top, rest: seq<Top>)
    requires t.p != 0 && t.p in m && t.p in m' && Family(t) <= m.Keys && Separate([t])
    requires Chain(m, m[t.p].before, t.before, Before) && Chain(m, m[t.p].after, t.after, After)
    requires m'[t.p].before == m[t.p].before && m'[t.p].after == m[t.p].after
    requires forall x | x in Family(t) && x != t.p :: x in m' && m'[x] == m[x]
    requires Segment(m', m'[t.p].next, rest, 0)
    ensures Segment(m', t.p, [t] + rest, 0)
  {
    SidesKept(m, m', t);
    assert ([t] + rest)[1..] == rest;
  }

  /** Behind the first lump of a list. */
  lemma InsertedSecond(m: Heap, l: Ptr, tops: seq<Top>, p: Ptr, n: Lump)
    requires Segment(m, l, tops, 0) && Separate(tops) && tops != [] && p !in m && p != 0 && Bare(n) == n
    ensures l in m && Segment(LinkedTop(m, l, l, p, n), l, TopsWith(tops, 1, p), 0)
  {
    SegmentAllocated(m, l, tops, 0);
    var m', rest, inserted := LinkedTop(m, l, l, p, n), tops[1..], Top(p, [], []);
    SegmentFrame(m, m', m[l].next, rest, 0);
    assert ([inserted] + rest)[1..] == rest;
    assert Segment(m', p, [inserted] + rest, 0);
    InFront(m, m', tops[0], [inserted] + rest);
    assert TopsWith(tops, 1, p) == [tops[0]] + ([inserted] + rest);
  }

  lemma {:induction false} TopInserted(m: Heap, l: Ptr, tops: seq<Top>, k: nat, p: Ptr, n: Lump)
    requires Segment(m, l, tops, 0) && Separate(tops) && k <= |tops| && p !in m && p != 0 && Bare(n) == n
    ensures var prev := if k == 0 then 0 else tops[k - 1].p;
            && (k == 0 || prev in m)
            && Segment(LinkedTop(m, l, prev, p, n), if k == 0 then p else l, TopsWith(tops, k, p), 0)
    decreases k
  {
    SegmentAllocated(m, l, tops, 0);
    if k == 0 {
      assert TopsWith(tops, k, p)[1..] == tops;
      SegmentFrame(m, LinkedTop(m, l, 0, p, n), l, tops, 0);
    } else if k == 1 {
      InsertedSecond(m, l, tops, p, n);
    } else {
      var t, rest := tops[0], tops[1..];
      TopInserted(m, m[l].next, rest, k - 1, p, n);
      FamilyInAll(rest, k - 2);
      InFront(m, LinkedTop(m, l, rest[k - 2].p, p, n), t, TopsWith(rest, k - 1, p));
      assert TopsWith(tops, k, p) == [t] + TopsWith(rest, k - 1, p);
    }
  }

  // ----- Into a side list -----

  function SideWith(ps: seq<Ptr>, j: nat, p: Ptr): seq<Ptr>
    requires j <= |ps|
  {
    ps[..j] + [p] + ps[j..]
  }

  /** The lump behind which position j of a side list is: the lump it belongs to, or the one before on the list. */
  function Holder(t: Top, dir: Dir, j: nat): Ptr
    requires j <= |Side(t, dir)|
  {
    if j == 0 then t.p else Side(t, dir)[j - 1]
  }

  /** The memory after lump p, like n, has been linked to the side list of x. */
  function LinkedSide(m: Heap, x: Ptr, dir: Dir, p: Ptr, n: Lump): Heap
    requires x in m
  {
    m[p := Linked(n, dir, Along(m[x], dir))][x := Linked(m[x], dir, p)]
  }

  lemma {:induction false} DistinctWith(ps: seq<Ptr>, j: nat, p: Ptr)
    requires j <= |ps| && Distinct(ps) && p !in ps
    ensures Distinct(SideWith(ps, j, p)) && Of(SideWith(ps, j, p)) == Of(ps) + {p}
  {
    var r := SideWith(ps, j, p);
    if j == 0 {
      assert r[1..] == ps;
    } else {
      assert r[0] == ps[0] && r[1..] == SideWith(ps[1..], j - 1, p);
      DistinctWith(ps[1..], j - 1, p);
    }
  }

  lemma {:induction false} ChainInserted(m: Heap, r: Ptr, ps: seq<Ptr>, dir: Dir, j: nat, p: Ptr, n: Lump)
    requires Chain(m, r, ps, dir) && Distinct(ps) && 0 < j <= |ps| && p !in m && p != 0 && Bare(n) == n
    ensures ps[j - 1] in m && Chain(LinkedSide(m, ps[j - 1], dir, p, n), r, SideWith(ps, j, p), dir)
    decreases j
  {
    ChainAllocated(m, r, ps, dir);
    var m' := LinkedSide(m, ps[j - 1], dir, p, n);
    var qs, next := SideWith(ps, j, p), Along(m[r], dir);
    if j == 1 {
      ChainFrame(m, m', next, ps[1..], dir);
      assert qs[1..] == [p] + ps[1..] && qs[1..][1..] == ps[1..];
      assert Chain(m', p, qs[1..], dir);
    } else {
      assert qs[1..] == SideWith(ps[1..], j - 1, p);
      ChainInserted(m, next, ps[1..], dir, j - 1, p, n);
    }
  }

  /** Both side lists of a lump after an insertion into one of them. */
  lemma SidesInserted(m: Heap, t: Top, dir: Dir, j: nat, p: Ptr, n: Lump)
    requires t.p in m && Chain(m, m[t.p].before, t.before, Before) && Chain(m, m[t.p].after, t.after, After)
             && Separate([t])
    requires j <= |Side(t, dir)| && p !in m && p != 0 && Bare(n) == n
    ensures Holder(t, dir, j) in m
    ensures var m', t' := LinkedSide(m, Holder(t, dir, j), dir, p, n), WithSide(t, dir, SideWith(Side(t, dir), j, p));
            && m'[t.p].next == m[t.p].next
            && Chain(m', m'[t.p].before, t'.before, Before) && Chain(m', m'[t.p].after, t'.after, After)
  {
    ChainAllocated(m, m[t.p].before, t.before, Before);
    ChainAllocated(m, m[t.p].after, t.after, After);
    var x, ps, other := Holder(t, dir, j), Side(t, dir), if dir.Before? then After else Before;
    var m' := LinkedSide(m, x, dir, p, n);
    ChainFrame(m, m', Along(m[t.p], other), Side(t, other), other);
    if j == 0 {
      ChainFrame(m, m', Along(m[t.p], dir), ps, dir);
      assert SideWith(ps, 0, p)[1..] == ps;
    } else {
      ChainInserted(m, Along(m[t.p], dir), ps, dir, j, p, n);
    }
  }

  function TopsSide(tops: seq<Top>, k: nat, dir: Dir, j: nat, p: Ptr): seq<Top>
    requires k < |tops| && j <= |Side(tops[k], dir)|
  {
    tops[k := WithSide(tops[k], dir, SideWith(Side(tops[k], dir), j, p))]
  }

  lemma {:induction false} TopsSideAll(tops: seq<Top>, k: nat, dir: Dir, j: nat, p: Ptr)
    requires k < |tops| && j <= |Side(tops[k], dir)| && Separate(tops) && p !in All(tops)
    ensures Separate(TopsSide(tops, k, dir, j, p)) && All(TopsSide(tops, k, dir, j, p)) == All(tops) + {p}
  {
    var r := TopsSide(tops, k, dir, j, p);
    if k == 0 {
      assert r[1..] == tops[1..];
      DistinctWith(Side(tops[0], dir), j, p);
    } else {
      assert r[0] == tops[0] && r[1..] == TopsSide(tops[1..], k - 1, dir, j, p);
      TopsSideAll(tops[1..], k - 1, dir, j, p);
    }
  }

  lemma {:induction false} SideInserted(m: Heap, l: Ptr, tops: seq<Top>, k: nat, dir: Dir, j: nat, p: Ptr, n: Lump)
    requires Segment(m, l, tops, 0) && Separate(tops) && k < |tops| && j <= |Side(tops[k], dir)|
    requires p !in m && p != 0 && Bare(n) == n
    ensures var x := Holder(tops[k], dir, j);
            x in m && x in All(tops) && Segment(LinkedSide(m, x, dir, p, n), l, TopsSide(tops, k, dir, j, p), 0)
    decreases k
  {
    SegmentAllocated(m, l, tops, 0);
    var t, rest := tops[0], tops[1..];
    if k == 0 {
      SideInsertedFirst(m, l, tops, dir, j, p, n);
    } else {
      SideInserted(m, m[l].next, rest, k - 1, dir, j, p, n);
      InFront(m, LinkedSide(m, Holder(rest[k - 1], dir, j), dir, p, n), t, TopsSide(rest, k - 1, dir, j, p));
      assert TopsSide(tops, k, dir, j, p) == [t] + TopsSide(rest, k - 1, dir, j, p);
    }
  }

  /** Into a side list of the first lump. */
  lemma SideInsertedFirst(m: Heap, l: Ptr, tops: seq<Top>, dir: Dir, j: nat, p: Ptr, n: Lump)
    requires Segment(m, l, tops, 0) && Separate(tops) && tops != [] && j <= |Side(tops[0], dir)|
    requires p !in m && p != 0 && Bare(n) == n
    ensures var x := Holder(tops[0], dir, j);
            x in m && x in All(tops) && Segment(LinkedSide(m, x, dir, p, n), l, TopsSide(tops, 0, dir, j, p), 0)
  {
    SegmentAllocated(m, l, tops, 0);
    SidesInserted(m, tops[0], dir, j, p, n);
    assert TopsSide(tops, 0, dir, j, p)[1..] == tops[1..];
    HolderInAll(tops, 0, dir, j);
    SegmentFrame(m, LinkedSide(m, Holder(tops[0], dir, j), dir, p, n), m[l].next, tops[1..], 0);
  }

  // ----- The life of a copy -----

  /** The lumps of s own distinct texts, and the other texts are tb. */
  ghost predicate Owned(m: Heap, texts: set<Ptr>, s: set<Ptr>, tb: set<Ptr>) {
    Owning(m, texts, s) && texts - Texts(m, s) == tb
  }

  /** The list l, tops is all that memory has more than base, and its own texts all there are beside tb. */
  ghost predicate Balance(m: Heap, texts: set<Ptr>, l: Ptr, tops: seq<Top>, base: Heap, tb: set<Ptr>) {
    && Segment(m, l, tops, 0) && Separate(tops)
    && Grown(base, m, All(tops)) && Owned(m, texts, All(tops), tb)
    && forall p | p in All(tops) && p in m :: Freeable(m[p], Sparing)
  }

  ghost predicate Balanced(h: Pool, l: Ptr, tops: seq<Top>, base: Heap, tb: set<Ptr>)
    reads h
  {
    h.Valid() && Balance(h.lumps, h.texts, l, tops, base, tb)
  }

  /** A lump as the insertions make it: no links, no flags. */
  predicate IsNew(n: Lump) {
    n.before == 0 && n.after == 0 && n.next == 0 && n.flag.NoFlag?
  }

  /** The text of a lump inserted passes from the caller to the list. */
  lemma OwnedMore(m: Heap, m': Heap, texts: set<Ptr>, s: set<Ptr>, p: Ptr, tb: set<Ptr>)
    requires s <= m.Keys && p !in m && p in m' && Text(m'[p]) !! tb
    requires forall q | q in s :: q in m' && Text(m'[q]) == Text(m[q])
    requires Owned(m, texts, s, tb + Text(m'[p]))
    ensures Owned(m', texts, s + {p}, tb)
  {
    assert Texts(m', s + {p}) == Texts(m, s) + Text(m'[p]);
    forall q | q in s
      ensures Text(m'[q]) !! Text(m'[p])
    {
      assert Text(m[q]) <= Texts(m, s);
    }
  }

  /** m' is m with a lump p more, like n, and with other links in the lumps of s. */
  ghost predicate Relinked(m: Heap, m': Heap, s: set<Ptr>, p: Ptr, n: Lump) {
    && m'.Keys == m.Keys + {p} && Same(m, m', m.Keys - s) && Bare(m'[p]) == n
    && forall q | q in s && q in m :: Bare(m'[q]) == Bare(m[q])
  }

  /** After a new lump has been linked the list still is all that is new. */
  lemma LinkKeepsBalance(m: Heap, m': Heap, texts: set<Ptr>, s: set<Ptr>, p: Ptr, n: Lump, base: Heap, tb: set<Ptr>)
    requires s <= m.Keys && p !in m && IsNew(n) && Relinked(m, m', s, p, n)
    requires Grown(base, m, s) && Text(n) !! tb && Owned(m, texts, s, tb + Text(n))
    requires forall q | q in s && q in m :: Freeable(m[q], Sparing)
    ensures Grown(base, m', s + {p}) && Owned(m', texts, s + {p}, tb)
    ensures forall q | q in s + {p} && q in m' :: Freeable(m'[q], Sparing)
  {
    GrownKeeps(base, m, s);
    assert m' - (s + {p}) == m - s;
    forall q | q in s
      ensures q in m' && Text(m'[q]) == Text(m[q]) && Freeable(m'[q], Sparing)
    {
      assert Bare(m'[q]) == Bare(m[q]);
    }
    OwnedMore(m, m', texts, s, p, tb);
  }

  lemma TopBalance(m: Heap, texts: set<Ptr>, l: Ptr, tops: seq<Top>, k: nat, p: Ptr, n: Lump, base: Heap, tb: set<Ptr>)
    requires Balance(m, texts, l, tops, base, tb + Text(n)) && IsNew(n) && Text(n) !! tb && p !in m && p != 0
             && k <= |tops|
    ensures var prev := if k == 0 then 0 else tops[k - 1].p;
            && (k == 0 || prev in m)
            && Balance(LinkedTop(m, l, prev, p, n), texts, if k == 0 then p else l, TopsWith(tops, k, p), base, tb)
  {
    var prev := if k == 0 then 0 else tops[k - 1].p;
    SegmentAllocated(m, l, tops, 0);
    TopInserted(m, l, tops, k, p, n);
    TopsWithAll(tops, k, p);
    RelinkedTop(m, l, prev, p, n, All(tops)) by {
      if k > 0 {
        FamilyInAll(tops, k - 1);
      }
    }
    LinkKeepsBalance(m, LinkedTop(m, l, prev, p, n), texts, All(tops), p, n, base, tb);
  }

  lemma RelinkedTop(m: Heap, l: Ptr, prev: Ptr, p: Ptr, n: Lump, s: set<Ptr>)
    requires p !in m && IsNew(n) && (prev == 0 || (prev in m && prev in s))
    ensures Relinked(m, LinkedTop(m, l, prev, p, n), s, p, n)
  {}

  lemma RelinkedSide(m: Heap, x: Ptr, dir: Dir, p: Ptr, n: Lump, s: set<Ptr>)
    requires p !in m && IsNew(n) && x in m && x in s
    ensures Relinked(m, LinkedSide(m, x, dir, p, n), s, p, n)
  {}

  lemma SideBalance(m: Heap, texts: set<Ptr>, l: Ptr, tops: seq<Top>, k: nat, dir: Dir, j: nat, p: Ptr, n: Lump,
                    base: Heap, tb: set<Ptr>)
    requires Balance(m, texts, l, tops, base, tb + Text(n)) && IsNew(n) && Text(n) !! tb && p !in m && p != 0
    requires k < |tops| && j <= |Side(tops[k], dir)|
    ensures var x := Holder(tops[k], dir, j);
            x in m && Balance(LinkedSide(m, x, dir, p, n), texts, l, TopsSide(tops, k, dir, j, p), base, tb)
  {
    var x := Holder(tops[k], dir, j);
    SegmentAllocated(m, l, tops, 0);
    SideInserted(m, l, tops, k, dir, j, p, n);
    TopsSideAll(tops, k, dir, j, p);
    RelinkedSide(m, x, dir, p, n, All(tops));
    LinkKeepsBalance(m, LinkedSide(m, x, dir, p, n), texts, All(tops), p, n, base, tb);
  }

  /**
    A lump is linked into the list, behind prev: the end of `append_new_lump`, `add_new_lump`,
    `insert_new_lump`, `del_lump`, `anchor_lump` and `anchor_lump2`.  Without memory nothing changes.
   */
  method InsertTop(h: Pool, l: Ptr, prev: Ptr, n: Lump, ghost tops: seq<Top>, ghost k: nat, ghost base: Heap,
                   ghost tb: set<Ptr>)
    returns (p: Ptr, l': Ptr)
    requires IsNew(n) && Text(n) !! tb && Balanced(h, l, tops, base, tb + Text(n))
    requires k <= |tops| && prev == if k == 0 then 0 else tops[k - 1].p
    modifies h`lumps, h`top
    ensures if p == 0 then l' == l && Balanced(h, l, tops, base, tb + Text(n))
            else Balanced(h, l', TopsWith(tops, k, p), base, tb)
    ensures p != 0 ==> p in h.lumps && Bare(h.lumps[p]) == n
  {
    ghost var m := h.lumps;
    HolderAllocated(m, l, tops, k);
    p := h.NewLump(n.(next := if prev == 0 then l else h.lumps[prev].next));
    if p == 0 {
      return p, l;
    }
    TopBalance(m, h.texts, l, tops, k, p, n, base, tb);
    l' := if prev == 0 then p else l;
    if prev != 0 {
      h.Store(prev, h.lumps[prev].(next := p));
    }
  }

  lemma HolderAllocated(m: Heap, l: Ptr, tops: seq<Top>, k: nat)
    requires Segment(m, l, tops, 0) && k <= |tops|
    ensures k > 0 ==> tops[k - 1].p in m && tops[k - 1].p != 0
  {
    SegmentAllocated(m, l, tops, 0);
    if k > 0 {
      FamilyInAll(tops, k - 1);
    }
  }

  lemma HolderInAll(tops: seq<Top>, k: nat, dir: Dir, j: nat)
    requires k < |tops| && j <= |Side(tops[k], dir)|
    ensures Holder(tops[k], dir, j) in All(tops)
  {
    FamilyInAll(tops, k);
  }

  /** A new copy owns no text. */
  method Dup(h: Pool, l: Ptr, ghost tops: seq<Top>) returns (q: Ptr, error: bool, ghost copy: seq<Top>)
    requires h.Valid() && Segment(h.lumps, l, tops, 0)
    modifies h`lumps, h`texts, h`top
    ensures if error then h.Valid() && h.lumps == old(h.lumps) && h.texts == old(h.texts)
            else Balanced(h, q, copy, old(h.lumps), old(h.texts)) && ListCopied(old(h.lumps), tops, h.lumps, q, copy)
  {
    q, error, copy := DupList(h, l, tops);
    if !error {
      assert Texts(h.lumps, All(copy)) == {};
    }
  }

  /**
    `free_duped_lump_list` and `free_lump_list`: memory is what it was without the list, whatever
    has been inserted since.
   */
  method FreeBalanced(h: Pool, l: Ptr, mode: Mode, ghost tops: seq<Top>, ghost base: Heap, ghost tb: set<Ptr>)
    requires Balanced(h, l, tops, base, tb) && forall p | p in All(tops) && p in h.lumps :: Freeable(h.lumps[p], mode)
    modifies h`lumps, h`texts
    ensures h.Valid() && h.lumps == base && h.texts == tb
  {
    SegmentAllocated(h.lumps, l, tops, 0);
    FreeList(h, l, mode, tops);
  }

  // ----- At any lump, in any direction -----

  /** x is a lump of the list, or of a side list of this direction. */
  ghost predicate Holds(tops: seq<Top>, x: Ptr, dir: Dir) {
    tops != [] && (x == tops[0].p || x in Side(tops[0], dir) || Holds(tops[1..], x, dir))
  }

  lemma {:induction false} HoldsAt(tops: seq<Top>, k: nat, dir: Dir, j: nat)
    requires k < |tops| && j <= |Side(tops[k], dir)|
    ensures Holds(tops, Holder(tops[k], dir, j), dir)
  {
    if k > 0 {
      HoldsAt(tops[1..], k - 1, dir, j);
    }
  }

  lemma {:induction false} FindHolder(tops: seq<Top>, x: Ptr, dir: Dir) returns (k: nat, j: nat)
    requires Holds(tops, x, dir)
    ensures k < |tops| && j <= |Side(tops[k], dir)| && x == Holder(tops[k], dir, j)
  {
    var ps := Side(tops[0], dir);
    if x == tops[0].p {
      k, j := 0, 0;
    } else if x in ps {
      var i :| 0 <= i < |ps| && ps[i] == x;
      k, j := 0, i + 1;
    } else {
      k, j := FindHolder(tops[1..], x, dir);
      k := k + 1;
    }
  }

  lemma {:induction false} HoldsInAll(tops: seq<Top>, x: Ptr, dir: Dir)
    requires Holds(tops, x, dir)
    ensures x in All(tops)
  {
    if x !in Family(tops[0]) {
      HoldsInAll(tops[1..], x, dir);
    }
  }

  /** A lump of a side list is held in the direction of the list only. */
  lemma {:induction false} CrossHeldNot(tops: seq<Top>, k: nat, side: Dir, x: Ptr, dir: Dir)
    requires Separate(tops) && k < |tops| && x in Side(tops[k], side) && dir != side
    ensures !Holds(tops, x, dir)
  {
    if k == 0 {
      assert x in Of(Side(tops[0], side)) && x !in Of(Side(tops[0], dir)) && x != tops[0].p;
      if Holds(tops[1..], x, dir) {
        HoldsInAll(tops[1..], x, dir);
        assert false;
      }
    } else {
      FamilyInAll(tops[1..], k - 1);
      assert x in Family(tops[1..][k - 1]) && x !in Family(tops[0]);
      CrossHeldNot(tops[1..], k - 1, side, x, dir);
    }
  }

  /** A side list is walked as before if the links in its direction are as before. */
  lemma {:induction false} ChainAlong(m: Heap, m': Heap, r: Ptr, ps: seq<Ptr>, dir: Dir)
    requires Chain(m, r, ps, dir)
    requires forall x | x in ps && x in m :: x in m' && Along(m'[x], dir) == Along(m[x], dir)
    ensures Chain(m', r, ps, dir)
    decreases |ps|
  {
    if ps != [] {
      ChainAlong(m, m', Along(m[r], dir), ps[1..], dir);
    }
  }

  /** A lump linked to one that does not hold it is on no list: the list is walked as before. */
  lemma {:induction false} CrossInserted(m: Heap, l: Ptr, tops: seq<Top>, x: Ptr, dir: Dir, p: Ptr, n: Lump)
    requires Segment(m, l, tops, 0) && x in m && !Holds(tops, x, dir) && p !in m
    ensures Segment(LinkedSide(m, x, dir, p, n), l, tops, 0)
    decreases |tops|
  {
    if tops != [] {
      var m', t := LinkedSide(m, x, dir, p, n), tops[0];
      assert x != l && m'[l] == m[l];
      ChainAlong(m, m', m[l].before, t.before, Before);
      ChainAlong(m, m', m[l].after, t.after, After);
      CrossInserted(m, m[l].next, tops[1..], x, dir, p, n);
    }
  }

  /** Other links do not change who owns what. */
  lemma OwnedAsBefore(m: Heap, m': Heap, texts: set<Ptr>, s: set<Ptr>, tb: set<Ptr>)
    requires s <= m.Keys && Owned(m, texts, s, tb)
    requires forall q | q in s :: q in m' && Text(m'[q]) == Text(m[q])
    ensures Owned(m', texts, s, tb)
  {
    assert Texts(m', s) == Texts(m, s);
  }

  /** The lump is new memory around the list. */
  lemma AroundGrows(m: Heap, m': Heap, s: set<Ptr>, base: Heap, x: Ptr, p: Ptr, n: Lump, o: Lump)
    requires Grown(base, m, s) && p !in m && p !in s && x in s && x in m && m' == m[p := n][x := o]
    ensures Grown(base[p := n], m', s)
  {
    GrownKeeps(base, m, s);
    var around: Heap := base[p := n];
    assert m' - s == around;
  }

  /** The new lump then belongs to the memory around the list, and its text to the texts around. */
  lemma CrossBalance(m: Heap, texts: set<Ptr>, l: Ptr, tops: seq<Top>, x: Ptr, dir: Dir, p: Ptr, n: Lump, base: Heap,
                     tb: set<Ptr>)
    requires Balance(m, texts, l, tops, base, tb) && IsNew(n) && p !in m
    requires x in All(tops) && x in m && !Holds(tops, x, dir)
    ensures Balance(LinkedSide(m, x, dir, p, n), texts, l, tops, base[p := Linked(n, dir, Along(m[x], dir))], tb)
  {
    var m', s := LinkedSide(m, x, dir, p, n), All(tops);
    SegmentAllocated(m, l, tops, 0);
    CrossInserted(m, l, tops, x, dir, p, n);
    AroundGrows(m, m', s, base, x, p, Linked(n, dir, Along(m[x], dir)), Linked(m[x], dir, p));
    forall q | q in s
      ensures q in m' && Text(m'[q]) == Text(m[q]) && Freeable(m'[q], Sparing)
    {
      assert q != p;
    }
    OwnedAsBefore(m, m', texts, s, tb);
  }

  /** x is the lump behind which position j of the k-th side list of this direction is. */
  ghost predicate IsHolder(tops: seq<Top>, x: Ptr, dir: Dir, k: nat, j: nat) {
    k < |tops| && j <= |Side(tops[k], dir)| && x == Holder(tops[k], dir, j)
  }

  /**
    `insert_new_lump_after`, `insert_new_lump_before` and their subst and cond forms, at any lump x
    of the list and its side lists.  The lump joins the list, behind x, exactly if x holds in this
    direction.  Without memory nothing changes.
   */
  method InsertAt(h: Pool, l: Ptr, x: Ptr, dir: Dir, n: Lump, ghost tops: seq<Top>, ghost k: nat, ghost j: nat,
                  ghost base: Heap, ghost tb: set<Ptr>)
    returns (p: Ptr, ghost tops': seq<Top>, ghost base': Heap)
    requires IsNew(n) && Text(n) !! tb && Balanced(h, l, tops, base, tb + Text(n)) && x in All(tops)
    requires Holds(tops, x, dir) ==> IsHolder(tops, x, dir, k, j)
    modifies h`lumps, h`top
    ensures Balanced(h, l, tops', base', if p != 0 && Holds(tops, x, dir) then tb else tb + Text(n))
    ensures if p == 0 then h.lumps == old(h.lumps)
            else p !in old(h.lumps) && x in old(h.lumps) && h.lumps == LinkedSide(old(h.lumps), x, dir, p, n)
    ensures tops' == if p != 0 && Holds(tops, x, dir) then TopsSide(tops, k, dir, j, p) else tops
    ensures base' == if p != 0 && !Holds(tops, x, dir) then base[p := h.lumps[p]] else base
  {
    tops', base' := tops, base;
    SegmentAllocated(h.lumps, l, tops, 0);
    ghost var m := h.lumps;
    p := h.NewLump(Linked(n, dir, Along(h.lumps[x], dir)));
    if p == 0 {
      return;
    }
    if Holds(tops, x, dir) {
      SideBalance(m, h.texts, l, tops, k, dir, j, p, n, base, tb);
      tops' := TopsSide(tops, k, dir, j, p);
    } else {
      CrossBalance(m, h.texts, l, tops, x, dir, p, n, base, tb + Text(n));
      base' := base[p := Linked(n, dir, Along(m[x], dir))];
    }
    h.Store(x, Linked(h.lumps[x], dir, p));
  }

  lemma StaysFreeable(m: Heap, x: Ptr, dir: Dir, p: Ptr, n: Lump, mode: Mode, s: set<Ptr>)
    requires x in m && p !in m && IsNew(n) && !mode.Shallow? && forall q | q in s && q in m :: Freeable(m[q], mode)
    ensures var m' := LinkedSide(m, x, dir, p, n); forall q | q in s + {p} && q in m' :: Freeable(m'[q], mode)
  {}

  lemma NotAround(base: Heap, m: Heap, s: set<Ptr>, p: Ptr)
    requires Grown(base, m, s) && p !in m
    ensures p !in base
  {
    GrownKeeps(base, m, s);
  }

  lemma InsertedAll(m: Heap, l: Ptr, tops: seq<Top>, x: Ptr, dir: Dir, k: nat, j: nat, p: Ptr)
    requires Segment(m, l, tops, 0) && Separate(tops) && p !in m
    requires Holds(tops, x, dir) ==> IsHolder(tops, x, dir, k, j)
    ensures Holds(tops, x, dir) ==> All(TopsSide(tops, k, dir, j, p)) == All(tops) + {p}
  {
    SegmentAllocated(m, l, tops, 0);
    if Holds(tops, x, dir) {
      TopsSideAll(tops, k, dir, j, p);
    }
  }

  /**
    An insertion and then the end of the list: memory is what it was without the list exactly if
    x holds in this direction.  If not, exactly the new lump and its text are left.
   */
  method InsertThenFree(h: Pool, l: Ptr, x: Ptr, dir: Dir, n: Lump, mode: Mode, ghost tops: seq<Top>,
                        ghost base: Heap, ghost tb: set<Ptr>)
    returns (p: Ptr)
    requires IsNew(n) && Text(n) !! tb && Balanced(h, l, tops, base, tb + Text(n)) && x in All(tops) && !mode.Shallow?
    requires forall q | q in All(tops) && q in h.lumps :: Freeable(h.lumps[q], mode)
    modifies h`lumps, h`texts, h`top
    ensures p == 0 ==> h.lumps == base && h.texts == tb + Text(n)
    ensures p != 0 ==> (h.lumps == base <==> Holds(tops, x, dir))
    ensures p != 0 ==> p !in base && h.texts == if Holds(tops, x, dir) then tb else tb + Text(n)
    ensures p != 0 && !Holds(tops, x, dir) ==>
              p in h.lumps && Bare(h.lumps[p]) == n && h.lumps == base[p := h.lumps[p]]
  {
    ghost var tops', base';
    ghost var k: nat, j: nat := 0, 0;
    if Holds(tops, x, dir) {
      k, j := FindHolder(tops, x, dir);
    }
    p, tops', base' := InsertAt(h, l, x, dir, n, tops, k, j, base, tb);
    if p != 0 {
      StaysFreeable(old(h.lumps), x, dir, p, n, mode, All(tops));
      InsertedAll(old(h.lumps), l, tops, x, dir, k, j, p);
      NotAround(base, old(h.lumps), All(tops), p);
    }
    FreeBalanced(h, l, mode, tops', base', if p != 0 && Holds(tops, x, dir) then tb else tb + Text(n));
  }

  // ----- The life of an edited copy -----

  /**
    Where an edit puts its lump: into the list behind k lumps; or, at the k-th lump, j steps along
    one of its side lists, and from there in either direction.
   */
  datatype Edit = IntoList(op: Op, k: nat) | AtSide(op: Op, k: nat, side: Dir, j: nat, dir: Dir)

  function Least(a: nat, b: nat): nat {
    if a < b then a else b
  }

  /** The number of lumps in front of the place of an edit: no further than the end of the list. */
  function Place(edit: Edit, tops: seq<Top>): nat {
    Least(edit.k, |tops|)
  }

  /** An edit works at a side list unless it does not name one, or the list is empty. */
  predicate IsAside(edit: Edit, tops: seq<Top>) {
    edit.AtSide? && Place(edit, tops) > 0
  }

  /** The lump at which an edit of a side list inserts: it goes no further than the end of the list. */
  function TargetOf(edit: Edit, tops: seq<Top>): Ptr
    requires IsAside(edit, tops)
  {
    var t := tops[Place(edit, tops) - 1];
    Holder(t, edit.side, Least(edit.j, |Side(t, edit.side)|))
  }

  /** The edit has gone along a side list that is not empty, and inserts in the other direction. */
  predicate Crosses(edit: Edit, tops: seq<Top>) {
    && IsAside(edit, tops) && edit.dir != edit.side && edit.j > 0
    && Side(tops[Place(edit, tops) - 1], edit.side) != []
  }

  /** The place of the new lump in the side list, if the edit does not cross. */
  function Depth(edit: Edit, tops: seq<Top>): (j: nat)
    requires IsAside(edit, tops)
    ensures j <= |Side(tops[Place(edit, tops) - 1], edit.dir)|
  {
    if edit.dir == edit.side then Least(edit.j, |Side(tops[Place(edit, tops) - 1], edit.side)|) else 0
  }

  /** The list after an edit that has made lump p, 0 if there was no memory. */
  function Edited(edit: Edit, tops: seq<Top>, p: Ptr): seq<Top> {
    if p == 0 || Crosses(edit, tops) then tops
    else if IsAside(edit, tops) then TopsSide(tops, Place(edit, tops) - 1, edit.dir, Depth(edit, tops), p)
    else TopsWith(tops, Place(edit, tops), p)
  }

  /** What an edit found and did: the list before it, and the lump it made, 0 if there was no memory. */
  datatype Done = Done(tops: seq<Top>, p: Ptr)

  /** The record of a number of edits of a list: each finds what the one before has left. */
  ghost predicate IsLog(edits: seq<Edit>, tops: seq<Top>, log: seq<Done>, tops': seq<Top>) {
    && |log| <= |edits|
    && (if log == [] then tops' == tops
        else log[0].tops == tops && tops' == Edited(edits[|log| - 1], log[|log| - 1].tops, log[|log| - 1].p))
    && forall i | 0 < i < |log| :: log[i].tops == Edited(edits[i - 1], log[i - 1].tops, log[i - 1].p)
  }

  /** A lump is lost exactly if there was memory for it and its edit crosses. */
  ghost predicate IsLost(edit: Edit, done: Done) {
    done.p != 0 && Crosses(edit, done.tops)
  }

  /** The lumps lost by a number of edits. */
  ghost function LostBy(edits: seq<Edit>, log: seq<Done>): set<Ptr>
    requires |log| <= |edits|
  {
    set i | 0 <= i < |log| && IsLost(edits[i], log[i]) :: log[i].p
  }

  lemma LostByMore(edits: seq<Edit>, log: seq<Done>, done: Done)
    requires |log| < |edits|
    ensures LostBy(edits, log + [done]) == LostBy(edits, log) + if IsLost(edits[|log|], done) then {done.p} else {}
  {
    var log' := log + [done];
    forall p | p in LostBy(edits, log)
      ensures p in LostBy(edits, log')
    {
      var i :| 0 <= i < |log| && IsLost(edits[i], log[i]) && log[i].p == p;
      assert log'[i] == log[i];
    }
    if IsLost(edits[|log|], done) {
      assert log'[|log|] == done;
    }
    forall p | p in LostBy(edits, log')
      ensures p in LostBy(edits, log) || (IsLost(edits[|log|], done) && p == done.p)
    {
      var i :| 0 <= i < |log'| && IsLost(edits[i], log'[i]) && log'[i].p == p;
    }
  }

  lemma LogMore(edits: seq<Edit>, tops: seq<Top>, log: seq<Done>, tops1: seq<Top>, p: Ptr)
    requires |log| < |edits| && IsLog(edits, tops, log, tops1)
    ensures IsLog(edits, tops, log + [Done(tops1, p)], Edited(edits[|log|], tops1, p))
  {}

  /** The walk to a place in the list: the lump before it, 0 at the front. */
  method WalkTo(h: Pool, l: Ptr, k: nat, ghost tops: seq<Top>) returns (prev: Ptr, ghost j: nat)
    requires Segment(h.lumps, l, tops, 0)
    ensures j == (if k < |tops| then k else |tops|) && prev == if j == 0 then 0 else tops[j - 1].p
  {
    var t := l;
    prev, j := 0, 0;
    var n := 0;
    assert tops[0..] == tops;
    while n < k && t != 0
      invariant n <= k && j == n <= |tops| && Segment(h.lumps, t, tops[j..], 0)
      invariant prev == if j == 0 then 0 else tops[j - 1].p
    {
      assert tops[j..][1..] == tops[j + 1..];
      prev, t := t, h.lumps[t].next;
      n, j := n + 1, j + 1;
    }
  }

  /** The walk along a side list of a lump. */
  method WalkSide(h: Pool, top: Ptr, side: Dir, j: nat, ghost t: Top) returns (x: Ptr, ghost i: nat)
    requires top == t.p && top in h.lumps && Chain(h.lumps, Along(h.lumps[top], side), Side(t, side), side)
    ensures i == (if j < |Side(t, side)| then j else |Side(t, side)|) && x == Holder(t, side, i)
  {
    ghost var ps := Side(t, side);
    var r, n := Along(h.lumps[top], side), 0;
    x, i := top, 0;
    assert ps[0..] == ps;
    while n < j && r != 0
      invariant n <= j && i == n <= |ps| && x == Holder(t, side, i) && Chain(h.lumps, r, ps[i..], side)
    {
      assert ps[i..][1..] == ps[i + 1..];
      x, r := r, Along(h.lumps[r], side);
      n, i := n + 1, i + 1;
    }
  }

  lemma {:induction false} SegmentSides(m: Heap, l: Ptr, tops: seq<Top>, k: nat)
    requires Segment(m, l, tops, 0) && k < |tops|
    ensures tops[k].p in m && tops[k].p != 0
    ensures Chain(m, m[tops[k].p].before, tops[k].before, Before) && Chain(m, m[tops[k].p].after, tops[k].after, After)
    decreases k
  {
    if k > 0 {
      SegmentSides(m, m[l].next, tops[1..], k - 1);
    }
  }

  /** What a number of insertions leaves behind: the lost lumps, and their texts. */
  ghost predicate LeftBehind(base: Heap, tb: set<Ptr>, base': Heap, tb': set<Ptr>, lost: set<Ptr>) {
    Grown(base, base', lost) && lost <= base'.Keys && tb' == tb + Texts(base', lost) && Texts(base', lost) !! tb
  }

  /** A state of the life of a copy: the list, what is around it, and what of that has been lost. */
  datatype Life = Life(tops: seq<Top>, base: Heap, tb: set<Ptr>, lost: set<Ptr>)

  ghost predicate Alive(h: Pool, l: Ptr, life: Life, base: Heap, tb: set<Ptr>)
    reads h
  {
    Balanced(h, l, life.tops, life.base, life.tb) && LeftBehind(base, tb, life.base, life.tb, life.lost)
  }

  lemma LostMore(base: Heap, tb: set<Ptr>, base1: Heap, tb1: set<Ptr>, lost: set<Ptr>, p: Ptr, n: Lump)
    requires LeftBehind(base, tb, base1, tb1, lost) && p !in base1 && Text(n) !! tb1
    ensures LeftBehind(base, tb, base1[p := n], tb1 + Text(n), lost + {p})
  {
    GrownNew(base1, p, n);
    GrownTwice(base, base1, base1[p := n], lost, {p});
    assert Texts(base1[p := n], lost + {p}) == Texts(base1, lost) + Text(n);
  }

  /** What an edit makes: a lump of its kind and length, with a text if it is to add one. */
  ghost predicate HasContent(n: Lump, op: Op, len: int, ok: bool) {
    n.op == op && n.len == len && n.flag == NoFlag && (ok && op == Add ==> n.text != 0)
  }

  /** The lump of an edit: an ADD lump has a new text, unless there is no memory for it. */
  method NewContent(h: Pool, op: Op, len: int, l: Ptr, ghost life: Life) returns (ok: bool, n: Lump)
    requires Balanced(h, l, life.tops, life.base, life.tb)
    modifies h`texts, h`top
    ensures IsNew(n) && Text(n) !! life.tb && Balanced(h, l, life.tops, life.base, life.tb + Text(n))
    ensures (ok || Text(n) == {}) && HasContent(n, op, len, ok)
  {
    ghost var none: set<Ptr> := {};
    assert life.tb + none == life.tb;
    n := Lump(op, 0, 0, len, NoFlag, 0, 0, 0);
    if !op.Add? {
      return true, n;
    }
    var x := h.NewText();
    if x == 0 {
      return false, n;
    }
    NewTextIsSpare(h.lumps, h.texts, l, life.tops, life.base, life.tb, x);
    return true, n.(text := x);
  }

  /** Without memory for the lump its text goes again. */
  method DropContent(h: Pool, n: Lump, l: Ptr, ghost life: Life)
    requires IsNew(n) && Text(n) !! life.tb && Balanced(h, l, life.tops, life.base, life.tb + Text(n))
    modifies h`texts
    ensures Balanced(h, l, life.tops, life.base, life.tb)
  {
    ghost var none: set<Ptr> := {};
    assert life.tb + none == life.tb;
    if n.op.Add? && n.text != 0 {
      SpareTextGoes(h.lumps, h.texts, l, life.tops, life.base, life.tb, n.text);
      h.texts := h.texts - {n.text};
    }
  }

  /** An edit of the list itself. */
  method EditList(h: Pool, l: Ptr, prev: Ptr, n: Lump, ghost k: nat, ghost life: Life, ghost base: Heap,
                  ghost tb: set<Ptr>)
    returns (l': Ptr, p: Ptr, ghost life': Life)
    requires IsNew(n) && Text(n) !! life.tb && Balanced(h, l, life.tops, life.base, life.tb + Text(n))
    requires LeftBehind(base, tb, life.base, life.tb, life.lost)
    requires k <= |life.tops| && prev == if k == 0 then 0 else life.tops[k - 1].p
    modifies h`lumps, h`texts, h`top
    ensures Alive(h, l', life', base, tb)
    ensures life' == if p == 0 then life else life.(tops := TopsWith(life.tops, k, p))
    ensures p != 0 ==> p in h.lumps && Bare(h.lumps[p]) == n
  {
    p, l' := InsertTop(h, l, prev, n, life.tops, k, life.base, life.tb);
    life' := life;
    if p == 0 {
      DropContent(h, n, l, life);
    } else {
      life' := life.(tops := TopsWith(life.tops, k, p));
    }
  }

  /** An edit at a lump x of the list or of a side list. */
  method EditAt(h: Pool, l: Ptr, x: Ptr, dir: Dir, n: Lump, ghost k: nat, ghost j: nat, ghost life: Life,
                ghost base: Heap, ghost tb: set<Ptr>)
    returns (p: Ptr, ghost life': Life)
    requires IsNew(n) && Text(n) !! life.tb && Balanced(h, l, life.tops, life.base, life.tb + Text(n))
    requires x in All(life.tops) && (Holds(life.tops, x, dir) ==> IsHolder(life.tops, x, dir, k, j))
    requires LeftBehind(base, tb, life.base, life.tb, life.lost)
    modifies h`lumps, h`texts, h`top
    ensures Alive(h, l, life', base, tb)
    ensures life'.tops == if p != 0 && Holds(life.tops, x, dir) then TopsSide(life.tops, k, dir, j, p) else life.tops
    ensures if p != 0 && !Holds(life.tops, x, dir) then p !in life.lost && life'.lost == life.lost + {p}
            else life'.lost == life.lost
    ensures p != 0 ==> p in h.lumps && Bare(h.lumps[p]) == n
  {
    ghost var m := h.lumps;
    ghost var tops', base';
    p, tops', base' := InsertAt(h, l, x, dir, n, life.tops, k, j, life.base, life.tb);
    life' := life.(tops := tops');
    if p == 0 {
      DropContent(h, n, l, life);
    } else if !Holds(life.tops, x, dir) {
      GrownKeeps(life.base, m, All(life.tops));
      LostMore(base, tb, life.base, life.tb, life.lost, p, h.lumps[p]);
      assert Text(h.lumps[p]) == Text(n);
      life' := Life(tops', base', life.tb + Text(n), life.lost + {p});
    }
  }

  /** An edit of a side list of one direction stays in this direction. */
  predicate IsStraight(e: Edit) {
    e.AtSide? ==> e.dir == e.side || e.j == 0
  }

  /** The walk to the lump at which an edit of a side list inserts: it holds exactly if the edit does not cross. */
  method Target(h: Pool, l: Ptr, top: Ptr, edit: Edit, ghost tops: seq<Top>) returns (x: Ptr)
    requires Segment(h.lumps, l, tops, 0) && Separate(tops) && IsAside(edit, tops)
             && top == tops[Place(edit, tops) - 1].p
    ensures x == TargetOf(edit, tops) && x in All(tops) && (Holds(tops, x, edit.dir) <==> !Crosses(edit, tops))
    ensures !Crosses(edit, tops) ==> IsHolder(tops, x, edit.dir, Place(edit, tops) - 1, Depth(edit, tops))
  {
    ghost var k: nat := Place(edit, tops) - 1;
    SegmentSides(h.lumps, l, tops, k);
    ghost var i;
    x, i := WalkSide(h, top, edit.side, edit.j, tops[k]);
    HolderInAll(tops, k, edit.side, i);
    if edit.dir == edit.side || i == 0 {
      HoldsAt(tops, k, edit.dir, i);
    } else {
      CrossHeldNot(tops, k, edit.side, x, edit.dir);
    }
  }

  /** The list is edited, and the new lump is lost exactly if the edit crosses. */
  ghost predicate Changed(edit: Edit, life: Life, p: Ptr, life': Life) {
    && life'.tops == Edited(edit, life.tops, p)
    && if IsLost(edit, Done(life.tops, p)) then p !in life.lost && life'.lost == life.lost + {p}
       else life'.lost == life.lost
  }

  /** An edit at a side list. */
  method EditAside(h: Pool, l: Ptr, top: Ptr, edit: Edit, n: Lump, ghost life: Life, ghost base: Heap,
                   ghost tb: set<Ptr>)
    returns (p: Ptr, ghost life': Life)
    requires IsNew(n) && Text(n) !! life.tb && Balanced(h, l, life.tops, life.base, life.tb + Text(n))
    requires LeftBehind(base, tb, life.base, life.tb, life.lost)
    requires IsAside(edit, life.tops) && top == life.tops[Place(edit, life.tops) - 1].p
    modifies h`lumps, h`texts, h`top
    ensures Alive(h, l, life', base, tb) && Changed(edit, life, p, life')
    ensures p != 0 ==> p in h.lumps && Bare(h.lumps[p]) == n
  {
    var x := Target(h, l, top, edit, life.tops);
    p, life' := EditAt(h, l, x, edit.dir, n, Place(edit, life.tops) - 1, Depth(edit, life.tops), life, base, tb);
  }

  /** The walk to the place of an edit; 0 exactly if it is the front of the list. */
  method WalkToPlace(h: Pool, l: Ptr, edit: Edit, ghost tops: seq<Top>) returns (prev: Ptr)
    requires Segment(h.lumps, l, tops, 0)
    ensures var k := Place(edit, tops); if k == 0 then prev == 0 else prev != 0 && prev == tops[k - 1].p
  {
    ghost var k;
    prev, k := WalkTo(h, l, edit.k, tops);
    HolderAllocated(h.lumps, l, tops, k);
  }

  /** The new lump goes to its place. */
  method PutInPlace(h: Pool, l: Ptr, edit: Edit, n: Lump, ghost life: Life, ghost base: Heap, ghost tb: set<Ptr>)
    returns (l': Ptr, p: Ptr, ghost life': Life)
    requires IsNew(n) && Text(n) !! life.tb && Balanced(h, l, life.tops, life.base, life.tb + Text(n))
    requires LeftBehind(base, tb, life.base, life.tb, life.lost)
    modifies h`lumps, h`texts, h`top
    ensures Alive(h, l', life', base, tb) && Changed(edit, life, p, life')
    ensures p != 0 ==> p in h.lumps && Bare(h.lumps[p]) == n
  {
    var prev := WalkToPlace(h, l, edit, life.tops);
    if edit.IntoList? || prev == 0 {
      l', p, life' := EditList(h, l, prev, n, Place(edit, life.tops), life, base, tb);
    } else {
      l' := l;
      p, life' := EditAside(h, l, prev, edit, n, life, base, tb);
    }
  }

  /** One edit of a copy: a new lump, perhaps with a new text, or neither. */
  method Insert(h: Pool, l: Ptr, edit: Edit, len: int, ghost life: Life, ghost base: Heap, ghost tb: set<Ptr>)
    returns (l': Ptr, p: Ptr, ghost life': Life)
    requires Alive(h, l, life, base, tb)
    modifies h`lumps, h`texts, h`top
    ensures Alive(h, l', life', base, tb) && Changed(edit, life, p, life')
    ensures p != 0 ==> p in h.lumps && HasContent(h.lumps[p], edit.op, len, true)
  {
    var ok, n := NewContent(h, edit.op, len, l, life);
    if ok {
      l', p, life' := PutInPlace(h, l, edit, n, life, base, tb);
    } else {
      DropContent(h, n, l, life);
      l', p, life' := l, 0, life;
    }
  }

  lemma NewTextIsSpare(m: Heap, texts: set<Ptr>, l: Ptr, tops: seq<Top>, base: Heap, tb: set<Ptr>, x: Ptr)
    requires x in texts && x !in tb && Balance(m, texts - {x}, l, tops, base, tb)
    ensures Balance(m, texts, l, tops, base, tb + {x})
  {
    assert Texts(m, All(tops)) <= texts - {x};
  }

  lemma SpareTextGoes(m: Heap, texts: set<Ptr>, l: Ptr, tops: seq<Top>, base: Heap, tb: set<Ptr>, x: Ptr)
    requires x in texts && x !in tb && Balance(m, texts, l, tops, base, tb + {x})
    ensures Balance(m, texts - {x}, l, tops, base, tb)
  {
    assert x in texts - Texts(m, All(tops));
  }

  /** Lists of the same lengths, side lists included. */
  ghost predicate SameShape(tops: seq<Top>, tops': seq<Top>) {
    && |tops'| == |tops|
    && forall k | 0 <= k < |tops| :: |tops'[k].before| == |tops[k].before| && |tops'[k].after| == |tops[k].after|
  }

  /** All lumps lost are different. */
  ghost predicate LostOnce(edits: seq<Edit>, log: seq<Done>) {
    && |log| <= |edits|
    && forall i, j | 0 <= i < j < |log| && IsLost(edits[i], log[i]) && IsLost(edits[j], log[j]) :: log[i].p != log[j].p
  }

  /** The edits of a copy, one record each, up to the point where memory has this much lost. */
  ghost predicate Recorded(edits: seq<Edit>, copy: seq<Top>, log: seq<Done>, life: Life) {
    IsLog(edits, copy, log, life.tops) && LostOnce(edits, log) && life.lost == LostBy(edits, log)
  }

  lemma RecordedMore(edits: seq<Edit>, copy: seq<Top>, log: seq<Done>, life: Life, p: Ptr, life': Life)
    requires |log| < |edits| && Recorded(edits, copy, log, life)
    requires Changed(edits[|log|], life, p, life')
    ensures Recorded(edits, copy, log + [Done(life.tops, p)], life')
  {
    LogMore(edits, copy, log, life.tops, p);
    LostByMore(edits, log, Done(life.tops, p));
    forall i | 0 <= i < |log| && IsLost(edits[i], log[i])
      ensures log[i].p in life.lost
    {}
  }

  /**
    A copy is made, edited in any way, and freed.  Memory is what it was and the lumps lost on the
    way: one for each edit that crosses and has memory.  Straight edits lose nothing, whatever fails.
   */
  method EditCopy(h: Pool, l: Ptr, edits: seq<Edit>, ghost tops: seq<Top>)
    returns (error: bool, ghost copy: seq<Top>, ghost log: seq<Done>, ghost last: seq<Top>)
    requires h.Valid() && Segment(h.lumps, l, tops, 0)
    modifies h`lumps, h`texts, h`top
    ensures if error then log == [] else SameShape(tops, copy) && |log| == |edits|
    ensures IsLog(edits, copy, log, last) && LostOnce(edits, log)
    ensures h.Valid() && LeftBehind(old(h.lumps), old(h.texts), h.lumps, h.texts, LostBy(edits, log))
    ensures h.lumps == old(h.lumps) <==> forall i | 0 <= i < |log| :: !IsLost(edits[i], log[i])
    ensures (forall e | e in edits :: IsStraight(e)) ==> h.lumps == old(h.lumps) && h.texts == old(h.texts)
  {
    ghost var base, tb := h.lumps, h.texts;
    ghost var none: set<Ptr> := {};
    log := [];
    NothingGone(base);
    assert base - none == base && tb + none == tb;
    var q;
    q, error, copy := Dup(h, l, tops);
    last := copy;
    if error {
      return;
    }
    ghost var life := Life(copy, base, tb, none);
    for i := 0 to |edits|
      invariant Alive(h, q, life, base, tb) && |log| == i && Recorded(edits, copy, log, life)
    {
      ghost var before := life;
      var p;
      q, p, life := Insert(h, q, edits[i], i, life, base, tb);
      RecordedMore(edits, copy, log, before, p, life);
      log := log + [Done(before.tops, p)];
    }
    last := life.tops;
    FreeBalanced(h, q, Sparing, life.tops, life.base, life.tb);
    RestoredExactly(base, tb, h.lumps, h.texts, edits, log);
  }

  /** Memory is what it was exactly if nothing was lost. */
  lemma RestoredExactly(base: Heap, tb: set<Ptr>, m: Heap, texts: set<Ptr>, edits: seq<Edit>, log: seq<Done>)
    requires |log| <= |edits| && LeftBehind(base, tb, m, texts, LostBy(edits, log))
    ensures m == base <==> forall i | 0 <= i < |log| :: !IsLost(edits[i], log[i])
    ensures (forall e | e in edits :: IsStraight(e)) ==> m == base && texts == tb
  {
    var none: set<Ptr> := {};
    if LostBy(edits, log) == none {
      assert m - none == m && Texts(m, none) == none;
      forall i | 0 <= i < |log|
        ensures !IsLost(edits[i], log[i])
      {
        assert log[i].p !in LostBy(edits, log);
      }
    } else {
      var p :| p in LostBy(edits, log);
      assert p in m && p !in base;
      var i :| 0 <= i < |log| && IsLost(edits[i], log[i]) && log[i].p == p;
      assert edits[i] in edits;
    }
  }

  /** Memory that has only grown: the list can be freed as before. */
  lemma ReadyLater(m: Heap, texts: set<Ptr>, l: Ptr, tops: seq<Top>, mode: Mode, m': Heap, texts': set<Ptr>,
                   lost: set<Ptr>)
    requires Segment(m, l, tops, 0) && Ready(m, texts, All(tops), mode) && LeftBehind(m, texts, m', texts', lost)
    ensures Segment(m', l, tops, 0) && Ready(m', texts', All(tops), mode)
    ensures Texts(m', All(tops)) == Texts(m, All(tops)) && m' - All(tops) - lost == m - All(tops)
  {
    GrownKeeps(m, m', lost);
    SegmentFrame(m, m', l, tops, 0);
    assert m' - All(tops) - lost == (m' - lost) - All(tops);
  }

  /**
    The original is freed after all its copies: every lump and every text it owns is gone, and
    nothing else; what the copies have lost stays.
   */
  method WholeLife(h: Pool, l: Ptr, edits: seq<Edit>, ghost tops: seq<Top>)
    returns (error: bool, ghost copy: seq<Top>, ghost log: seq<Done>, ghost last: seq<Top>)
    requires h.Valid() && Segment(h.lumps, l, tops, 0) && Separate(tops) && Ready(h.lumps, h.texts, All(tops), Full)
    modifies h`lumps, h`texts, h`top
    ensures if error then log == [] else SameShape(tops, copy) && |log| == |edits|
    ensures IsLog(edits, copy, log, last) && LostOnce(edits, log)
    ensures h.Valid() && h.lumps - LostBy(edits, log) == old(h.lumps) - All(tops)
    ensures LostBy(edits, log) <= h.lumps.Keys
    ensures h.texts == old(h.texts) - Texts(old(h.lumps), All(tops)) + Texts(h.lumps, LostBy(edits, log))
    ensures h.lumps == old(h.lumps) - All(tops) <==> forall i | 0 <= i < |log| :: !IsLost(edits[i], log[i])
    ensures (forall e | e in edits :: IsStraight(e)) ==> h.Freed(old(h.lumps), old(h.texts), All(tops))
  {
    error, copy, log, last := EditCopy(h, l, edits, tops);
    ghost var m1, texts1 := h.lumps, h.texts;
    ReadyLater(old(h.lumps), old(h.texts), l, tops, Full, m1, texts1, LostBy(edits, log));
    FreeList(h, l, Full, tops);
    LostStay(old(h.lumps), old(h.texts), m1, texts1, All(tops), LostBy(edits, log));
    AllGoneExactly(old(h.lumps), m1, All(tops), edits, log);
  }

  lemma AllGoneExactly(m: Heap, m1: Heap, s: set<Ptr>, edits: seq<Edit>, log: seq<Done>)
    requires |log| <= |edits| && Grown(m, m1, LostBy(edits, log)) && LostBy(edits, log) <= m1.Keys && s <= m.Keys
    requires m1 == m <==> forall i | 0 <= i < |log| :: !IsLost(edits[i], log[i])
    ensures LostBy(edits, log) <= (m1 - s).Keys
    ensures m1 - s == m - s <==> forall i | 0 <= i < |log| :: !IsLost(edits[i], log[i])
  {
    if i :| 0 <= i < |log| && IsLost(edits[i], log[i]) {
      assert log[i].p in LostBy(edits, log);
      assert log[i].p in m1 - s && log[i].p !in m;
    }
  }

  lemma LostStay(m: Heap, texts: set<Ptr>, m1: Heap, texts1: set<Ptr>, s: set<Ptr>, lost: set<Ptr>)
    requires s <= m.Keys && Texts(m, s) <= texts && LeftBehind(m, texts, m1, texts1, lost)
             && Texts(m1, s) == Texts(m, s)
    ensures texts1 - Texts(m1, s) == texts - Texts(m, s) + Texts(m1 - s, lost)
  {
    forall p | p in lost
      ensures p in m1 - s && (m1 - s)[p] == m1[p]
    {
      assert p !in m;
    }
  }

  // ----- Nothing is left behind -----

  /** The lumps of a side list carry no link but that of its direction. */
  ghost predicate OneWay(m: Heap, ps: seq<Ptr>, dir: Dir) {
    forall x | x in ps && x in m :: m[x] == Linked(Bare(m[x]), dir, Along(m[x], dir))
  }

  ghost predicate AllOneWay(m: Heap, tops: seq<Top>) {
    forall k | 0 <= k < |tops| :: OneWay(m, tops[k].before, Before) && OneWay(m, tops[k].after, After)
  }

  /** What can be reached from such a list is in it, so freeing the list leaves nothing behind. */
  lemma {:induction false} NothingBeyond(m: Heap, l: Ptr, tops: seq<Top>, p: Ptr)
    requires Segment(m, l, tops, 0) && AllOneWay(m, tops) && p in All(tops) && p in m
    ensures {m[p].before, m[p].after, m[p].next} <= All(tops) + {0}
    decreases |tops|
  {
    var t := tops[0];
    if p == t.p {
      assert t.before == [] || m[p].before == t.before[0];
      assert t.after == [] || m[p].after == t.after[0];
      assert tops[1..] == [] || (m[p].next in Family(tops[1]) && Family(tops[1]) <= All(tops[1..]));
    } else if p in t.before {
      ChainBeyond(m, m[l].before, t.before, Before, p);
    } else if p in t.after {
      ChainBeyond(m, m[l].after, t.after, After, p);
    } else {
      NothingBeyond(m, m[l].next, tops[1..], p);
    }
  }

  lemma {:induction false} ChainBeyond(m: Heap, r: Ptr, ps: seq<Ptr>, dir: Dir, p: Ptr)
    requires Chain(m, r, ps, dir) && OneWay(m, ps, dir) && p in ps && p in m
    ensures {m[p].before, m[p].after, m[p].next} <= Of(ps) + {0}
    decreases |ps|
  {
    if p == r {
      assert ps[1..] == [] || Along(m[r], dir) == ps[1];
    } else {
      ChainBeyond(m, Along(m[r], dir), ps[1..], dir, p);
    }
  }
}
