/**
  Lump lists of data_lump.c in memory.  A message's lumps are linked by `next`; each of them has
  a list of lumps to go before it, linked by `before`, and one to go after it, linked by `after`.
  Memory is a map from addresses to lumps and a set of text buffers, so that a leak, a double
  free and a use after free can all be seen.
 */
module LumpHeap {
  import opened Sequences

  /** An address; 0 is the null pointer. */
  type Ptr = nat

  /** LUMPFLAG_NONE, LUMPFLAG_DUPED, LUMPFLAG_SHMEM */
  datatype Flag = NoFlag | Duped | Shmem

  datatype Op = Nop | Del | Add | OtherOp

  /** `struct lump`; the text is that of an ADD lump. */
  datatype Lump = Lump(op: Op, text: Ptr, offset: int, len: int, flag: Flag, before: Ptr, after: Ptr, next: Ptr)

  type Heap = map<Ptr, Lump>

  datatype Dir = Before | After

  function Along(n: Lump, dir: Dir): Ptr {
    if dir.Before? then n.before else n.after
  }

  function Linked(n: Lump, dir: Dir, p: Ptr): Lump {
    if dir.Before? then n.(before := p) else n.(after := p)
  }

  /** A lump of the list with its two side lists. */
  datatype Top = Top(p: Ptr, before: seq<Ptr>, after: seq<Ptr>)

  // ----- Shapes -----

  /** ps is the side list starting at r: the lumps met by following dir. */
  ghost predicate Chain(m: Heap, r: Ptr, ps: seq<Ptr>, dir: Dir)
    decreases |ps|
  {
    if ps == [] then r == 0
    else r == ps[0] != 0 && r in m && Chain(m, Along(m[r], dir), ps[1..], dir)
  }

  /** The list starting at l is tops, followed by `end`. */
  ghost predicate Segment(m: Heap, l: Ptr, tops: seq<Top>, end: Ptr)
    decreases |tops|
  {
    if tops == [] then l == end
    else
      var t := tops[0];
      && l == t.p != 0 && l in m
      && Chain(m, m[l].before, t.before, Before)
      && Chain(m, m[l].after, t.after, After)
      && Segment(m, m[l].next, tops[1..], end)
  }

  ghost function Of(ps: seq<Ptr>): set<Ptr> {
    set p | p in ps
  }

  /** The lumps of one top and its side lists. */
  ghost function Family(t: Top): set<Ptr> {
    {t.p} + Of(t.before) + Of(t.after)
  }

  ghost function All(tops: seq<Top>): set<Ptr> {
    if tops == [] then {} else Family(tops[0]) + All(tops[1..])
  }

  /** Nothing is linked twice. */
  ghost predicate Separate(tops: seq<Top>) {
    tops == [] ||
    (var t := tops[0];
     && Distinct(t.before) && Distinct(t.after)
     && t.p !in t.before && t.p !in t.after && Of(t.before) !! Of(t.after)
     && Family(t) !! All(tops[1..]) && Separate(tops[1..]))
  }

  ghost predicate Same(m: Heap, m': Heap, s: set<Ptr>) {
    forall p | p in s && p in m :: p in m' && m'[p] == m[p]
  }

  lemma {:induction false} ChainFrame(m: Heap, m': Heap, r: Ptr, ps: seq<Ptr>, dir: Dir)
    requires Chain(m, r, ps, dir) && Same(m, m', Of(ps))
    ensures Chain(m', r, ps, dir)
    decreases |ps|
  {
    if ps != [] {
      assert Of(ps[1..]) <= Of(ps);
      ChainFrame(m, m', Along(m[r], dir), ps[1..], dir);
    }
  }

  lemma {:induction false} SegmentFrame(m: Heap, m': Heap, l: Ptr, tops: seq<Top>, end: Ptr)
    requires Segment(m, l, tops, end) && Same(m, m', All(tops))
    ensures Segment(m', l, tops, end)
    decreases |tops|
  {
    if tops != [] {
      var t := tops[0];
      ChainFrame(m, m', m[l].before, t.before, Before);
      ChainFrame(m, m', m[l].after, t.after, After);
      SegmentFrame(m, m', m[l].next, tops[1..], end);
    }
  }

  lemma {:induction false} ChainAllocated(m: Heap, r: Ptr, ps: seq<Ptr>, dir: Dir)
    requires Chain(m, r, ps, dir)
    ensures Of(ps) <= m.Keys && 0 !in ps
    decreases |ps|
  {
    if ps != [] {
      ChainAllocated(m, Along(m[r], dir), ps[1..], dir);
    }
  }

  lemma {:induction false} SegmentAllocated(m: Heap, l: Ptr, tops: seq<Top>, end: Ptr)
    requires Segment(m, l, tops, end)
    ensures All(tops) <= m.Keys && 0 !in All(tops)
    decreases |tops|
  {
    if tops != [] {
      ChainAllocated(m, m[l].before, tops[0].before, Before);
      ChainAllocated(m, m[l].after, tops[0].after, After);
      SegmentAllocated(m, m[l].next, tops[1..], end);
    }
  }

  // ----- Growing memory -----

  /** m is m0 and the new lumps s. */
  ghost predicate Grown(m0: Heap, m: Heap, s: set<Ptr>) {
    s !! m0.Keys && m - s == m0
  }

  lemma GrownKeeps(m0: Heap, m: Heap, s: set<Ptr>)
    requires Grown(m0, m, s)
    ensures Same(m0, m, m0.Keys)
  {
    forall p | p in m0
      ensures p in m && m[p] == m0[p]
    {
      assert p in m - s;
    }
  }

  lemma GrownNew(m0: Heap, p: Ptr, n: Lump)
    requires p !in m0
    ensures Grown(m0, m0[p := n], {p})
  {
    assert m0[p := n] - {p} == m0;
  }

  lemma GrownTwice(m0: Heap, m1: Heap, m2: Heap, s1: set<Ptr>, s2: set<Ptr>)
    requires Grown(m0, m1, s1) && Grown(m1, m2, s2) && s1 <= m1.Keys
    ensures Grown(m0, m2, s1 + s2)
  {
    GrownKeeps(m0, m1, s1);
    GrownKeeps(m1, m2, s2);
    assert m2 - (s1 + s2) == (m2 - s2) - s1;
  }

  lemma GrownSet(m0: Heap, m: Heap, s: set<Ptr>, p: Ptr, n: Lump)
    requires Grown(m0, m, s) && p in s
    ensures Grown(m0, m[p := n], s)
  {
    assert m[p := n] - s == m - s;
  }

  // ----- Who owns which text -----

  /** The text a lump has to free: that of an ADD lump, unless the lump is a mere copy. */
  ghost function Text(n: Lump): set<Ptr> {
    if n.op.Add? && n.text != 0 && !n.flag.Duped? then {n.text} else {}
  }

  ghost function Texts(m: Heap, s: set<Ptr>): set<Ptr> {
    set p, x | p in s && p in m && x in Text(m[p]) :: x
  }

  /** No two lumps own the same text, and every text owned is allocated. */
  ghost predicate Owning(m: Heap, texts: set<Ptr>, s: set<Ptr>) {
    && Texts(m, s) <= texts
    && forall p, q | p in s && q in s && p in m && q in m && p != q :: Text(m[p]) !! Text(m[q])
  }

  // ----- Freeing -----

  /** free_lump_list frees every text, free_duped_lump_list spares copies, free_shallow_lump spares all. */
  datatype Mode = Full | Sparing | Shallow

  /** `free_lump` aborts on an ADD lump whose text is not its own. */
  ghost predicate Freeable(n: Lump, mode: Mode) {
    match mode
    case Full => n.op.Add? && n.text != 0 ==> n.flag.NoFlag?
    case Sparing => n.op.Add? && n.text != 0 ==> !n.flag.Shmem?
    case Shallow => n.flag.Duped?
  }

  /** The lumps of s can be freed one after another. */
  ghost predicate Ready(m: Heap, texts: set<Ptr>, s: set<Ptr>, mode: Mode) {
    && s <= m.Keys && Owning(m, texts, s)
    && forall p | p in s :: Freeable(m[p], mode)
  }

  lemma TextsMore(m: Heap, gone: set<Ptr>, p: Ptr)
    requires p in m
    ensures Texts(m, gone + {p}) == Texts(m, gone) + Text(m[p])
  {}

  lemma NothingGone(m: Heap)
    ensures m - {} == m && Texts(m, {}) == {}
  {
    var none: set<Ptr> := {};
    assert m - none == m;
  }

  /** The text of the next lump to be freed is still there. */
  lemma StillOwned(m: Heap, texts: set<Ptr>, s: set<Ptr>, gone: set<Ptr>, p: Ptr)
    requires Owning(m, texts, s) && gone <= s <= m.Keys && p in s && p !in gone
    ensures Text(m[p]) <= texts - Texts(m, gone)
  {}

  class Pool {
    var lumps: Heap
    var texts: set<Ptr>
    var top: Ptr

    /** Addresses are handed out in increasing order. */
    ghost predicate Valid()
      reads this
    {
      top > 0 && 0 !in lumps && (forall p | p in lumps :: p < top) && forall x | x in texts :: x < top
    }

    /** The lumps `gone` of the pool m0, texts0 have been freed, with their texts. */
    ghost predicate Freed(m0: Heap, texts0: set<Ptr>, gone: set<Ptr>)
      reads this
    {
      Valid() && lumps == m0 - gone && texts == texts0 - Texts(m0, gone)
    }

    /** `pkg_malloc` of a lump, filled in; 0 if there is no memory. */
    method NewLump(n: Lump) returns (p: Ptr)
      requires Valid()
      modifies `lumps, `top
      ensures Valid()
      ensures if p == 0 then lumps == old(lumps) else p !in old(lumps) && lumps == old(lumps)[p := n]
    {
      var full: bool := *;
      if full {
        return 0;
      }
      p := top;
      top := top + 1;
      lumps := lumps[p := n];
    }

    /** `pkg_malloc` of a text; 0 if there is no memory. */
    method NewText() returns (x: Ptr)
      requires Valid()
      modifies `texts, `top
      ensures Valid()
      ensures if x == 0 then texts == old(texts) else x !in old(texts) && texts == old(texts) + {x}
    {
      var full: bool := *;
      if full {
        return 0;
      }
      x := top;
      top := top + 1;
      texts := texts + {x};
    }

    /** A lump is changed in place. */
    method Store(p: Ptr, n: Lump)
      requires Valid() && p in lumps
      modifies `lumps
      ensures Valid() && lumps == old(lumps)[p := n]
    {
      lumps := lumps[p := n];
    }

    /** `free_lump` */
    method FreeLump(p: Ptr)
      requires p in lumps && Freeable(lumps[p], Full) && Text(lumps[p]) <= texts
      modifies `lumps, `texts
      ensures texts == old(texts) - Text(old(lumps)[p])
      ensures lumps - {p} == old(lumps) - {p} && lumps.Keys == old(lumps).Keys
    {
      var n := lumps[p];
      if n.op.Add? && n.text != 0 {
        texts := texts - {n.text};
        lumps := lumps[p := n.(text := 0, len := 0)];
      }
    }

    /** One lump is freed, and its text as the mode says. */
    method Release(p: Ptr, mode: Mode, ghost m0: Heap, ghost texts0: set<Ptr>, ghost s: set<Ptr>, ghost gone: set<Ptr>)
      requires Ready(m0, texts0, s, mode) && gone <= s && p in s && p !in gone && Freed(m0, texts0, gone)
      modifies `lumps, `texts
      ensures Freed(m0, texts0, gone + {p})
    {
      StillOwned(m0, texts0, s, gone, p);
      TextsMore(m0, gone, p);
      if mode.Full? || (mode.Sparing? && !lumps[p].flag.Duped?) {
        FreeLump(p);
      }
      lumps := lumps - {p};
    }

    /** The loop over a side list. */
    method FreeChain(r0: Ptr, dir: Dir, mode: Mode, ghost ps: seq<Ptr>, ghost m0: Heap, ghost texts0: set<Ptr>,
                     ghost s: set<Ptr>, ghost gone0: set<Ptr>)
      requires Ready(m0, texts0, s, mode) && gone0 <= s && Of(ps) <= s && Of(ps) !! gone0 && Freed(m0, texts0, gone0)
      requires Chain(m0, r0, ps, dir) && Distinct(ps)
      modifies `lumps, `texts
      ensures Freed(m0, texts0, gone0 + Of(ps))
    {
      var r := r0;
      ghost var gone, rest := gone0, ps;
      while r != 0
        invariant Freed(m0, texts0, gone) && gone <= s && Of(rest) <= s && Of(rest) !! gone
        invariant gone + Of(rest) == gone0 + Of(ps)
        invariant Chain(m0, r, rest, dir) && Distinct(rest)
        decreases |rest|
      {
        var foo := r;
        assert foo in rest && Of(rest) == {foo} + Of(rest[1..]);
        r := Along(lumps[foo], dir);
        Release(foo, mode, m0, texts0, s, gone);
        gone, rest := gone + {foo}, rest[1..];
      }
    }
  }
}
