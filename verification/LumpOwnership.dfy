/**
  Copying and freeing lump lists (data_lump.c).  A copy shares the texts of its original; lumps
  inserted into it own theirs.  Freeing a copy and freeing an original each give back exactly
  what is theirs, and a copy that fails half-way gives back everything.
 */
module LumpOwnership {
  import opened Sequences
  import opened LumpHeap

  /** `free_lump_list` (Full) and `free_duped_lump_list` (Sparing) */
  method FreeList(h: Pool, l: Ptr, mode: Mode, ghost tops: seq<Top>)
    requires h.Valid() && Segment(h.lumps, l, tops, 0) && Separate(tops) && Ready(h.lumps, h.texts, All(tops), mode)
    modifies h`lumps, h`texts
    ensures h.Freed(old(h.lumps), old(h.texts), All(tops))
    ensures forall p | p in All(tops) && OwnsText(old(h.lumps), p) :: old(h.lumps)[p].text !in h.texts
  {
    ghost var m0, texts0 := h.lumps, h.texts;
    OwnedTexts(m0, All(tops));
    var t := l;
    ghost var gone, rest := {}, tops;
    while t != 0
      invariant h.Freed(m0, texts0, gone)
      invariant Segment(m0, t, rest, 0) && Separate(rest) && All(rest) !! gone
      invariant gone + All(rest) == All(tops)
      decreases |rest|
    {
      var crt := t;
      t := h.lumps[t].next;
      FreeTop(h, crt, mode, rest[0], m0, texts0, All(tops), gone);
      gone, rest := gone + Family(rest[0]), rest[1..];
    }
  }

  /** One turn of the loop: the side lists of a lump, then the lump. */
  method FreeTop(h: Pool, crt: Ptr, mode: Mode, ghost t: Top, ghost m0: Heap, ghost texts0: set<Ptr>,
                 ghost s: set<Ptr>, ghost gone: set<Ptr>)
    requires Ready(m0, texts0, s, mode) && gone <= s && Family(t) <= s && Family(t) !! gone && h.Freed(m0, texts0, gone)
    requires crt == t.p && Chain(m0, m0[crt].before, t.before, Before) && Chain(m0, m0[crt].after, t.after, After)
    requires Separate([t])
    modifies h`lumps, h`texts
    ensures h.Freed(m0, texts0, gone + Family(t))
  {
    h.FreeChain(h.lumps[crt].before, Before, mode, t.before, m0, texts0, s, gone);
    h.FreeChain(h.lumps[crt].after, After, mode, t.after, m0, texts0, s, gone + Of(t.before));
    h.Release(crt, mode, m0, texts0, s, gone + Of(t.before) + Of(t.after));
    assert gone + Of(t.before) + Of(t.after) + {crt} == gone + Family(t);
  }

  /** An ADD lump with a text that is not a copy. */
  ghost predicate OwnsText(m: Heap, p: Ptr) {
    p in m && m[p].op == Add && m[p].text != 0 && m[p].flag != Duped
  }

  /** The texts of a number of lumps are exactly those that these own. */
  lemma OwnedTexts(m: Heap, s: set<Ptr>)
    ensures forall x :: x in Texts(m, s) <==> exists p :: p in s && OwnsText(m, p) && m[p].text == x
  {
    forall x
      ensures x in Texts(m, s) <==> exists p :: p in s && OwnsText(m, p) && m[p].text == x
    {
      if p :| p in s && OwnsText(m, p) && m[p].text == x {
        assert x in Text(m[p]);
      }
    }
  }

  // ----- Copying -----

  /** A lump without its links. */
  function Bare(n: Lump): Lump {
    n.(before := 0, after := 0, next := 0)
  }

  /** What `dup_lump_list_r` makes of a lump before it follows its links. */
  function Copied(n: Lump): Lump {
    Bare(n).(flag := Duped)
  }

  /** q is a copy of p, but for the links: the same content, marked as a copy. */
  ghost predicate IsCopy(m0: Heap, p: Ptr, m: Heap, q: Ptr) {
    && p in m0 && q in m && m[q].flag == Duped
    && m[q].op == m0[p].op && m[q].text == m0[p].text && m[q].offset == m0[p].offset && m[q].len == m0[p].len
  }

  ghost predicate AreCopies(m0: Heap, ps: seq<Ptr>, m: Heap, qs: seq<Ptr>) {
    |qs| == |ps| && forall i | 0 <= i < |ps| :: IsCopy(m0, ps[i], m, qs[i])
  }

  /** The new side list q, qs in m is a copy of ps in m0, and all that m has more than m0. */
  ghost predicate ChainCopied(m0: Heap, ps: seq<Ptr>, m: Heap, q: Ptr, qs: seq<Ptr>, dir: Dir) {
    Chain(m, q, qs, dir) && Distinct(qs) && Grown(m0, m, Of(qs)) && AreCopies(m0, ps, m, qs)
  }

  /** The copy of a side list, given the copy of its rest: q has been allocated in m1, the rest in m2. */
  lemma CopyCons(m0: Heap, r: Ptr, ps: seq<Ptr>, m1: Heap, q: Ptr, m2: Heap, q1: Ptr, qs1: seq<Ptr>, dir: Dir)
    requires Chain(m0, r, ps, dir) && ps != [] && q !in m0 && q != 0 && m1 == m0[q := Copied(m0[r])]
    requires ChainCopied(m1, ps[1..], m2, q1, qs1, dir)
    ensures q in m2 && ChainCopied(m0, ps, m2[q := Linked(m2[q], dir, q1)], q, [q] + qs1, dir)
  {
    GrownNew(m0, q, Copied(m0[r]));
    GrownKeeps(m1, m2, Of(qs1));
    var m, qs := m2[q := Linked(m2[q], dir, q1)], [q] + qs1;
    GrownTwice(m0, m1, m2, {q}, Of(qs1));
    assert qs[1..] == qs1 && Of(qs) == {q} + Of(qs1);
    GrownSet(m0, m2, Of(qs), q, m[q]);
    assert q !in qs1 by {
      assert q in m1;
    }
    ChainFrame(m2, m, q1, qs1, dir);
    forall i | 0 <= i < |ps|
      ensures IsCopy(m0, ps[i], m, qs[i])
    {
      if i > 0 {
        assert IsCopy(m1, ps[1..][i - 1], m2, qs1[i - 1]);
        ChainAllocated(m0, r, ps, dir);
      }
    }
  }

  /** `free_shallow_lump`: a copy goes, with its side lists; no text does. */
  method FreeShallow(h: Pool, l: Ptr, ghost t: Top)
    requires h.Valid() && l == t.p && Separate([t]) && Family(t) <= h.lumps.Keys
    requires forall p | p in Family(t) :: h.lumps[p].flag.Duped?
    requires Chain(h.lumps, h.lumps[l].before, t.before, Before) && Chain(h.lumps, h.lumps[l].after, t.after, After)
    modifies h`lumps, h`texts
    ensures h.Valid() && h.lumps == old(h.lumps) - Family(t) && h.texts == old(h.texts)
  {
    ghost var none: set<Ptr> := {};
    NothingGone(h.lumps);
    assert Texts(h.lumps, Family(t)) == none;
    assert none + Family(t) == Family(t);
    FreeTop(h, l, Shallow, t, h.lumps, h.texts, Family(t), none);
  }

  /** `dup_lump_list_r` along a side list. */
  method DupChain(h: Pool, r: Ptr, dir: Dir, ghost ps: seq<Ptr>) returns (q: Ptr, error: bool, ghost qs: seq<Ptr>)
    requires h.Valid() && Chain(h.lumps, r, ps, dir)
    modifies h`lumps, h`texts, h`top
    ensures h.Valid() && h.texts == old(h.texts)
    ensures if error then h.lumps == old(h.lumps) else ChainCopied(old(h.lumps), ps, h.lumps, q, qs, dir)
    decreases |ps|
  {
    ghost var m0 := h.lumps;
    if r == 0 {
      NothingGone(m0);
      return 0, false, [];
    }
    q := h.NewLump(Copied(h.lumps[r]));
    if q == 0 {
      return 0, true, [];
    }
    var r1 := Along(h.lumps[r], dir);
    ghost var m1 := h.lumps;
    ChainFrame(m0, m1, r1, ps[1..], dir);
    var q1, deepError, qs1 := DupChain(h, r1, dir, ps[1..]);
    if deepError {
      GrownNew(m0, q, Copied(m0[r]));
      FreeShallow(h, q, Top(q, [], []));
      return 0, true, [];
    }
    CopyCons(m0, r, ps, m1, q, h.lumps, q1, qs1, dir);
    h.Store(q, Linked(h.lumps[q], dir, q1));
    qs := [q] + qs1;
    error := false;
  }

  /** The lump ct.p and its side lists, all copies, are what m has more than m0; ct.p is not linked yet. */
  ghost predicate Loose(m0: Heap, p: Ptr, m: Heap, ct: Top) {
    && Grown(m0, m, Family(ct)) && Family(ct) <= m.Keys && Separate([ct]) && ct.p != 0
    && Chain(m, m[ct.p].before, ct.before, Before) && Chain(m, m[ct.p].after, ct.after, After)
    && m[ct.p].next == 0 && IsCopy(m0, p, m, ct.p)
    && forall x | x in Family(ct) :: m[x].flag.Duped?
  }

  function Side(t: Top, dir: Dir): seq<Ptr> {
    if dir.Before? then t.before else t.after
  }

  function WithSide(t: Top, dir: Dir, qs: seq<Ptr>): Top {
    if dir.Before? then t.(before := qs) else t.(after := qs)
  }

  /** A copied side list is linked to the copy of its lump. */
  lemma AttachSide(m0: Heap, p: Ptr, m1: Heap, ct: Top, ps: seq<Ptr>, m2: Heap, q: Ptr, qs: seq<Ptr>, dir: Dir)
    requires Loose(m0, p, m1, ct) && Side(ct, dir) == [] && ChainCopied(m1, ps, m2, q, qs, dir) && Of(ps) <= m0.Keys
    ensures ct.p in m2
    ensures var m := m2[ct.p := Linked(m2[ct.p], dir, q)];
            Loose(m0, p, m, WithSide(ct, dir, qs)) && AreCopies(m0, ps, m, qs)
  {
    GrownKeeps(m1, m2, Of(qs));
    GrownKeeps(m0, m1, Family(ct));
    var m, t := m2[ct.p := Linked(m2[ct.p], dir, q)], WithSide(ct, dir, qs);
    GrownTwice(m0, m1, m2, Family(ct), Of(qs));
    assert Family(t) == Family(ct) + Of(qs);
    GrownSet(m0, m2, Family(t), ct.p, m[ct.p]);
    ChainFrame(m2, m, q, qs, dir);
    ChainAllocated(m2, q, qs, dir);
    SidesKept(m1, m, ct);
    forall x | x in qs
      ensures m[x].flag.Duped?
    {
      var i :| 0 <= i < |qs| && qs[i] == x;
      assert IsCopy(m1, ps[i], m2, qs[i]);
    }
    forall i | 0 <= i < |ps|
      ensures IsCopy(m0, ps[i], m, qs[i])
    {
      assert IsCopy(m1, ps[i], m2, qs[i]) && ps[i] in Of(ps);
    }
  }

  lemma SidesKept(m1: Heap, m: Heap, ct: Top)
    requires ct.p in m1 && Family(ct) <= m1.Keys && Separate([ct])
    requires Chain(m1, m1[ct.p].before, ct.before, Before) && Chain(m1, m1[ct.p].after, ct.after, After)
    requires forall x | x in Family(ct) && x != ct.p :: x in m && m[x] == m1[x]
    ensures Chain(m, m1[ct.p].before, ct.before, Before) && Chain(m, m1[ct.p].after, ct.after, After)
  {
    ChainFrame(m1, m, m1[ct.p].before, ct.before, Before);
    ChainFrame(m1, m, m1[ct.p].after, ct.after, After);
  }

  ghost predicate TopCopied(m0: Heap, t: Top, m: Heap, ct: Top) {
    IsCopy(m0, t.p, m, ct.p) && AreCopies(m0, t.before, m, ct.before) && AreCopies(m0, t.after, m, ct.after)
  }

  /** The new list q, copy in m is a copy of tops in m0, and all that m has more than m0. */
  ghost predicate ListCopied(m0: Heap, tops: seq<Top>, m: Heap, q: Ptr, copy: seq<Top>) {
    && Segment(m, q, copy, 0) && Separate(copy) && Grown(m0, m, All(copy))
    && |copy| == |tops| && (forall i | 0 <= i < |tops| :: TopCopied(m0, tops[i], m, copy[i]))
    && (forall x | x in All(copy) && x in m :: m[x].flag.Duped?)
  }

  lemma TopCopiedLater(m0: Heap, t: Top, m: Heap, m': Heap, ct: Top)
    requires TopCopied(m0, t, m, ct)
    requires forall x | x in Family(ct) && x in m :: x in m' && Bare(m'[x]) == Bare(m[x])
    ensures TopCopied(m0, t, m', ct)
  {
    forall i | 0 <= i < |t.before| ensures IsCopy(m0, t.before[i], m', ct.before[i]) {
      assert IsCopy(m0, t.before[i], m, ct.before[i]) && ct.before[i] in Family(ct);
    }
    forall i | 0 <= i < |t.after| ensures IsCopy(m0, t.after[i], m', ct.after[i]) {
      assert IsCopy(m0, t.after[i], m, ct.after[i]) && ct.after[i] in Family(ct);
    }
  }

  /** A copy made of the memory m1 is a copy made of m0, if m1 has only more. */
  lemma TopCopiedEarlier(m0: Heap, m1: Heap, t: Top, m: Heap, ct: Top)
    requires Same(m0, m1, m0.Keys) && Family(t) <= m0.Keys && TopCopied(m1, t, m, ct)
    ensures TopCopied(m0, t, m, ct)
  {
    forall i | 0 <= i < |t.before| ensures IsCopy(m0, t.before[i], m, ct.before[i]) {
      assert IsCopy(m1, t.before[i], m, ct.before[i]) && t.before[i] in Family(t);
    }
    forall i | 0 <= i < |t.after| ensures IsCopy(m0, t.after[i], m, ct.after[i]) {
      assert IsCopy(m1, t.after[i], m, ct.after[i]) && t.after[i] in Family(t);
    }
    assert t.p in Family(t);
  }

  lemma {:induction false} FamilyInAll(tops: seq<Top>, i: nat)
    requires i < |tops|
    ensures Family(tops[i]) <= All(tops)
  {
    if i > 0 {
      FamilyInAll(tops[1..], i - 1);
    }
  }

  /** The copied lump is linked in front of the copied rest: the shape. */
  lemma ConsShape(m0: Heap, p: Ptr, m1: Heap, ct: Top, m2: Heap, q1: Ptr, copy1: seq<Top>)
    requires Loose(m0, p, m1, ct) && Segment(m2, q1, copy1, 0) && Separate(copy1) && Grown(m1, m2, All(copy1))
    ensures ct.p in m2
    ensures var m, copy := m2[ct.p := m2[ct.p].(next := q1)], [ct] + copy1;
            && Segment(m, ct.p, copy, 0) && Separate(copy) && Grown(m0, m, All(copy))
            && All(copy) == Family(ct) + All(copy1)
  {
    GrownKeeps(m1, m2, All(copy1));
    var m, copy := m2[ct.p := m2[ct.p].(next := q1)], [ct] + copy1;
    assert copy[1..] == copy1;
    GrownTwice(m0, m1, m2, Family(ct), All(copy1));
    GrownSet(m0, m2, All(copy), ct.p, m[ct.p]);
    SidesKept(m1, m, ct);
    SegmentFrame(m2, m, q1, copy1, 0);
  }

  lemma ConsCopy(m0: Heap, l: Ptr, tops: seq<Top>, m1: Heap, ct: Top, m2: Heap, q1: Ptr, copy1: seq<Top>)
    requires Segment(m0, l, tops, 0) && tops != [] && Loose(m0, l, m1, ct) && TopCopied(m0, tops[0], m1, ct)
    requires ListCopied(m1, tops[1..], m2, q1, copy1)
    ensures ct.p in m2 && ListCopied(m0, tops, m2[ct.p := m2[ct.p].(next := q1)], ct.p, [ct] + copy1)
  {
    ConsShape(m0, l, m1, ct, m2, q1, copy1);
    GrownKeeps(m1, m2, All(copy1));
    GrownKeeps(m0, m1, Family(ct));
    var m, copy := m2[ct.p := m2[ct.p].(next := q1)], [ct] + copy1;
    SegmentAllocated(m0, l, tops, 0);
    TopCopiedLater(m0, tops[0], m1, m, ct);
    RestCopied(m0, tops, m1, m2, m, copy);
    forall x | x in All(copy) && x in m
      ensures m[x].flag.Duped?
    {
      assert x in Family(ct) ==> m1[x].flag.Duped?;
      assert x in All(copy1) ==> m2[x].flag.Duped?;
    }
  }

  lemma RestCopied(m0: Heap, tops: seq<Top>, m1: Heap, m2: Heap, m: Heap, copy: seq<Top>)
    requires |copy| == |tops| > 0 && forall i | 0 <= i < |tops| - 1 :: TopCopied(m1, tops[1..][i], m2, copy[1..][i])
    requires All(tops) <= m0.Keys && Same(m0, m1, m0.Keys)
    requires forall x | x in m2 :: x in m && Bare(m[x]) == Bare(m2[x])
    ensures forall i | 0 < i < |tops| :: TopCopied(m0, tops[i], m, copy[i])
  {
    forall i | 0 < i < |tops|
      ensures TopCopied(m0, tops[i], m, copy[i])
    {
      assert tops[i] == tops[1..][i - 1] && copy[i] == copy[1..][i - 1];
      FamilyInAll(tops, i);
      TopCopiedEarlier(m0, m1, tops[i], m2, copy[i]);
      TopCopiedLater(m0, tops[i], m2, m, copy[i]);
    }
  }

  /** `dup_lump_list_r` on one lump, up to the end of its side lists. */
  method DupTop(h: Pool, l: Ptr, ghost t: Top) returns (q: Ptr, error: bool, ghost ct: Top)
    requires h.Valid() && l == t.p && Family(t) <= h.lumps.Keys
    requires Chain(h.lumps, h.lumps[l].before, t.before, Before) && Chain(h.lumps, h.lumps[l].after, t.after, After)
    modifies h`lumps, h`texts, h`top
    ensures h.Valid() && h.texts == old(h.texts)
    ensures if error then h.lumps == old(h.lumps)
            else q == ct.p && Loose(old(h.lumps), l, h.lumps, ct) && TopCopied(old(h.lumps), t, h.lumps, ct)
  {
    ghost var m0 := h.lumps;
    q := h.NewLump(Copied(h.lumps[l]));
    ct := Top(q, [], []);
    if q == 0 {
      return 0, true, ct;
    }
    GrownNew(m0, q, Copied(m0[l]));
    error, ct := DupSide(h, l, q, Before, t.before, m0, ct);
    if error {
      return 0, true, ct;
    }
    ghost var m1 := h.lumps;
    error, ct := DupSide(h, l, q, After, t.after, m0, ct);
    if error {
      return 0, true, ct;
    }
    AreCopiesLater(m0, t.before, m1, h.lumps, ct.before);
  }

  lemma AreCopiesLater(m0: Heap, ps: seq<Ptr>, m: Heap, m': Heap, qs: seq<Ptr>)
    requires AreCopies(m0, ps, m, qs) && forall x | x in m :: x in m' && Bare(m'[x]) == Bare(m[x])
    ensures AreCopies(m0, ps, m', qs)
  {
    forall i | 0 <= i < |ps| ensures IsCopy(m0, ps[i], m', qs[i]) {
      assert IsCopy(m0, ps[i], m, qs[i]);
    }
  }

  /** A side list is copied and linked; if that fails the copy of the lump goes too. */
  method DupSide(h: Pool, l: Ptr, q: Ptr, dir: Dir, ghost ps: seq<Ptr>, ghost m0: Heap, ghost ct: Top)
    returns (error: bool, ghost ct': Top)
    requires h.Valid() && l in m0 && Chain(m0, Along(m0[l], dir), ps, dir)
    requires q == ct.p && Loose(m0, l, h.lumps, ct) && Side(ct, dir) == []
    modifies h`lumps, h`texts, h`top
    ensures h.Valid() && h.texts == old(h.texts)
    ensures if error then h.lumps == m0
            else
              && (exists qs :: ct' == WithSide(ct, dir, qs))
              && Loose(m0, l, h.lumps, ct') && AreCopies(m0, ps, h.lumps, Side(ct', dir))
              && forall x | x in old(h.lumps) :: x in h.lumps && Bare(h.lumps[x]) == Bare(old(h.lumps)[x])
  {
    ghost var m1 := h.lumps;
    GrownKeeps(m0, m1, Family(ct));
    ChainAllocated(m0, Along(m0[l], dir), ps, dir);
    ChainFrame(m0, m1, Along(m0[l], dir), ps, dir);
    var q1, deepError, qs := DupChain(h, Along(h.lumps[l], dir), dir, ps);
    if deepError {
      FreeShallow(h, q, ct);
      return true, ct;
    }
    ghost var m2 := h.lumps;
    AttachSide(m0, l, m1, ct, ps, m2, q1, qs, dir);
    GrownKeeps(m1, m2, Of(qs));
    h.Store(q, Linked(h.lumps[q], dir, q1));
    return false, WithSide(ct, dir, qs);
  }

  /** `dup_lump_list`: a copy that shares the texts, or, if memory runs out anywhere, no change at all. */
  method DupList(h: Pool, l: Ptr, ghost tops: seq<Top>) returns (q: Ptr, error: bool, ghost copy: seq<Top>)
    requires h.Valid() && Segment(h.lumps, l, tops, 0)
    modifies h`lumps, h`texts, h`top
    ensures h.Valid() && h.texts == old(h.texts)
    ensures if error then h.lumps == old(h.lumps) && q == 0 else ListCopied(old(h.lumps), tops, h.lumps, q, copy)
    decreases |tops|
  {
    ghost var m0 := h.lumps;
    if l == 0 {
      NothingGone(m0);
      return 0, false, [];
    }
    SegmentAllocated(m0, l, tops, 0);
    ghost var ct;
    q, error, ct := DupTop(h, l, tops[0]);
    if error {
      return 0, true, [];
    }
    ghost var m1 := h.lumps;
    GrownKeeps(m0, m1, Family(ct));
    SegmentFrame(m0, m1, m0[l].next, tops[1..], 0);
    var q1, deepError, copy1 := DupList(h, h.lumps[l].next, tops[1..]);
    if deepError {
      FreeShallow(h, q, ct);
      return 0, true, [];
    }
    ConsCopy(m0, l, tops, m1, ct, h.lumps, q1, copy1);
    h.Store(q, h.lumps[q].(next := q1));
    copy := [ct] + copy1;
  }
}
