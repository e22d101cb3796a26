/**
  SRV server selection of dns_cache.c (`dns_srv_get_nxt_rr`), after the "Usage rules" of
  RFC 2782: the records of a list are tried priority group by priority group, in a weighted
  random order inside a group.  The position is the start of the current group and a bitmap of
  its tried records, so a group longer than the bitmap is taken in chunks.
 */
module SrvSelect {
  import opened Options
  import opened DnsTable

  /** MAX_SRV_GRP_IDX, for the 16 bits of srv_flags_t. */
  const MAX_SRV_GRP_IDX := 16

  /** `srv_no` is an unsigned char: the last position that it can hold. */
  const MAX_RECORDS := 255

  function Priority(rr: Rr): nat {
    if rr.rdata.Srv? then rr.rdata.priority else 0
  }

  function Weight(rr: Rr): nat {
    if rr.rdata.Srv? then rr.rdata.weight else 0
  }

  /** What makes a record expire. */
  datatype View = View(permanent: bool, serversUp: bool, now: int)

  predicate Fresh(rr: Rr, v: View) {
    !(v.serversUp && !v.permanent && v.now >= rr.expire)
  }

  /** srv_no and srv_tried_rrs of a handle. */
  datatype Cursor = Cursor(no: nat, tried: set<nat>)

  /** A source of random numbers between 0 and its argument. */
  ghost predicate Bounded(rand: nat -> nat) {
    forall m: nat :: rand(m) <= m
  }

  // ----- One group -----

  /** The records that follow list[n] with the same priority, list[n] included, 16 at most. */
  function GroupLen(list: seq<Rr>, n: nat, i: nat): (g: nat)
    requires n < |list| && n + i <= |list| && i <= MAX_SRV_GRP_IDX
    ensures i <= g <= MAX_SRV_GRP_IDX && 0 < g && n + g <= |list|
    decreases |list| - n - i
  {
    if i < MAX_SRV_GRP_IDX && n + i < |list| && Priority(list[n + i]) == Priority(list[n])
    then GroupLen(list, n, i + 1) else i
  }

  /** A group has one priority, and ends only where the next priority begins or the bitmap is full. */
  lemma {:induction false} GroupPriority(list: seq<Rr>, n: nat, i: nat)
    requires n < |list| && n + i <= |list| && i <= MAX_SRV_GRP_IDX
    ensures var g := GroupLen(list, n, i);
            && (forall k | n + i <= k < n + g :: Priority(list[k]) == Priority(list[n]))
            && (g < MAX_SRV_GRP_IDX && n + g < |list| ==> Priority(list[n + g]) != Priority(list[n]))
    decreases |list| - n - i
  {
    if i < MAX_SRV_GRP_IDX && n + i < |list| && Priority(list[n + i]) == Priority(list[n]) {
      GroupPriority(list, n, i + 1);
    }
  }

  /** The k-th record of the group may be selected. */
  predicate Open(list: seq<Rr>, c: Cursor, v: View, k: nat)
    requires c.no + k < |list|
  {
    Fresh(list[c.no + k], v) && k !in c.tried
  }

  /** The weight of the open ones among the first k records of the group. */
  function WeightBelow(list: seq<Rr>, c: Cursor, v: View, k: nat): nat
    requires c.no + k <= |list|
  {
    if k == 0 then 0
    else WeightBelow(list, c, v, k - 1) + if Open(list, c, v, k - 1) then Weight(list[c.no + k - 1]) else 0
  }

  function OpenBelow(list: seq<Rr>, c: Cursor, v: View, k: nat): nat
    requires c.no + k <= |list|
  {
    if k == 0 then 0
    else OpenBelow(list, c, v, k - 1) + if Open(list, c, v, k - 1) then 1 else 0
  }

  lemma {:induction false} NoneOpen(list: seq<Rr>, c: Cursor, v: View, k: nat)
    requires c.no + k <= |list|
    ensures OpenBelow(list, c, v, k) == 0 <==> forall j | 0 <= j < k :: !Open(list, c, v, j)
  {
    if k > 0 {
      NoneOpen(list, c, v, k - 1);
    }
  }

  /** What is left for a draw of 0: the last open record of weight 0, else the first open record, else -1. */
  function Saved(list: seq<Rr>, c: Cursor, v: View, k: nat): (s: int)
    requires c.no + k <= |list|
    ensures s == -1 <==> OpenBelow(list, c, v, k) == 0
    ensures s != -1 ==> 0 <= s < k && Open(list, c, v, s)
  {
    if k == 0 then -1
    else
      var s := Saved(list, c, v, k - 1);
      if Open(list, c, v, k - 1) && (s == -1 || Weight(list[c.no + k - 1]) == 0) then k - 1 else s
  }

  /** A draw of 0 selects a record of weight 0 if there is one (the last), else the first open record. */
  lemma {:induction false} SavedMeans(list: seq<Rr>, c: Cursor, v: View, k: nat)
    requires c.no + k <= |list| && OpenBelow(list, c, v, k) > 0
    ensures var s := Saved(list, c, v, k);
            if Weight(list[c.no + s]) == 0
            then forall j | s < j < k && Open(list, c, v, j) :: Weight(list[c.no + j]) != 0
            else forall j | 0 <= j < k && Open(list, c, v, j) :: s <= j && Weight(list[c.no + j]) != 0
  {
    if OpenBelow(list, c, v, k - 1) > 0 {
      SavedMeans(list, c, v, k - 1);
    } else {
      NoneOpen(list, c, v, k - 1);
    }
  }

  /** The running sum of the k-th record, 0 for one that must not be selected. */
  function RSum(list: seq<Rr>, c: Cursor, v: View, k: nat): nat
    requires c.no + k < |list|
  {
    if Open(list, c, v, k) then WeightBelow(list, c, v, k + 1) else 0
  }

  lemma {:induction false} WeightGrows(list: seq<Rr>, c: Cursor, v: View, j: nat, k: nat)
    requires j <= k && c.no + k <= |list|
    ensures WeightBelow(list, c, v, j) <= WeightBelow(list, c, v, k)
    decreases k - j
  {
    if j < k {
      WeightGrows(list, c, v, j, k - 1);
    }
  }

  /** The record hit by a draw d: the first one whose running sum reaches d. */
  ghost predicate Hit(list: seq<Rr>, c: Cursor, v: View, d: nat, k: nat)
    requires c.no + k < |list|
  {
    RSum(list, c, v, k) >= d && forall j | 0 <= j < k :: RSum(list, c, v, j) < d
  }

  /** Record k is hit by exactly the draws of its own weight interval. */
  lemma HitExactly(list: seq<Rr>, c: Cursor, v: View, d: nat, k: nat)
    requires c.no + k < |list| && d > 0
    ensures Hit(list, c, v, d, k) <==> WeightBelow(list, c, v, k) < d <= WeightBelow(list, c, v, k + 1)
  {
    forall j | 0 <= j < k
      ensures RSum(list, c, v, j) <= WeightBelow(list, c, v, k)
    {
      WeightGrows(list, c, v, j + 1, k);
    }
    if WeightBelow(list, c, v, k) >= d {
      HitBefore(list, c, v, d, k);
    }
  }

  lemma {:induction false} HitBefore(list: seq<Rr>, c: Cursor, v: View, d: nat, k: nat)
    requires c.no + k <= |list| && WeightBelow(list, c, v, k) >= d > 0
    ensures exists j :: 0 <= j < k && RSum(list, c, v, j) >= d
  {
    if WeightBelow(list, c, v, k - 1) >= d {
      HitBefore(list, c, v, d, k - 1);
    } else {
      assert RSum(list, c, v, k - 1) >= d;
    }
  }

  /** The draws that select record k. */
  ghost function DrawsFor(list: seq<Rr>, c: Cursor, v: View, total: nat, k: nat): set<int>
    requires c.no + k < |list|
  {
    set d | 1 <= d <= total && Hit(list, c, v, d, k)
  }

  function Interval(lo: int, hi: int): (s: set<int>)
    requires lo <= hi
    ensures forall d :: d in s <==> lo < d <= hi
    ensures |s| == hi - lo
    decreases hi - lo
  {
    if lo == hi then {} else {hi} + Interval(lo, hi - 1)
  }

  /** Of the draws 1..total exactly weight many select record k, and none does if it is not open. */
  lemma WeightsAreExact(list: seq<Rr>, c: Cursor, v: View, g: nat, k: nat)
    requires k < g && c.no + g <= |list|
    ensures |DrawsFor(list, c, v, WeightBelow(list, c, v, g), k)|
            == if Open(list, c, v, k) then Weight(list[c.no + k]) else 0
  {
    var total, lo, hi := WeightBelow(list, c, v, g), WeightBelow(list, c, v, k), WeightBelow(list, c, v, k + 1);
    WeightGrows(list, c, v, k + 1, g);
    forall d: int | 1 <= d <= total
      ensures Hit(list, c, v, d, k) <==> lo < d <= hi
    {
      HitExactly(list, c, v, d, k);
    }
    assert DrawsFor(list, c, v, total, k) == Interval(lo, hi);
  }

  // ----- The next record -----

  /** The first group from here on with an open record; the end of the list if there is none. */
  function Settle(list: seq<Rr>, c: Cursor, v: View): (s: Cursor)
    ensures s.no <= |list| && (c.no <= |list| ==> c.no <= s.no)
    decreases |list| - c.no
  {
    if c.no >= |list| then Cursor(|list|, c.tried)
    else
      var g := GroupLen(list, c.no, 0);
      if OpenBelow(list, c, v, g) > 0 then c else Settle(list, Cursor(c.no + g, {}), v)
  }

  /** Record i of the group at c is what one draw selects. */
  ghost predicate Selected(list: seq<Rr>, c: Cursor, v: View, rand: nat -> nat, i: nat)
    requires c.no < |list|
  {
    var g := GroupLen(list, c.no, 0);
    var d := rand(WeightBelow(list, c, v, g));
    && i < g
    && if OpenBelow(list, c, v, g) == 1 || d == 0 then i == Saved(list, c, v, g) else Hit(list, c, v, d, i)
  }

  /** What is stored of a position: the group number is one byte. */
  function Stored(c: Cursor): Cursor {
    c.(no := c.no % 256)
  }

  lemma StoredSame(c: Cursor)
    requires c.no <= MAX_RECORDS
    ensures Stored(c) == c
  {}

  /** A call at c returns record r of the list and leaves the cursor at c'. */
  ghost predicate IsNext(list: seq<Rr>, c: Cursor, v: View, rand: nat -> nat, c': Cursor, r: Option<nat>) {
    var s := Settle(list, c, v);
    if s.no == |list| then r == None && c' == Stored(s)
    else
      && r.Some? && s.no <= r.value && Selected(list, s, v, rand, r.value - s.no)
      && c' == Stored(Cursor(s.no, s.tried + {r.value - s.no}))
  }

  /** The first loop over a group: its length, its running sums, and what a draw of 0 would select. */
  method ScanGroup(list: seq<Rr>, v: View, c: Cursor)
    returns (idx: nat, rSums: array<nat>, sum: nat, savedIdx: int, found: nat)
    requires c.no < |list|
    ensures idx == GroupLen(list, c.no, 0) && rSums.Length == MAX_SRV_GRP_IDX
    ensures sum == WeightBelow(list, c, v, idx) && found == OpenBelow(list, c, v, idx)
            && savedIdx == Saved(list, c, v, idx)
    ensures forall k | 0 <= k < idx :: rSums[k] == RSum(list, c, v, k)
  {
    rSums := new nat[MAX_SRV_GRP_IDX];
    var prio := Priority(list[c.no]);
    idx, sum, savedIdx, found := 0, 0, -1, 0;
    while c.no + idx < |list| && prio == Priority(list[c.no + idx]) && idx < MAX_SRV_GRP_IDX
      invariant idx <= MAX_SRV_GRP_IDX && c.no + idx <= |list|
      invariant GroupLen(list, c.no, idx) == GroupLen(list, c.no, 0)
      invariant sum == WeightBelow(list, c, v, idx) && found == OpenBelow(list, c, v, idx)
                && savedIdx == Saved(list, c, v, idx)
      invariant forall k | 0 <= k < idx :: rSums[k] == RSum(list, c, v, k)
      decreases MAX_SRV_GRP_IDX - idx
    {
      var rr := list[c.no + idx];
      if !Fresh(rr, v) || idx in c.tried {
        rSums[idx] := 0;
      } else {
        if savedIdx == -1 || Weight(rr) == 0 {
          savedIdx := idx;
        }
        sum := sum + Weight(rr);
        rSums[idx] := sum;
        found := found + 1;
      }
      idx := idx + 1;
    }
  }

  /** The second loop: the first running sum that reaches a draw. */
  method Reach(list: seq<Rr>, v: View, c: Cursor, idx: nat, rSums: array<nat>, randW: nat) returns (i: nat)
    requires c.no + idx <= |list| && idx <= rSums.Length && 0 < randW <= WeightBelow(list, c, v, idx)
    requires forall k | 0 <= k < idx :: rSums[k] == RSum(list, c, v, k)
    ensures i < idx && Hit(list, c, v, randW, i)
  {
    HitBefore(list, c, v, randW, idx);
    i := 0;
    while i < idx && rSums[i] < randW
      invariant i <= idx
      invariant forall k | 0 <= k < i :: RSum(list, c, v, k) < randW
    {
      i := i + 1;
    }
  }

  /** The choice in a group that has open records. */
  method Draw(list: seq<Rr>, v: View, rand: nat -> nat, c: Cursor, idx: nat, rSums: array<nat>, sum: nat,
              savedIdx: int, found: nat) returns (i: nat)
    requires c.no < |list| && Bounded(rand) && found > 0
    requires idx == GroupLen(list, c.no, 0) && idx <= rSums.Length
             && forall k | 0 <= k < idx :: rSums[k] == RSum(list, c, v, k)
    requires sum == WeightBelow(list, c, v, idx) && found == OpenBelow(list, c, v, idx)
             && savedIdx == Saved(list, c, v, idx)
    ensures Selected(list, c, v, rand, i)
  {
    i := savedIdx;
    if found > 1 {
      var randW := rand(sum);
      if randW != 0 {
        i := Reach(list, v, c, idx, rSums, randW);
      }
    }
  }

  /** One group: its length, and the record selected if one is open. */
  method TryGroup(list: seq<Rr>, v: View, rand: nat -> nat, c: Cursor) returns (idx: nat, isOpen: bool, i: nat)
    requires c.no < |list| && Bounded(rand)
    ensures idx == GroupLen(list, c.no, 0) && (isOpen <==> OpenBelow(list, c, v, idx) > 0)
    ensures isOpen ==> Selected(list, c, v, rand, i)
  {
    var rSums, sum, savedIdx, found;
    idx, rSums, sum, savedIdx, found := ScanGroup(list, v, c);
    isOpen, i := found > 0, 0;
    if isOpen {
      i := Draw(list, v, rand, c, idx, rSums, sum, savedIdx, found);
    }
  }

  lemma NextIsHere(list: seq<Rr>, c: Cursor, v: View, rand: nat -> nat, s: Cursor, i: nat)
    requires Settle(list, c, v) == s && s.no < |list| && Selected(list, s, v, rand, i)
    ensures IsNext(list, c, v, rand, Stored(Cursor(s.no, s.tried + {i})), Some(s.no + i))
  {}

  /** `dns_srv_get_nxt_rr` */
  method GetNextRr(list: seq<Rr>, v: View, rand: nat -> nat, c: Cursor) returns (c': Cursor, r: Option<nat>)
    requires Bounded(rand)
    ensures IsNext(list, c, v, rand, c', r)
  {
    var n := if c.no > |list| then Cursor(|list|, c.tried) else c;
    while n.no < |list|
      invariant n.no <= |list|
      invariant Settle(list, n, v) == Settle(list, c, v)
    {
      var idx, isOpen, i := TryGroup(list, v, rand, n);
      if isOpen {
        NextIsHere(list, c, v, rand, n, i);
        return Stored(Cursor(n.no, n.tried + {i})), Some(n.no + i);
      }
      n := Cursor(n.no + idx, {});
    }
    return Stored(n), None;
  }

  // ----- Whole traversals -----

  /** The bits of the bitmap belong to records of the current group. */
  ghost predicate Placed(list: seq<Rr>, c: Cursor) {
    && c.no <= |list|
    && forall i | i in c.tried :: c.no < |list| && i < GroupLen(list, c.no, 0)
  }

  /** A record before the current group, or a tried one in it. */
  predicate IsSpent(c: Cursor, k: nat) {
    k < c.no || k - c.no in c.tried
  }

  ghost function Spent(list: seq<Rr>, c: Cursor): set<nat> {
    set k: nat | k < |list| && IsSpent(c, k)
  }

  /** The unexpired records still to come. */
  ghost function Remaining(list: seq<Rr>, c: Cursor, v: View): set<nat> {
    set k: nat | k < |list| && k !in Spent(list, c) && Fresh(list[k], v)
  }

  /** Looking for a group passes over tried and expired records only. */
  lemma {:induction false} SettleSpends(list: seq<Rr>, c: Cursor, v: View)
    requires Placed(list, c)
    ensures var s := Settle(list, c, v);
            && Placed(list, s) && Spent(list, c) <= Spent(list, s)
            && Remaining(list, s, v) == Remaining(list, c, v)
            && (s.no == |list| ==> Remaining(list, c, v) == {})
    decreases |list| - c.no
  {
    if c.no < |list| {
      var g := GroupLen(list, c.no, 0);
      if OpenBelow(list, c, v, g) == 0 {
        NoneOpen(list, c, v, g);
        var c1 := Cursor(c.no + g, {});
        forall k: nat | k in Spent(list, c1) && k !in Spent(list, c)
          ensures !Fresh(list[k], v)
        {
          assert !Open(list, c, v, k - c.no);
        }
        SettleSpends(list, c1, v);
      }
    }
  }

  /** What a draw selects is open. */
  lemma SelectedIsOpen(list: seq<Rr>, c: Cursor, v: View, rand: nat -> nat, i: nat)
    requires c.no < |list| && Selected(list, c, v, rand, i) && OpenBelow(list, c, v, GroupLen(list, c.no, 0)) > 0
    ensures Open(list, c, v, i)
  {}

  lemma {:induction false} SettleFindsOpen(list: seq<Rr>, c: Cursor, v: View)
    ensures var s := Settle(list, c, v); s.no < |list| ==> OpenBelow(list, s, v, GroupLen(list, s.no, 0)) > 0
    decreases |list| - c.no
  {
    if c.no < |list| {
      var g := GroupLen(list, c.no, 0);
      if OpenBelow(list, c, v, g) == 0 {
        SettleFindsOpen(list, Cursor(c.no + g, {}), v);
      }
    }
  }

  lemma SelectSpends(list: seq<Rr>, s: Cursor, v: View, i: nat)
    requires Placed(list, s) && s.no < |list| && i < GroupLen(list, s.no, 0) && Open(list, s, v, i)
    ensures var c' := Cursor(s.no, s.tried + {i});
            && Placed(list, c') && Spent(list, c') == Spent(list, s) + {s.no + i}
            && s.no + i in Remaining(list, s, v)
            && Remaining(list, c', v) == Remaining(list, s, v) - {s.no + i}
  {
    var c' := Cursor(s.no, s.tried + {i});
    assert Spent(list, c') == Spent(list, s) + {s.no + i};
  }

  /** Where a call that returns r stands afterwards, before the position is stored. */
  function Stand(list: seq<Rr>, c: Cursor, v: View, r: Option<nat>): Cursor
    requires r.Some? ==> Settle(list, c, v).no <= r.value
  {
    var s := Settle(list, c, v);
    if r.None? then s else Cursor(s.no, s.tried + {r.value - s.no})
  }

  /** Every call finds an unspent, unexpired record of the current group and spends it; at the end there is none. */
  lemma NextStands(list: seq<Rr>, c: Cursor, v: View, rand: nat -> nat, c': Cursor, r: Option<nat>)
    requires Placed(list, c) && IsNext(list, c, v, rand, c', r)
    ensures r.Some? ==> Settle(list, c, v).no <= r.value
    ensures var c1 := Stand(list, c, v, r);
            && c' == Stored(c1) && Placed(list, c1) && c.no <= c1.no && Spent(list, c) <= Spent(list, c1)
            && (r.None? ==> c1.no == |list| && Remaining(list, c, v) == Remaining(list, c1, v) == {})
            && (r.Some? ==> r.value in Remaining(list, c, v) && r.value in Spent(list, c1))
            && (r.Some? ==> Remaining(list, c1, v) == Remaining(list, c, v) - {r.value})
            && (r.Some? ==> c1.no <= r.value < |list| && r.value - c1.no < GroupLen(list, c1.no, 0))
  {
    SettleSpends(list, c, v);
    SettleFindsOpen(list, c, v);
    var s := Settle(list, c, v);
    if r.Some? {
      SelectedIsOpen(list, s, v, rand, r.value - s.no);
      SelectSpends(list, s, v, r.value - s.no);
      assert Spent(list, Stand(list, c, v, r)) == Spent(list, s) + {r.value};
    }
  }

  /** In a list of 255 records at most that is also what is stored. */
  lemma NextSpends(list: seq<Rr>, c: Cursor, v: View, rand: nat -> nat, c': Cursor, r: Option<nat>)
    requires |list| <= MAX_RECORDS && Placed(list, c) && IsNext(list, c, v, rand, c', r)
    ensures Placed(list, c') && c.no <= c'.no && Spent(list, c) <= Spent(list, c')
    ensures r.None? ==> Remaining(list, c, v) == Remaining(list, c', v) == {}
    ensures r.Some? ==> r.value in Remaining(list, c, v) && r.value in Spent(list, c')
    ensures r.Some? ==> Remaining(list, c', v) == Remaining(list, c, v) - {r.value}
    ensures r.Some? ==> c'.no <= r.value < |list| && r.value - c'.no < GroupLen(list, c'.no, 0)
  {
    NextStands(list, c, v, rand, c', r);
    StoredSame(Stand(list, c, v, r));
    assert c' == Stand(list, c, v, r);
  }

  /** A number of calls one after another. */
  datatype Call = Call(v: View, rand: nat -> nat, from: Cursor, to: Cursor, r: Option<nat>)

  ghost predicate IsRun(list: seq<Rr>, c: Cursor, calls: seq<Call>)
    decreases |calls|
  {
    calls == [] ||
    (calls[0].from == c && IsNext(list, c, calls[0].v, calls[0].rand, calls[0].to, calls[0].r)
     && IsRun(list, calls[0].to, calls[1..]))
  }

  /** No record of a list with 255 records at most is returned twice, whatever the times and draws of the calls. */
  lemma {:induction false} NeverTwice(list: seq<Rr>, c: Cursor, calls: seq<Call>, t: nat)
    requires |list| <= MAX_RECORDS && Placed(list, c) && IsRun(list, c, calls) && t < |calls| && calls[t].r.Some?
    ensures calls[t].r.value !in Spent(list, c)
    ensures forall u | 0 <= u < t :: calls[u].r != calls[t].r
    decreases t
  {
    NextSpends(list, c, calls[0].v, calls[0].rand, calls[0].to, calls[0].r);
    if t > 0 {
      var rest := calls[1..];
      NeverTwice(list, calls[0].to, rest, t - 1);
      forall u | 0 <= u < t
        ensures calls[u].r != calls[t].r
      {
        assert calls[t] == rest[t - 1];
        if u > 0 {
          assert calls[u] == rest[u - 1];
        }
      }
    }
  }

  // ----- Exactly once, exactly when -----

  /** The position behind the end can be stored, or nothing unexpired stands from the stored one on. */
  ghost predicate Fits(list: seq<Rr>, v: View) {
    |list| <= MAX_RECORDS || forall k | |list| % 256 <= k < |list| :: !Fresh(list[k], v)
  }

  /** So at a fixed time each call takes one of the unexpired records away, as long as there is one. */
  lemma NextTakes(list: seq<Rr>, c: Cursor, v: View, rand: nat -> nat, c': Cursor, r: Option<nat>)
    requires Fits(list, v) && Placed(list, c) && IsNext(list, c, v, rand, c', r)
    ensures Placed(list, c')
    ensures r.None? ==> Remaining(list, c, v) == Remaining(list, c', v) == {}
    ensures r.Some? ==> r.value in Remaining(list, c, v) && Remaining(list, c', v) == Remaining(list, c, v) - {r.value}
  {
    NextStands(list, c, v, rand, c', r);
    var c1 := Stand(list, c, v, r);
    if c1.no <= MAX_RECORDS {
      StoredSame(c1);
      assert c' == c1;
    } else {
      SettleForgets(list, c, v);
      NothingFrom(list, c', v);
    }
  }

  /** A search that ends at the end of the list has begun a new bitmap, unless it began there. */
  lemma {:induction false} SettleForgets(list: seq<Rr>, c: Cursor, v: View)
    ensures var s := Settle(list, c, v); s.no == |list| ==> s.tried == {} || (c.no >= |list| && s.tried == c.tried)
    decreases |list| - c.no
  {
    if c.no < |list| {
      var g := GroupLen(list, c.no, 0);
      if OpenBelow(list, c, v, g) == 0 {
        SettleForgets(list, Cursor(c.no + g, {}), v);
      }
    }
  }

  lemma NothingFrom(list: seq<Rr>, c: Cursor, v: View)
    requires forall k | c.no <= k < |list| :: !Fresh(list[k], v)
    ensures Remaining(list, c, v) == {}
  {
    forall k: nat | k < |list| && Fresh(list[k], v)
      ensures k in Spent(list, c)
    {
      assert IsSpent(c, k);
    }
  }

  /** At a fixed time every unexpired record is returned, and after the last of them nothing, for ever. */
  lemma {:induction false} ExactlyOnce(list: seq<Rr>, c: Cursor, v: View, calls: seq<Call>)
    requires Fits(list, v) && Placed(list, c) && IsRun(list, c, calls) && forall t | 0 <= t < |calls| :: calls[t].v == v
    ensures forall t | 0 <= t < |calls| :: calls[t].r.Some? <==> t < |Remaining(list, c, v)|
    ensures |calls| >= |Remaining(list, c, v)| ==>
              forall k | k in Remaining(list, c, v) :: exists t | 0 <= t < |calls| :: calls[t].r == Some(k)
    decreases |calls|
  {
    if calls != [] {
      var c1, rest := calls[0].to, calls[1..];
      NextTakes(list, c, v, calls[0].rand, c1, calls[0].r);
      ExactlyOnce(list, c1, v, rest);
      forall t | 0 < t < |calls|
        ensures calls[t].r.Some? <==> t < |Remaining(list, c, v)|
      {
        assert calls[t] == rest[t - 1];
      }
      if |calls| >= |Remaining(list, c, v)| {
        forall k | k in Remaining(list, c, v)
          ensures exists t | 0 <= t < |calls| :: calls[t].r == Some(k)
        {
          if calls[0].r != Some(k) {
            var t :| 0 <= t < |rest| && rest[t].r == Some(k);
            assert calls[t + 1].r == Some(k);
          }
        }
      }
    }
  }

  /** The start of a traversal. */
  const START := Cursor(0, {})

  ghost predicate AllAt(calls: seq<Call>, v: View) {
    forall t | 0 <= t < |calls| :: calls[t].v == v && Bounded(calls[t].rand)
  }

  /** No record twice, nothing after the end, and before it every unexpired record. */
  ghost predicate IsComplete(list: seq<Rr>, v: View, calls: seq<Call>) {
    && (forall t, u | 0 <= t < u < |calls| && calls[t].r.Some? :: calls[u].r != calls[t].r)
    && (forall t, u | 0 <= t < u < |calls| && calls[t].r.None? :: calls[u].r.None?)
    && (forall t, k: nat | 0 <= t < |calls| && calls[t].r.None? && k < |list| && Fresh(list[k], v) ::
          exists u | 0 <= u < t :: calls[u].r == Some(k))
  }

  /** Every traversal of the list at this time is complete. */
  ghost predicate AllComplete(list: seq<Rr>, v: View) {
    forall calls | IsRun(list, START, calls) && AllAt(calls, v) :: IsComplete(list, v, calls)
  }

  lemma {:induction false} TakenFromRest(list: seq<Rr>, c: Cursor, v: View, calls: seq<Call>, t: nat)
    requires Fits(list, v) && Placed(list, c) && IsRun(list, c, calls) && AllAt(calls, v)
    requires t < |calls| && calls[t].r.Some?
    ensures calls[t].r.value in Remaining(list, c, v)
    decreases t
  {
    NextTakes(list, c, v, calls[0].rand, calls[0].to, calls[0].r);
    if t > 0 {
      TakenFromRest(list, calls[0].to, v, calls[1..], t - 1);
    }
  }

  lemma {:induction false} TakenOnce(list: seq<Rr>, c: Cursor, v: View, calls: seq<Call>, t: nat, u: nat)
    requires Fits(list, v) && Placed(list, c) && IsRun(list, c, calls) && AllAt(calls, v)
    requires t < u < |calls| && calls[t].r.Some?
    ensures calls[u].r != calls[t].r
    decreases t
  {
    NextTakes(list, c, v, calls[0].rand, calls[0].to, calls[0].r);
    if t > 0 {
      TakenOnce(list, calls[0].to, v, calls[1..], t - 1, u - 1);
    } else if calls[u].r.Some? {
      TakenFromRest(list, calls[0].to, v, calls[1..], u - 1);
    }
  }

  lemma {:induction false} RunPrefix(list: seq<Rr>, c: Cursor, calls: seq<Call>, n: nat)
    requires IsRun(list, c, calls) && n <= |calls|
    ensures IsRun(list, c, calls[..n])
    decreases n
  {
    if n > 0 {
      RunPrefix(list, calls[0].to, calls[1..], n - 1);
      assert calls[..n][1..] == calls[1..][..n - 1];
    }
  }

  lemma FittingComplete(list: seq<Rr>, v: View, calls: seq<Call>)
    requires Fits(list, v) && IsRun(list, START, calls) && AllAt(calls, v)
    ensures IsComplete(list, v, calls)
  {
    StartOffersAll(list, v);
    ExactlyOnce(list, START, v, calls);
    forall t, u | 0 <= t < u < |calls| && calls[t].r.Some?
      ensures calls[u].r != calls[t].r
    {
      TakenOnce(list, START, v, calls, t, u);
    }
    forall t, k: nat | 0 <= t < |calls| && calls[t].r.None? && k < |list| && Fresh(list[k], v)
      ensures exists u | 0 <= u < t :: calls[u].r == Some(k)
    {
      RunPrefix(list, START, calls, t);
      ExactlyOnce(list, START, v, calls[..t]);
      assert k in Remaining(list, START, v);
    }
  }

  /** A call whose draw is 0. */
  lemma ZeroCall(list: seq<Rr>, c: Cursor, v: View) returns (call: Call)
    ensures call.v == v && call.from == c && Bounded(call.rand) && IsNext(list, c, v, call.rand, call.to, call.r)
  {
    var s, rand := Settle(list, c, v), (m: nat) => 0;
    if s.no == |list| {
      call := Call(v, rand, c, Stored(s), None);
    } else {
      SettleFindsOpen(list, c, v);
      var i: nat := Saved(list, s, v, GroupLen(list, s.no, 0));
      NextIsHere(list, c, v, rand, s, i);
      call := Call(v, rand, c, Stored(Cursor(s.no, s.tried + {i})), Some(s.no + i));
    }
  }

  lemma {:induction false} ZeroRun(list: seq<Rr>, c: Cursor, v: View, n: nat) returns (calls: seq<Call>)
    ensures |calls| == n && IsRun(list, c, calls) && AllAt(calls, v)
    decreases n
  {
    calls := [];
    if n > 0 {
      var call := ZeroCall(list, c, v);
      var rest := ZeroRun(list, call.to, v, n - 1);
      calls := [call] + rest;
      assert calls[1..] == rest;
    }
  }

  /** A call in the middle of a run. */
  lemma {:induction false} RunAt(list: seq<Rr>, c: Cursor, calls: seq<Call>, t: nat)
    requires IsRun(list, c, calls) && t < |calls|
    ensures calls[t].from == if t == 0 then c else calls[t - 1].to
    ensures IsNext(list, calls[t].from, calls[t].v, calls[t].rand, calls[t].to, calls[t].r)
    decreases t
  {
    if t > 0 {
      RunAt(list, calls[0].to, calls[1..], t - 1);
    }
  }

  /**
    In a longer list a call without a record leaves the traversal at a smaller number, and the next
    one finds a record.
   */
  lemma BeginsAgain(list: seq<Rr>, v: View, calls: seq<Call>, t: nat, k: nat)
    requires |list| > MAX_RECORDS && |list| % 256 <= k < |list| && Fresh(list[k], v)
    requires IsRun(list, START, calls) && AllAt(calls, v) && t + 1 < |calls| && calls[t].r.None?
    ensures calls[t + 1].r.Some?
  {
    RunAt(list, START, calls, t);
    RunAt(list, START, calls, t + 1);
    if t > 0 {
      RunAt(list, START, calls, t - 1);
    }
    SettleForgets(list, calls[t].from, v);
    FindsAgain(list, v, k);
  }

  lemma FindsAgain(list: seq<Rr>, v: View, k: nat)
    requires |list| % 256 <= k < |list| && Fresh(list[k], v)
    ensures Settle(list, Cursor(|list| % 256, {}), v).no < |list|
  {
    var c := Cursor(|list| % 256, {});
    SettleSpends(list, c, v);
    assert k in Remaining(list, c, v);
  }

  /** Different numbers below n are n at most. */
  lemma {:induction false} AtMost(rs: seq<Option<nat>>, n: nat)
    requires forall t | 0 <= t < |rs| :: rs[t].Some? && rs[t].value < n
    requires forall t, u | 0 <= t < u < |rs| :: rs[t] != rs[u]
    ensures |rs| <= n
    decreases n
  {
    if i :| 0 <= i < |rs| && rs[i] == Some(n - 1) {
      AtMost(rs[..i] + rs[i + 1..], n - 1);
    } else if rs != [] {
      assert rs[0].value < n;
      AtMost(rs, n - 1);
    }
  }

  /** A longer list is traversed again, or some record comes twice. */
  lemma LongIncomplete(list: seq<Rr>, v: View, k: nat)
    requires |list| > MAX_RECORDS && |list| % 256 <= k < |list| && Fresh(list[k], v)
    ensures !AllComplete(list, v)
  {
    var calls := ZeroRun(list, START, v, |list| + 2);
    if t: nat :| t <= |list| && calls[t].r.None? {
      BeginsAgain(list, v, calls, t, k);
      assert !IsComplete(list, v, calls);
    } else if IsComplete(list, v, calls) {
      var rs := seq(|list| + 1, t requires 0 <= t < |calls| => calls[t].r);
      forall t | 0 <= t < |rs|
        ensures rs[t].Some? && rs[t].value < |list|
      {
        RunAt(list, START, calls, t);
      }
      AtMost(rs, |list|);
      assert false;
    }
  }

  /**
    Exactly when every traversal from the start returns each unexpired record once and then
    nothing: there are 255 records at most, or all that stand from number |list| mod 256 on have
    expired.
   */
  lemma CompleteExactly(list: seq<Rr>, v: View)
    ensures AllComplete(list, v) <==> Fits(list, v)
  {
    if Fits(list, v) {
      forall calls | IsRun(list, START, calls) && AllAt(calls, v)
        ensures IsComplete(list, v, calls)
      {
        FittingComplete(list, v, calls);
      }
    } else {
      var k: nat :| |list| % 256 <= k < |list| && Fresh(list[k], v);
      LongIncomplete(list, v, k);
    }
  }

  ghost predicate SortedByPriority(list: seq<Rr>) {
    forall j, k | 0 <= j <= k < |list| :: Priority(list[j]) <= Priority(list[k])
  }

  /** What a run returns lies at or behind its cursor. */
  lemma {:induction false} NeverBack(list: seq<Rr>, c: Cursor, calls: seq<Call>, t: nat)
    requires |list| <= MAX_RECORDS && Placed(list, c) && IsRun(list, c, calls) && t < |calls| && calls[t].r.Some?
    ensures c.no <= calls[t].r.value < |list|
    decreases t
  {
    NextSpends(list, c, calls[0].v, calls[0].rand, calls[0].to, calls[0].r);
    if t > 0 {
      NeverBack(list, calls[0].to, calls[1..], t - 1);
    }
  }

  /** In a list sorted by priority the records come in the order of their priorities. */
  lemma {:induction false} GroupByGroup(list: seq<Rr>, c: Cursor, calls: seq<Call>, u: nat, t: nat)
    requires |list| <= MAX_RECORDS && Placed(list, c) && IsRun(list, c, calls) && SortedByPriority(list)
    requires u < t < |calls| && calls[u].r.Some? && calls[t].r.Some?
    ensures calls[u].r.value < |list| && calls[t].r.value < |list|
    ensures Priority(list[calls[u].r.value]) <= Priority(list[calls[t].r.value])
    decreases u
  {
    var c1, rest := calls[0].to, calls[1..];
    NextSpends(list, c, calls[0].v, calls[0].rand, c1, calls[0].r);
    assert calls[t] == rest[t - 1];
    if u > 0 {
      assert calls[u] == rest[u - 1];
      GroupByGroup(list, c1, rest, u - 1, t - 1);
    } else {
      NeverBack(list, c1, rest, t - 1);
      GroupPriority(list, c1.no, 0);
      assert Priority(list[calls[0].r.value]) == Priority(list[c1.no]);
    }
  }

  /** A traversal from the start offers all unexpired records. */
  lemma StartOffersAll(list: seq<Rr>, v: View)
    ensures Placed(list, START)
    ensures Remaining(list, START, v) == set k: nat | k < |list| && Fresh(list[k], v)
  {}

  // ----- Keeping the list sorted -----

  /** a must come before b: a smaller priority, or the same and a greater weight. */
  predicate Precedes(a: Rr, b: Rr) {
    Priority(a) < Priority(b) || (Priority(a) == Priority(b) && Weight(a) > Weight(b))
  }

  ghost predicate Sorted(list: seq<Rr>) {
    forall j, k | 0 <= j < k < |list| :: !Precedes(list[k], list[j])
  }

  lemma SortedIsByPriority(list: seq<Rr>)
    requires Sorted(list)
    ensures SortedByPriority(list)
  {
    forall j, k | 0 <= j < k < |list|
      ensures Priority(list[j]) <= Priority(list[k])
    {
      assert !Precedes(list[k], list[j]);
    }
  }

  /** So the records of a list that has been kept sorted come in the order of their priorities. */
  lemma SortedGroupByGroup(list: seq<Rr>, c: Cursor, calls: seq<Call>, u: nat, t: nat)
    requires |list| <= MAX_RECORDS && Placed(list, c) && IsRun(list, c, calls) && Sorted(list)
    requires u < t < |calls| && calls[u].r.Some? && calls[t].r.Some?
    ensures calls[u].r.value < |list| && calls[t].r.value < |list|
    ensures Priority(list[calls[u].r.value]) <= Priority(list[calls[t].r.value])
  {
    SortedIsByPriority(list);
    GroupByGroup(list, c, calls, u, t);
  }

  /** The list without its k-th record. */
  function Others(list: seq<Rr>, k: nat): seq<Rr>
    requires k < |list|
  {
    list[..k] + list[k + 1..]
  }

  /** `dns_cache_add_record` puts record k, new or changed, where it belongs among the others. */
  method Reorder(list: seq<Rr>, k: nat) returns (r: seq<Rr>, p: nat)
    requires k < |list|
    ensures p < |r| == |list| && r[p] == list[k] && r[..p] + r[p + 1..] == list[..k] + list[k + 1..]
    ensures Sorted(Others(list, k)) ==> Sorted(r)
  {
    var x, i := list[k], 0;
    while i < |list| && (i == k || !Precedes(x, list[i]))
      invariant 0 <= i <= |list|
      invariant forall j | 0 <= j < i && j != k :: !Precedes(x, list[j])
    {
      i := i + 1;
    }
    var rest := Others(list, k);
    p := if i <= k then i else i - 1;
    r := rest[..p] + [x] + rest[p..];
    assert Others(r, p) == rest;
    if Sorted(rest) {
      InsertSorted(rest, x, p);
    }
  }

  lemma InsertSorted(rest: seq<Rr>, x: Rr, p: nat)
    requires p <= |rest| && Sorted(rest)
    requires forall j | 0 <= j < p :: !Precedes(x, rest[j])
    requires p < |rest| ==> Precedes(x, rest[p])
    ensures Sorted(rest[..p] + [x] + rest[p..])
  {
    var r := rest[..p] + [x] + rest[p..];
    forall j, k | 0 <= j < k < |r|
      ensures !Precedes(r[k], r[j])
    {
      if j == p {
        assert r[k] == rest[k - 1] && (k - 1 == p || !Precedes(rest[k - 1], rest[p]));
      }
    }
  }
}
