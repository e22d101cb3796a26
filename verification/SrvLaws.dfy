/**
  What the two traversals of a record list mean, in terms of the fields of its records alone: which
  records may be returned, where a priority group ends, and how often a record is returned when the
  random number is drawn.  Nothing here is used by the traversals themselves.
 */
module SrvLaws {
  import opened Options
  import opened DnsTable
  import opened SrvSelect
  import opened RecordOrder

  // ----- The fields -----

  /** A record that may be returned: permanent, or not yet expired; with the servers down every one may. */
  predicate Usable(rr: Rr, v: View) {
    v.permanent || !v.serversUp || v.now < rr.expire
  }

  function PriorityOf(rr: Rr): int {
    match rr.rdata case Srv(priority, _, _, _) => priority case _ => 0
  }

  function WeightOf(rr: Rr): int {
    match rr.rdata case Srv(_, weight, _, _) => weight case _ => 0
  }

  /** The records from n to m are of one priority and no more can be added: 16 fill the bitmap. */
  ghost predicate IsGroup(list: seq<Rr>, n: nat, m: nat) {
    && n < m <= |list| && m - n <= 16
    && (forall k | n <= k < m :: PriorityOf(list[k]) == PriorityOf(list[n]))
    && (m - n == 16 || m == |list| || PriorityOf(list[m]) != PriorityOf(list[n]))
  }

  /** Record k of the group at n has not been tried and may be returned. */
  predicate Candidate(list: seq<Rr>, n: nat, tried: set<nat>, v: View, k: nat) {
    n <= k < |list| && Usable(list[k], v) && k - n !in tried
  }

  ghost predicate AnyCandidate(list: seq<Rr>, n: nat, m: nat, tried: set<nat>, v: View) {
    exists k :: n <= k < m && Candidate(list, n, tried, v, k)
  }

  /** Groups without candidates are passed, with a new bitmap; the first other one is from n' to m'. */
  ghost predicate Settles(list: seq<Rr>, n: nat, tried: set<nat>, v: View, n': nat, tried': set<nat>, m': nat)
    decreases |list| - n
  {
    exists m ::
      && IsGroup(list, n, m)
      && if AnyCandidate(list, n, m, tried, v) then n' == n && tried' == tried && m' == m
         else Settles(list, m, {}, v, n', tried', m')
  }

  /** The weight of the candidates from n up to k. */
  function Total(list: seq<Rr>, n: nat, tried: set<nat>, v: View, k: nat): int
    requires n <= k <= |list|
    decreases k
  {
    if k == n then 0
    else Total(list, n, tried, v, k - 1) + if Candidate(list, n, tried, v, k - 1) then WeightOf(list[k - 1]) else 0
  }

  // ----- The group of a call -----

  lemma OpenIsCandidate(list: seq<Rr>, c: Cursor, v: View, i: nat)
    requires c.no + i < |list|
    ensures Open(list, c, v, i) <==> Candidate(list, c.no, c.tried, v, c.no + i)
  {}

  lemma GroupIs(list: seq<Rr>, n: nat, m: nat)
    requires IsGroup(list, n, m)
    ensures m == n + GroupLen(list, n, 0)
  {
    GroupPriority(list, n, 0);
    var g := GroupLen(list, n, 0);
    var atEnd, atMine := n + g < |list| && PriorityOf(list[n + g]) == PriorityOf(list[n]),
                         m < |list| && Priority(list[m]) == Priority(list[n]);
  }

  lemma AnyIsOpen(list: seq<Rr>, c: Cursor, v: View, g: nat)
    requires c.no + g <= |list|
    ensures OpenBelow(list, c, v, g) > 0 <==> AnyCandidate(list, c.no, c.no + g, c.tried, v)
  {
    NoneOpen(list, c, v, g);
    if OpenBelow(list, c, v, g) > 0 {
      var i: nat :| i < g && Open(list, c, v, i);
      assert Candidate(list, c.no, c.tried, v, c.no + i);
    } else {
      forall k | c.no <= k < c.no + g
        ensures !Candidate(list, c.no, c.tried, v, k)
      {
        assert !Open(list, c, v, k - c.no);
      }
    }
  }

  lemma {:induction false} SettlesThere(list: seq<Rr>, c: Cursor, v: View, n: nat, tried: set<nat>, m: nat)
    requires Settles(list, c.no, c.tried, v, n, tried, m)
    ensures IsGroup(list, n, m) && AnyCandidate(list, n, m, tried, v) && Settle(list, c, v) == Cursor(n, tried)
    decreases |list| - c.no
  {
    var m1: nat :| IsGroup(list, c.no, m1)
              && if AnyCandidate(list, c.no, m1, c.tried, v) then n == c.no && tried == c.tried && m == m1
                 else Settles(list, m1, {}, v, n, tried, m);
    GroupIs(list, c.no, m1);
    AnyIsOpen(list, c, v, m1 - c.no);
    if !AnyCandidate(list, c.no, m1, c.tried, v) {
      SettlesThere(list, Cursor(m1, {}), v, n, tried, m);
    }
  }

  lemma {:induction false} TotalIs(list: seq<Rr>, c: Cursor, v: View, i: nat)
    requires c.no + i <= |list|
    ensures WeightBelow(list, c, v, i) == Total(list, c.no, c.tried, v, c.no + i)
  {
    if i > 0 {
      TotalIs(list, c, v, i - 1);
      OpenIsCandidate(list, c, v, i - 1);
    }
  }

  // ----- Which record a draw returns -----

  /** A call at c whose random number between 0 and total is d returns record k. */
  ghost predicate Returns(list: seq<Rr>, c: Cursor, v: View, total: nat, d: nat, k: nat) {
    exists rand: nat -> nat, c' :: rand(total) == d && IsNext(list, c, v, rand, c', Some(k))
  }

  /** At least two records to choose from. */
  ghost predicate TwoCandidates(list: seq<Rr>, n: nat, m: nat, tried: set<nat>, v: View) {
    exists j, k :: n <= j < k < m && Candidate(list, n, tried, v, j) && Candidate(list, n, tried, v, k)
  }

  lemma TwoAreOpen(list: seq<Rr>, c: Cursor, v: View, m: nat)
    requires c.no <= m <= |list| && TwoCandidates(list, c.no, m, c.tried, v)
    ensures OpenBelow(list, c, v, m - c.no) >= 2
  {
    var j, k :| c.no <= j < k < m && Candidate(list, c.no, c.tried, v, j) && Candidate(list, c.no, c.tried, v, k);
    OpenCounts(list, c, v, j - c.no, k - c.no, m - c.no);
  }

  lemma {:induction false} OpenCounts(list: seq<Rr>, c: Cursor, v: View, i: nat, j: nat, g: nat)
    requires i < j < g && c.no + g <= |list| && Open(list, c, v, i) && Open(list, c, v, j)
    ensures OpenBelow(list, c, v, g) >= 2
    decreases g
  {
    if j == g - 1 {
      NoneOpen(list, c, v, j);
    } else {
      OpenCounts(list, c, v, i, j, g - 1);
    }
  }

  /** What the draw d selects among several open records of the group at s. */
  ghost predicate IsDrawn(list: seq<Rr>, s: Cursor, v: View, g: nat, d: nat, i: nat)
    requires s.no + g <= |list|
  {
    i < g && if d == 0 then i == Saved(list, s, v, g) else Hit(list, s, v, d, i)
  }

  lemma SelectedIsDrawn(list: seq<Rr>, s: Cursor, v: View, rand: nat -> nat, i: nat)
    requires s.no < |list| && OpenBelow(list, s, v, GroupLen(list, s.no, 0)) >= 2
    ensures var g := GroupLen(list, s.no, 0);
            Selected(list, s, v, rand, i) <==> IsDrawn(list, s, v, g, rand(WeightBelow(list, s, v, g)), i)
  {}

  /** The group of g records at s, of this total weight, is where a call at c settles, and several are open. */
  ghost predicate IsMet(list: seq<Rr>, c: Cursor, v: View, s: Cursor, g: nat, total: nat) {
    && Settle(list, c, v) == s && s.no < |list| && g == GroupLen(list, s.no, 0)
    && OpenBelow(list, s, v, g) >= 2 && total == WeightBelow(list, s, v, g)
  }

  lemma DrawnIsNext(list: seq<Rr>, c: Cursor, v: View, s: Cursor, g: nat, total: nat, rand: nat -> nat, k: nat)
    requires IsMet(list, c, v, s, g, total) && s.no <= k && IsDrawn(list, s, v, g, rand(total), k - s.no)
    ensures IsNext(list, c, v, rand, Stored(Cursor(s.no, s.tried + {k - s.no})), Some(k))
  {
    SelectedIsDrawn(list, s, v, rand, k - s.no);
    NextIsHere(list, c, v, rand, s, k - s.no);
  }

  lemma DrawnReturns(list: seq<Rr>, c: Cursor, v: View, s: Cursor, g: nat, total: nat, d: nat, k: nat)
    requires IsMet(list, c, v, s, g, total) && s.no <= k && IsDrawn(list, s, v, g, d, k - s.no)
    ensures Returns(list, c, v, total, d, k)
  {
    var rand: nat -> nat := x => d;
    assert rand(total) == d;
    DrawnIsNext(list, c, v, s, g, total, rand, k);
  }

  lemma ReturnsDrawn(list: seq<Rr>, c: Cursor, v: View, s: Cursor, g: nat, total: nat, d: nat, k: nat)
    requires IsMet(list, c, v, s, g, total) && Returns(list, c, v, total, d, k)
    ensures s.no <= k && IsDrawn(list, s, v, g, d, k - s.no)
  {
    var rand: nat -> nat, c' :| rand(total) == d && IsNext(list, c, v, rand, c', Some(k));
    SelectedIsDrawn(list, s, v, rand, k - s.no);
  }

  lemma MeetsThere(list: seq<Rr>, c: Cursor, v: View, n: nat, tried: set<nat>, m: nat)
    requires Settles(list, c.no, c.tried, v, n, tried, m) && n <= m <= |list| && TwoCandidates(list, n, m, tried, v)
    ensures var total := Total(list, n, tried, v, m); total >= 0 && IsMet(list, c, v, Cursor(n, tried), m - n, total)
  {
    SettlesThere(list, c, v, n, tried, m);
    GroupIs(list, n, m);
    TotalIs(list, Cursor(n, tried), v, m - n);
    TwoAreOpen(list, Cursor(n, tried), v, m);
  }

  lemma ReturnsExactly(list: seq<Rr>, c: Cursor, v: View, s: Cursor, g: nat, total: nat, d: nat, k: nat)
    requires IsMet(list, c, v, s, g, total)
    ensures Returns(list, c, v, total, d, k) <==> s.no <= k && IsDrawn(list, s, v, g, d, k - s.no)
  {
    if Returns(list, c, v, total, d, k) {
      ReturnsDrawn(list, c, v, s, g, total, d, k);
    } else if s.no <= k && IsDrawn(list, s, v, g, d, k - s.no) {
      DrawnReturns(list, c, v, s, g, total, d, k);
    }
  }

  /** The draws for which a call returns record k. */
  ghost function DrawsOf(list: seq<Rr>, c: Cursor, v: View, total: int, k: nat): set<int> {
    set d | 1 <= d <= total && Returns(list, c, v, total, d, k)
  }

  lemma DrawsAreHits(list: seq<Rr>, c: Cursor, v: View, s: Cursor, g: nat, total: nat, k: nat)
    requires IsMet(list, c, v, s, g, total)
    ensures DrawsOf(list, c, v, total, k) == if s.no <= k < s.no + g then DrawsFor(list, s, v, total, k - s.no) else {}
  {
    forall d: nat | 1 <= d <= total
      ensures Returns(list, c, v, total, d, k) <==> s.no <= k < s.no + g && Hit(list, s, v, d, k - s.no)
    {
      ReturnsExactly(list, c, v, s, g, total, d, k);
    }
  }

  lemma DrawsAreMany(list: seq<Rr>, c: Cursor, v: View, s: Cursor, g: nat, total: nat, k: nat)
    requires IsMet(list, c, v, s, g, total)
    ensures |DrawsOf(list, c, v, total, k)|
            == if s.no <= k < s.no + g && Candidate(list, s.no, s.tried, v, k) then WeightOf(list[k]) else 0
  {
    DrawsAreHits(list, c, v, s, g, total, k);
    if s.no <= k < s.no + g {
      WeightsAreExact(list, s, v, g, k - s.no);
      OpenIsCandidate(list, s, v, k - s.no);
    }
  }

  /**
    Of the draws from 1 to the total weight of the candidates exactly its weight many return a record,
    and none if it is not a candidate of the group in which the call settles.
   */
  lemma DrawsAreWeights(list: seq<Rr>, c: Cursor, v: View, n: nat, tried: set<nat>, m: nat, k: nat)
    requires Settles(list, c.no, c.tried, v, n, tried, m) && n <= m <= |list| && TwoCandidates(list, n, m, tried, v)
    ensures |DrawsOf(list, c, v, Total(list, n, tried, v, m), k)|
            == if n <= k < m && Candidate(list, n, tried, v, k) then WeightOf(list[k]) else 0
  {
    MeetsThere(list, c, v, n, tried, m);
    DrawsAreMany(list, c, v, Cursor(n, tried), m - n, Total(list, n, tried, v, m), k);
  }

  /** The last candidate of weight 0, or the first candidate if none has weight 0. */
  ghost predicate IsForZero(list: seq<Rr>, n: nat, tried: set<nat>, v: View, m: nat, k: nat)
    requires m <= |list|
  {
    && n <= k < m && Candidate(list, n, tried, v, k)
    && if WeightOf(list[k]) == 0 then forall j | k < j < m && Candidate(list, n, tried, v, j) :: WeightOf(list[j]) != 0
       else forall j | n <= j < m && Candidate(list, n, tried, v, j) :: k <= j && WeightOf(list[j]) != 0
  }

  lemma SavedIsForZero(list: seq<Rr>, s: Cursor, v: View, g: nat)
    requires s.no + g <= |list| && OpenBelow(list, s, v, g) > 0
    ensures Saved(list, s, v, g) >= 0 && IsForZero(list, s.no, s.tried, v, s.no + g, s.no + Saved(list, s, v, g))
  {
    SavedMeans(list, s, v, g);
    var k := s.no + Saved(list, s, v, g);
    OpenIsCandidate(list, s, v, k - s.no);
    forall j | s.no <= j < s.no + g && Candidate(list, s.no, s.tried, v, j)
      ensures if WeightOf(list[k]) == 0 then k < j ==> WeightOf(list[j]) != 0 else k <= j && WeightOf(list[j]) != 0
    {
      OpenIsCandidate(list, s, v, j - s.no);
    }
  }

  lemma OneForZero(list: seq<Rr>, n: nat, tried: set<nat>, v: View, m: nat, j: nat, k: nat)
    requires m <= |list| && IsForZero(list, n, tried, v, m, j) && IsForZero(list, n, tried, v, m, k)
    ensures j == k
  {}

  lemma ZeroIs(list: seq<Rr>, c: Cursor, v: View, s: Cursor, g: nat, total: nat, k: nat)
    requires IsMet(list, c, v, s, g, total)
    ensures Returns(list, c, v, total, 0, k) <==> IsForZero(list, s.no, s.tried, v, s.no + g, k)
  {
    ReturnsExactly(list, c, v, s, g, total, 0, k);
    SavedIsForZero(list, s, v, g);
    if IsForZero(list, s.no, s.tried, v, s.no + g, k) {
      OneForZero(list, s.no, s.tried, v, s.no + g, k, s.no + Saved(list, s, v, g));
    }
  }

  /** A draw of 0 returns exactly that one. */
  lemma ZeroDraw(list: seq<Rr>, c: Cursor, v: View, n: nat, tried: set<nat>, m: nat, k: nat)
    requires Settles(list, c.no, c.tried, v, n, tried, m) && n <= m <= |list| && TwoCandidates(list, n, m, tried, v)
    ensures var total := Total(list, n, tried, v, m);
            total >= 0 && (Returns(list, c, v, total, 0, k) <==> IsForZero(list, n, tried, v, m, k))
  {
    MeetsThere(list, c, v, n, tried, m);
    ZeroIs(list, c, v, Cursor(n, tried), m - n, Total(list, n, tried, v, m), k);
  }

  // ----- Every call -----

  lemma GroupThere(list: seq<Rr>, n: nat)
    requires n < |list|
    ensures IsGroup(list, n, n + GroupLen(list, n, 0))
  {
    GroupPriority(list, n, 0);
  }

  lemma {:induction false} SettleSettles(list: seq<Rr>, c: Cursor, v: View)
    requires Settle(list, c, v).no < |list|
    ensures var s := Settle(list, c, v);
            Settles(list, c.no, c.tried, v, s.no, s.tried, s.no + GroupLen(list, s.no, 0))
    decreases |list| - c.no
  {
    var g := GroupLen(list, c.no, 0);
    GroupThere(list, c.no);
    AnyIsOpen(list, c, v, g);
    if OpenBelow(list, c, v, g) == 0 {
      SettleSettles(list, Cursor(c.no + g, {}), v);
    }
  }

  /** What a call returns is a candidate of the group in which it settles, and marked as tried there. */
  lemma CallReturns(list: seq<Rr>, c: Cursor, v: View, rand: nat -> nat, c': Cursor, k: nat)
    returns (n: nat, tried: set<nat>, m: nat)
    requires IsNext(list, c, v, rand, c', Some(k))
    ensures Settles(list, c.no, c.tried, v, n, tried, m) && n <= k < m <= |list| && Candidate(list, n, tried, v, k)
    ensures c' == Cursor(n % 256, tried + {k - n})
  {
    var s := Settle(list, c, v);
    n, tried, m := s.no, s.tried, s.no + GroupLen(list, s.no, 0);
    SettleSettles(list, c, v);
    SettleFindsOpen(list, c, v);
    SelectedIsOpen(list, s, v, rand, k - n);
    OpenIsCandidate(list, s, v, k - n);
  }

  /** A call returns nothing only if every usable record from its group on has been tried. */
  lemma CallReturnsNothing(list: seq<Rr>, c: Cursor, v: View, rand: nat -> nat, c': Cursor, k: nat)
    requires Placed(list, c) && IsNext(list, c, v, rand, c', None)
    requires c.no <= k < |list| && Usable(list[k], v)
    ensures k - c.no in c.tried
  {
    NextStands(list, c, v, rand, c', None);
    assert k !in Remaining(list, c, v);
  }

  /** Without load balancing: the first usable record from the number of the call on. */
  lemma PlainReturns(list: seq<Rr>, v: View, no: nat, k: nat)
    ensures From(list, v, no) == Some(k) <==>
              no <= k < |list| && Usable(list[k], v) && forall j | no <= j < k :: !Usable(list[j], v)
  {
    if no <= k < |list| && Fresh(list[k], v) {
      FreshStops(list, no, v, k);
    }
  }

  // ----- The order of a list -----

  /** A sorted list: by priority, and the greater weight first. */
  lemma SortedMeans(list: seq<Rr>)
    ensures Sorted(list) <==>
              forall j, k | 0 <= j < k < |list| ::
                PriorityOf(list[j]) < PriorityOf(list[k]) ||
                (PriorityOf(list[j]) == PriorityOf(list[k]) && WeightOf(list[j]) >= WeightOf(list[k]))
  {}
}
