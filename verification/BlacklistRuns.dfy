/**
  Whole runs of the blacklist: reports, searches, deletions, cleanings and flushes in any order,
  at times that do not decrease.  The answers are those of the plain list that never purges.
 */
module BlacklistRuns {
  import opened Options
  import opened Blacklist
  import opened BlacklistTable
  import Laws = BlacklistLaws

  datatype Op =
    | AddOp(errFlags: set<Flag>, d: Dst, timeout: int, maxMem: int, cleanTime: int, ticks: nat -> int, malloc: bool)
    | SearchOp(d: Dst, now: int)
    | DeleteOp(d: Dst, now: int)
    | CleanOp(target: int, delta: nat, limit: int, ticks: nat -> int)
    | FlushOp(now: int)

  datatype Answer = Added(ret: int) | Flags(flags: set<Flag>) | Deleted(found: bool) | Done

  /** When an operation begins. */
  function Begin(op: Op): int {
    match op
    case AddOp(_, _, _, _, _, ticks, _) => ticks(0)
    case SearchOp(_, now) => now
    case DeleteOp(_, now) => now
    case CleanOp(_, _, _, ticks) => ticks(0)
    case FlushOp(now) => now
  }

  /** The clock does not run backwards during an operation, and has not passed t when it ends. */
  ghost predicate EndsBy(op: Op, t: int) {
    match op
    case AddOp(_, _, _, _, _, ticks, _) => Ticking(ticks) && forall r: nat :: ticks(r) <= t
    case CleanOp(_, delta, _, ticks) => Ticking(ticks) && forall r: nat :: ticks(r) + delta <= t
    case _ => Begin(op) <= t
  }

  ghost predicate InOrder(ops: seq<Op>) {
    forall i | 0 <= i < |ops| - 1 :: EndsBy(ops[i], Begin(ops[i + 1]))
  }

  /** What the plain list answers; only whether a new destination is let in depends on memory. */
  ghost predicate Answers(s: seq<Entry>, op: Op, a: Answer) {
    match op
    case AddOp(_, d, _, _, _, ticks, _) =>
      a.Added? && a.ret in {0, -1, -2} && (LookUp(s, d, ticks(0)).Some? ==> a.ret == 0)
    case SearchOp(d, now) => a == Flags(match LookUp(s, d, now) case None => {} case Some(f) => f)
    case DeleteOp(d, now) => a == Deleted(LookUp(s, d, now).Some?)
    case CleanOp(_, _, _, _) => a == Done
    case FlushOp(_) => a == Done
  }

  /** What the plain list becomes. */
  function After(s: seq<Entry>, op: Op, a: Answer): seq<Entry> {
    match op
    case AddOp(errFlags, d, timeout, _, _, ticks, _) =>
      if a == Added(0) then Report(s, d, ticks(0), WithType(errFlags, d.v6), ticks(0) + timeout) else s
    case SearchOp(_, _) => s
    case DeleteOp(d, now) => if LookUp(s, d, now).Some? then Delete(s, d, now) else s
    case CleanOp(_, _, _, _) => s
    case FlushOp(_) => OnlyPermanent(s)
  }

  /** The plain list after the first n operations. */
  function ListAt(s: seq<Entry>, ops: seq<Op>, answers: seq<Answer>, n: nat): seq<Entry>
    requires n <= |ops| && n <= |answers|
  {
    if n == 0 then s else After(ListAt(s, ops, answers, n - 1), ops[n - 1], answers[n - 1])
  }

  lemma {:induction false} ListAtPrefix(s: seq<Entry>, ops: seq<Op>, answers: seq<Answer>, more: seq<Answer>, n: nat)
    requires n <= |ops| && n <= |answers| && answers <= more
    ensures ListAt(s, ops, answers, n) == ListAt(s, ops, more, n)
  {
    if n > 0 {
      ListAtPrefix(s, ops, answers, more, n - 1);
    }
  }

  /** Answer i is that of the plain list. */
  ghost predicate AnsweredAt(s: seq<Entry>, ops: seq<Op>, answers: seq<Answer>, i: nat)
    requires i < |answers| <= |ops|
  {
    Answers(ListAt(s, ops, answers, i), ops[i], answers[i])
  }

  /** All answers so far are those of the plain list. */
  ghost predicate AllAnswered(s: seq<Entry>, ops: seq<Op>, answers: seq<Answer>) {
    |answers| <= |ops| && forall i | 0 <= i < |answers| :: AnsweredAt(s, ops, answers, i)
  }

  lemma AnsweredStill(s: seq<Entry>, ops: seq<Op>, answers: seq<Answer>, more: seq<Answer>, i: nat)
    requires AllAnswered(s, ops, answers) && i < |answers| && answers <= more && |more| <= |ops|
    ensures AnsweredAt(s, ops, more, i)
  {
    ListAtPrefix(s, ops, answers, more, i);
    assert AnsweredAt(s, ops, answers, i);
  }

  lemma ListAtLast(s: seq<Entry>, ops: seq<Op>, answers: seq<Answer>, a: Answer)
    requires |answers| < |ops|
    ensures var more, n := answers + [a], |answers|;
            && ListAt(s, ops, more, n) == ListAt(s, ops, answers, n)
            && ListAt(s, ops, more, n + 1) == After(ListAt(s, ops, answers, n), ops[n], a)
  {
    ListAtPrefix(s, ops, answers, answers + [a], |answers|);
  }

  lemma AnsweredLast(s: seq<Entry>, ops: seq<Op>, answers: seq<Answer>, a: Answer)
    requires |answers| < |ops| && Answers(ListAt(s, ops, answers, |answers|), ops[|answers|], a)
    ensures AnsweredAt(s, ops, answers + [a], |answers|)
  {
    ListAtPrefix(s, ops, answers, answers + [a], |answers|);
  }

  lemma AnsweredMore(s: seq<Entry>, ops: seq<Op>, answers: seq<Answer>, a: Answer)
    requires AllAnswered(s, ops, answers) && |answers| < |ops|
    requires Answers(ListAt(s, ops, answers, |answers|), ops[|answers|], a)
    ensures AllAnswered(s, ops, answers + [a])
  {
    var more := answers + [a];
    forall i | 0 <= i < |more|
      ensures AnsweredAt(s, ops, more, i)
    {
      if i < |answers| {
        AnsweredStill(s, ops, answers, more, i);
      } else {
        AnsweredLast(s, ops, answers, a);
      }
    }
  }

  /** One operation on the table. */
  method Perform(t: Table, op: Op, ghost end: int) returns (a: Answer)
    requires t.Valid() && t.clock <= Begin(op) && EndsBy(op, end)
    modifies t`buckets, t`counts, t`memUsed, t`start, t`clock, t`ref
    ensures t.Valid() && t.clock <= end
    ensures Answers(old(t.ref), op, a) && t.ref == After(old(t.ref), op, a)
  {
    match op
    case AddOp(errFlags, d, timeout, maxMem, cleanTime, ticks, malloc) =>
      var ret := t.AddIp(errFlags, d, timeout, maxMem, cleanTime, ticks, malloc);
      a := Added(ret);
    case SearchOp(d, now) =>
      var flags := t.IsBlacklisted(d, now);
      a := Flags(flags);
    case DeleteOp(d, now) =>
      var found := t.Del(d, now);
      a := Deleted(found);
    case CleanOp(target, delta, limit, ticks) =>
      var no, stopped, end := t.CleanExpired(target, delta, limit, ticks);
      a := Done;
    case FlushOp(now) =>
      t.Flush();
      a := Done;
  }

  /** When the operation after the i-th begins; for the last, any time by which it has ended. */
  ghost function Until(ops: seq<Op>, i: nat, end: int): int {
    if i + 1 < |ops| then Begin(ops[i + 1]) else end
  }

  /** Any run of the table gives the answers of the plain list, and ends in agreement with it. */
  method Run(t: Table, ops: seq<Op>, ghost end: int) returns (answers: seq<Answer>)
    requires t.Valid() && InOrder(ops) && (ops != [] ==> t.clock <= Begin(ops[0]) && EndsBy(ops[|ops| - 1], end))
    modifies t`buckets, t`counts, t`memUsed, t`start, t`clock, t`ref
    ensures t.Valid() && |answers| == |ops| && AllAnswered(old(t.ref), ops, answers)
    ensures t.ref == ListAt(old(t.ref), ops, answers, |ops|)
  {
    answers := [];
    while |answers| < |ops|
      invariant |answers| <= |ops| && AllAnswered(old(t.ref), ops, answers)
      invariant t.Valid() && t.ref == ListAt(old(t.ref), ops, answers, |answers|)
      invariant |answers| < |ops| ==> t.clock <= Begin(ops[|answers|])
    {
      var i := |answers|;
      var a := Perform(t, ops[i], Until(ops, i, end));
      AnsweredMore(old(t.ref), ops, answers, a);
      ListAtLast(old(t.ref), ops, answers, a);
      answers := answers + [a];
    }
  }

  // ----- A reported destination is found -----

  /** The operation is not about the address, the port and the family of the destination, and no flush. */
  predicate IsElsewhere(op: Op, d: Dst) {
    match op
    case AddOp(_, other, _, _, _, _, _) => other.addr != d.addr || other.port != d.port || other.v6 != d.v6
    case SearchOp(_, _) => true
    case DeleteOp(other, _) => other.addr != d.addr || other.port != d.port || other.v6 != d.v6
    case CleanOp(_, _, _, _) => true
    case FlushOp(_) => false
  }

  lemma ElsewhereKeeps(s: seq<Entry>, op: Op, a: Answer, d: Dst, flags: set<Flag>, from: int, until: int)
    requires IsElsewhere(op, d) && Laws.IsListed(s, d, flags, from, until)
    ensures Laws.IsListed(After(s, op, a), d, flags, from, until)
  {
    match op
    case AddOp(errFlags, other, timeout, _, _, ticks, _) =>
      Laws.ReportLists(s, other, ticks(0), WithType(errFlags, other.v6), ticks(0) + timeout);
    case DeleteOp(other, now) =>
      if LookUp(s, other, now).Some? {
        Laws.DeletionSpares(s, other, now);
      }
    case _ =>
  }

  lemma {:induction false} StaysListed(s: seq<Entry>, ops: seq<Op>, answers: seq<Answer>, i: nat, j: nat, d: Dst,
                                       flags: set<Flag>, from: int, until: int)
    requires i <= j <= |ops| == |answers| && forall k | i <= k < j :: IsElsewhere(ops[k], d)
    requires Laws.IsListed(ListAt(s, ops, answers, i), d, flags, from, until)
    ensures Laws.IsListed(ListAt(s, ops, answers, j), d, flags, from, until)
    decreases j - i
  {
    if i < j {
      StaysListed(s, ops, answers, i, j - 1, d, flags, from, until);
      ElsewhereKeeps(ListAt(s, ops, answers, j - 1), ops[j - 1], answers[j - 1], d, flags, from, until);
    }
  }

  /**
    In every run a search before the report expires finds the destination, with the flags reported, if
    nothing in between was about this destination and there was no flush; whatever has been cleaned.
   */
  lemma ReportedIsFound(s: seq<Entry>, ops: seq<Op>, answers: seq<Answer>, i: nat, j: nat, now: int)
    requires AllAnswered(s, ops, answers) && |ops| == |answers| && i < j < |ops|
    requires ops[i].AddOp? && answers[i] == Added(0) && ops[j] == SearchOp(ops[i].d, now)
    requires ops[i].ticks(0) <= now < ops[i].ticks(0) + ops[i].timeout
    requires forall k | i < k < j :: IsElsewhere(ops[k], ops[i].d)
    ensures answers[j].Flags? && ops[i].errFlags - {IsIpv6} <= answers[j].flags
  {
    var d, flags, from, until := ops[i].d, ops[i].errFlags - {IsIpv6}, Begin(ops[i]), Begin(ops[i]) + ops[i].timeout;
    AddLists(ListAt(s, ops, answers, i), ops[i]);
    StaysListed(s, ops, answers, i + 1, j, d, flags, from, until);
    assert AnsweredAt(s, ops, answers, j);
    SearchFinds(ListAt(s, ops, answers, j), d, now, answers[j], flags, from, until);
  }

  lemma AddLists(s: seq<Entry>, op: Op)
    requires op.AddOp?
    ensures Laws.IsListed(After(s, op, Added(0)), op.d, op.errFlags - {IsIpv6}, Begin(op), Begin(op) + op.timeout)
  {
    Laws.ReportLists(s, op.d, op.ticks(0), WithType(op.errFlags, op.d.v6), op.ticks(0) + op.timeout);
  }

  lemma SearchFinds(s: seq<Entry>, d: Dst, now: int, a: Answer, flags: set<Flag>, from: int, until: int)
    requires Answers(s, SearchOp(d, now), a) && Laws.IsListed(s, d, flags, from, until) && from <= now < until
    ensures a.Flags? && flags <= a.flags
  {}

  // ----- Cleaning cannot be observed -----

  /** The operations, with their answers, that are not cleanings. */
  function Visible(ops: seq<Op>, answers: seq<Answer>): (r: (seq<Op>, seq<Answer>))
    requires |ops| == |answers|
    ensures |r.0| == |r.1|
  {
    if ops == [] then ([], [])
    else
      var n := |ops| - 1;
      var v := Visible(ops[..n], answers[..n]);
      if ops[n].CleanOp? then v else (v.0 + [ops[n]], v.1 + [answers[n]])
  }

  lemma {:induction false} ListAtShort(s: seq<Entry>, ops: seq<Op>, answers: seq<Answer>, more: seq<Op>, n: nat)
    requires n <= |ops| && n <= |answers| && ops <= more
    ensures ListAt(s, ops, answers, n) == ListAt(s, more, answers, n)
  {
    if n > 0 {
      ListAtShort(s, ops, answers, more, n - 1);
    }
  }

  lemma AnsweredShort(s: seq<Entry>, ops: seq<Op>, answers: seq<Answer>, n: nat)
    requires AllAnswered(s, ops, answers) && |ops| == |answers| && n <= |ops|
    ensures AllAnswered(s, ops[..n], answers[..n]) && ListAt(s, ops[..n], answers[..n], n) == ListAt(s, ops, answers, n)
  {
    forall i | 0 <= i <= n
      ensures ListAt(s, ops[..n], answers[..n], i) == ListAt(s, ops, answers, i)
    {
      ListAtPrefix(s, ops[..n], answers[..n], answers, i);
      ListAtShort(s, ops[..n], answers, ops, i);
    }
    forall i | 0 <= i < n
      ensures AnsweredAt(s, ops[..n], answers[..n], i)
    {
      assert AnsweredAt(s, ops, answers, i);
    }
  }

  /** The other answers of a run are right, and its list is the same, without the cleanings. */
  lemma {:induction false} CleaningUnseen(s: seq<Entry>, ops: seq<Op>, answers: seq<Answer>)
    requires |ops| == |answers| && AllAnswered(s, ops, answers)
    ensures var v := Visible(ops, answers);
            AllAnswered(s, v.0, v.1) && ListAt(s, v.0, v.1, |v.0|) == ListAt(s, ops, answers, |ops|)
    decreases |ops|
  {
    if ops != [] {
      var n := |ops| - 1;
      AnsweredShort(s, ops, answers, n);
      CleaningUnseen(s, ops[..n], answers[..n]);
      var v := Visible(ops[..n], answers[..n]);
      assert AnsweredAt(s, ops, answers, n);
      if !ops[n].CleanOp? {
        VisibleMore(s, v.0, v.1, ops[n], answers[n]);
      }
    }
  }

  lemma VisibleMore(s: seq<Entry>, ops: seq<Op>, answers: seq<Answer>, op: Op, a: Answer)
    requires |ops| == |answers| && AllAnswered(s, ops, answers) && Answers(ListAt(s, ops, answers, |ops|), op, a)
    ensures AllAnswered(s, ops + [op], answers + [a])
    ensures ListAt(s, ops + [op], answers + [a], |ops| + 1) == After(ListAt(s, ops, answers, |ops|), op, a)
  {
    var more := ops + [op];
    forall i | 0 <= i <= |ops|
      ensures ListAt(s, more, answers, i) == ListAt(s, ops, answers, i)
    {
      ListAtShort(s, ops, answers, more, i);
    }
    forall i | 0 <= i < |answers|
      ensures AnsweredAt(s, more, answers, i)
    {
      assert AnsweredAt(s, ops, answers, i);
    }
    AnsweredMore(s, more, answers, a);
    ListAtLast(s, more, answers, a);
  }
}
