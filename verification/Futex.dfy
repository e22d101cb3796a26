/**
  The three-state futex mutex (futexlock.h) as a state machine.

  Any number of processes call `futex_get`, `futex_try` and `futex_release` on one lock word
  (0 free, 1 held, 2 held and possibly waited for).  Every atomic operation and every system
  call is one step, steps of different processes interleave freely, and a sleeper may wake up
  without a FUTEX_WAKE.
 */
module Futex {

  type Process = nat

  /** Where a process is; the argument of `Compare` is the number of busy-wait retries left. */
  datatype Control =
    | Idle                  // outside the lock functions, not holding the lock
    | Compare(spins: nat)   // futex_get: about to compare-and-exchange 0 with 1
    | TryCompare            // futex_try: about to compare-and-exchange 0 with 1
    | Swap                  // futex_get: about to exchange the word with 2
    | Wait                  // futex_get: about to enter FUTEX_WAIT
    | Asleep                // futex_get: queued in the kernel
    | Holding               // owns the lock
    | Wake                  // futex_release: the word was 2, FUTEX_WAKE not yet issued

  datatype State = State(word: int, pc: map<Process, Control>)

  const ADAPTIVE_WAIT_LOOPS := 1024

  ghost predicate Init(s: State) {
    s.word == 0 && forall p <- s.pc :: s.pc[p] == Idle
  }

  /** Process p moves to control point c and leaves the word at w. */
  function Move(s: State, p: Process, c: Control, w: int): State {
    State(w, s.pc[p := c])
  }

  /** `futex_get` up to its first exchange: one compare-and-exchange. */
  function CompareExchange(s: State, p: Process, spins: nat): State {
    if s.word == 0 then Move(s, p, Holding, 1)
    else if s.word == 2 then Move(s, p, Wait, s.word)
    else if spins > 0 then Move(s, p, Compare(spins - 1), s.word)
    else Move(s, p, Swap, s.word)
  }

  function TryExchange(s: State, p: Process): State {
    if s.word == 0 then Move(s, p, Holding, 1) else Move(s, p, Idle, s.word)
  }

  function GetAndSetTwo(s: State, p: Process): State {
    Move(s, p, if s.word == 0 then Holding else Wait, 2)
  }

  function Release(s: State, p: Process): State {
    Move(s, p, if s.word == 2 then Wake else Idle, 0)
  }

  /** FUTEX_WAKE with count 1: the kernel wakes one sleeper of its choice, if there is any. */
  ghost predicate WakeOne(s: State, p: Process, s': State)
    requires p in s.pc
  {
    if exists q <- s.pc :: s.pc[q] == Asleep
    then exists q <- s.pc :: s.pc[q] == Asleep && s' == State(s.word, s.pc[p := Idle][q := Swap])
    else s' == Move(s, p, Idle, s.word)
  }

  /** One step of process p. */
  ghost predicate StepOf(s: State, p: Process, s': State) {
    && p in s.pc
    && match s.pc[p]
       case Idle => s' == Move(s, p, Compare(ADAPTIVE_WAIT_LOOPS), s.word) || s' == Move(s, p, TryCompare, s.word)
       case Compare(spins) => s' == CompareExchange(s, p, spins)
       case TryCompare => s' == TryExchange(s, p)
       case Swap => s' == GetAndSetTwo(s, p)
       // FUTEX_WAIT sleeps only if the word is still 2, and may return early in any case
       case Wait => (s.word == 2 && s' == Move(s, p, Asleep, s.word)) || s' == Move(s, p, Swap, s.word)
       case Asleep => s' == Move(s, p, Swap, s.word)   // spurious wake-up
       case Holding => s' == Release(s, p)
       case Wake => WakeOne(s, p, s')
  }

  ghost predicate Step(s: State, s': State) {
    exists p :: StepOf(s, p, s')
  }

  /** Mutual exclusion, and the word is non-zero exactly while somebody is inside. */
  ghost predicate Exclusive(s: State) {
    && s.word in {0, 1, 2}
    && (s.word != 0 <==> exists p <- s.pc :: s.pc[p] == Holding)
    && forall p, q | p in s.pc && q in s.pc && s.pc[p] == Holding && s.pc[q] == Holding :: p == q
  }

  /** p has promised to take care of the sleepers: it will wake one, or it will store 2. */
  ghost predicate Responsible(s: State, p: Process) {
    p in s.pc && (s.pc[p] == Wake || s.pc[p] == Swap)
  }

  ghost predicate NoLostWakeUp(s: State) {
    (exists q <- s.pc :: s.pc[q] == Asleep) ==> s.word == 2 || exists p :: Responsible(s, p)
  }

  ghost predicate Inv(s: State) {
    Exclusive(s) && NoLostWakeUp(s)
  }

  lemma HolderLeaves(s: State, p: Process)
    requires Exclusive(s) && p in s.pc && s.pc[p] == Holding
    ensures Exclusive(Release(s, p))
  {
    assert forall q <- Release(s, p).pc :: Release(s, p).pc[q] != Holding;
  }

  lemma GetterEnters(s: State, p: Process, w: int)
    requires Exclusive(s) && p in s.pc && s.word == 0 && w in {1, 2}
    ensures Exclusive(Move(s, p, Holding, w))
  {
    assert Move(s, p, Holding, w).pc[p] == Holding;
  }

  lemma SameHolder(s: State, s': State)
    requires Exclusive(s) && s'.pc.Keys == s.pc.Keys && s'.word in {0, 1, 2} && (s'.word == 0 <==> s.word == 0)
    requires forall q <- s.pc :: s.pc[q] == Holding <==> s'.pc[q] == Holding
    ensures Exclusive(s')
  {}

  lemma ExclusiveStep(s: State, p: Process, s': State)
    requires Exclusive(s) && StepOf(s, p, s')
    ensures Exclusive(s')
  {
    if s.pc[p] == Holding {
      HolderLeaves(s, p);
    } else if s'.pc[p] == Holding {
      GetterEnters(s, p, s'.word);
    } else {
      SameHolder(s, s');
    }
  }

  lemma NoLostWakeUpStep(s: State, p: Process, s': State)
    requires Inv(s) && StepOf(s, p, s')
    ensures NoLostWakeUp(s')
  {
    if q :| q in s'.pc && s'.pc[q] == Asleep && s'.word != 2 {
      match s.pc[p]
      case Holding =>
        if s.word == 2 {
          assert Responsible(s', p);
        } else {
          assert s.pc[q] == Asleep;
          var r :| Responsible(s, r);
          assert Responsible(s', r);
        }
      case Wake =>
        var r :| r in s.pc && s.pc[r] == Asleep && s' == State(s.word, s.pc[p := Idle][r := Swap]);
        assert Responsible(s', r);
      case Wait =>
        assert Responsible(s', p);
      case Asleep =>
        assert Responsible(s', p);
      case Swap =>
      case _ =>
        assert s.pc[q] == Asleep;
        var r :| Responsible(s, r);
        assert Responsible(s', r);
    }
  }

  /** A finite execution from the initial state. */
  ghost predicate IsRun(run: seq<State>) {
    && |run| > 0
    && Init(run[0])
    && forall i | 0 <= i < |run| - 1 :: Step(run[i], run[i + 1])
  }

  /** Every state of every execution satisfies both invariants. */
  lemma {:induction false} RunInvariant(run: seq<State>, n: nat)
    requires IsRun(run) && n < |run|
    ensures Inv(run[n])
  {
    if n > 0 {
      RunInvariant(run, n - 1);
      assert Step(run[n - 1], run[n - 1 + 1]);
      var p :| StepOf(run[n - 1], p, run[n]);
      ExclusiveStep(run[n - 1], p, run[n]);
      NoLostWakeUpStep(run[n - 1], p, run[n]);
    }
  }

  /** `futex_get`, `futex_try` and `futex_release` never let two processes inside. */
  lemma MutualExclusion(run: seq<State>, n: nat, p: Process, q: Process)
    requires IsRun(run) && n < |run|
    requires p in run[n].pc && q in run[n].pc && run[n].pc[p] == Holding && run[n].pc[q] == Holding
    ensures p == q && (run[n].word == 1 || run[n].word == 2)
  {
    RunInvariant(run, n);
  }

  /** A process that is after the lock gets it with its next exchange if and only if the lock is free. */
  lemma TakenExactly(run: seq<State>, n: nat, p: Process, s: State)
    requires IsRun(run) && n < |run| && StepOf(run[n], p, s)
    requires run[n].pc[p] in {TryCompare, Swap} || run[n].pc[p].Compare?
    ensures s.pc[p] == Holding <==> forall q <- run[n].pc :: run[n].pc[q] != Holding
    ensures s.pc[p] == Holding ==> s.word != 0
    ensures run[n].pc[p] == TryCompare && s.pc[p] != Holding ==> s.pc[p] == Idle && s.word == run[n].word
  {
    RunInvariant(run, n);
  }

  /** The owner always gives the lock up with its next step, and owes a wake-up if somebody may sleep. */
  lemma GivenUp(run: seq<State>, n: nat, p: Process, s: State)
    requires IsRun(run) && n < |run| && StepOf(run[n], p, s) && run[n].pc[p] == Holding
    ensures s.word == 0 && forall q <- s.pc :: s.pc[q] != Holding
    ensures (exists q <- run[n].pc :: run[n].pc[q] == Asleep) ==> exists r <- s.pc :: s.pc[r] == Wake || s.pc[r] == Swap
  {
    RunInvariant(run, n);
    NoLostWakeUpStep(run[n], p, s);
    assert s.word == 0;
    if q :| q in run[n].pc && run[n].pc[q] == Asleep {
      assert s.pc[q] == Asleep;
      var r :| Responsible(s, r);
      assert r in s.pc;
    }
  }

  /**
    A sleeper is never stranded: whenever some process sleeps, some other process is awake
    that owns the lock, still owes a FUTEX_WAKE, or is about to store 2.
   */
  lemma SleeperNotStranded(run: seq<State>, n: nat, q: Process) returns (p: Process)
    requires IsRun(run) && n < |run|
    requires q in run[n].pc && run[n].pc[q] == Asleep
    ensures p in run[n].pc && p != q
    ensures run[n].pc[p] == Wake || run[n].pc[p] == Swap || (run[n].pc[p] == Holding && run[n].word == 2)
  {
    RunInvariant(run, n);
    if r :| Responsible(run[n], r) {
      p := r;
    } else {
      p :| p in run[n].pc && run[n].pc[p] == Holding;
    }
  }

  /**
    Hand-over: if the lock is free while q sleeps, then at most two further steps of awake
    processes put the lock into the hands of a process that called `futex_get`; the word is
    then 2, so the new owner's release will wake the next sleeper.
   */
  lemma HandOver(run: seq<State>, n: nat, q: Process) returns (steps: seq<State>, winner: Process)
    requires IsRun(run) && n < |run|
    requires run[n].word == 0 && q in run[n].pc && run[n].pc[q] == Asleep
    ensures 1 <= |steps| <= 2 && IsRun(run[..n + 1] + steps)
    ensures var last := steps[|steps| - 1];
            last.word == 2 && winner in last.pc && last.pc[winner] == Holding
  {
    var s := run[n];
    RunInvariant(run, n);
    var p :| Responsible(s, p);
    if s.pc[p] == Swap {
      steps, winner := [GetAndSetTwo(s, p)], p;
      assert StepOf(s, p, steps[0]);
    } else {
      var s1 := State(s.word, s.pc[p := Idle][q := Swap]);
      assert StepOf(s, p, s1);
      assert s1.pc[q] == Swap;
      steps, winner := [s1, GetAndSetTwo(s1, q)], q;
      assert StepOf(s1, q, steps[1]);
    }
    Extend(run, n, steps);
  }

  lemma Extend(run: seq<State>, n: nat, steps: seq<State>)
    requires IsRun(run) && n < |run| && |steps| > 0
    requires Step(run[n], steps[0])
    requires forall i | 0 <= i < |steps| - 1 :: Step(steps[i], steps[i + 1])
    ensures IsRun(run[..n + 1] + steps)
  {
    var r := run[..n + 1] + steps;
    forall i | 0 <= i < |r| - 1
      ensures Step(r[i], r[i + 1])
    {
      if i < n {
        assert r[i] == run[i] && r[i + 1] == run[i + 1];
      } else if i > n {
        assert r[i] == steps[i - n - 1] && r[i + 1] == steps[i - n - 1 + 1];
      }
    }
  }
}
