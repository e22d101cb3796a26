/**
  What the per-action hook can see of a run, whatever the script, the routes and the
  environment: nesting stays within ROUTE_MAX_REC_LEV, a while starts at most max_while_loops
  turns; and no action ever starts with BREAK, RETURN or EXIT pending exactly in those environments
  in which no expression exits the script and makes a switch, or a while that may turn, go on.
 */
module ScriptBounds {
  import opened ScriptMachine
  import opened ScriptSemantics

  /** The record has grown from t0 to t by actions of levels from..ROUTE_MAX_REC_LEV. */
  ghost predicate Recorded(t0: seq<Start>, t: seq<Start>, from: nat, tame: bool) {
    && |t0| <= |t| && t[..|t0|] == t0
    && forall k | |t0| <= k < |t| :: from <= t[k].level <= ROUTE_MAX_REC_LEV && (tame ==> t[k].clean)
  }

  /** Expressions that exit the script do not tell a switch to go on, nor a while if it may turn at all. */
  ghost predicate StartsTame(env: Env) {
    forall e, past, last ::
      var v := env.eval(e, past, last);
      Exits(v) ==> v.rc >= 0 && (env.maxLoops >= 1 ==> v.rc != 0 || v.val == 0)
  }

  lemma RecordedTwice(t0: seq<Start>, t1: seq<Start>, t: seq<Start>, from: nat, tame: bool)
    requires Recorded(t0, t1, from, tame) && Recorded(t1, t, from, tame)
    ensures Recorded(t0, t, from, tame)
  {
    assert t[..|t0|] == t[..|t1|][..|t0|];
  }

  lemma {:induction false} RunStarts(env: Env, s: State, list: seq<Action>, tame: bool)
    requires tame ==> StartsTame(env) && (s.recLev == 0 || !Stops(s.flags))
    ensures Recorded(s.trace, Run(env, s, list).st.trace, s.recLev + 1, tame)
    decreases Left(s.recLev), 0
  {
    if s.recLev < ROUTE_MAX_REC_LEV && list != [] {
      var s1 := s.(recLev := s.recLev + 1);
      SeqStarts(env, if s1.recLev == 1 then s1.(flags := NONE, last := 0) else s1, list, tame);
    }
  }

  lemma {:induction false} SeqStarts(env: Env, s: State, list: seq<Action>, tame: bool)
    requires list != [] && 0 < s.recLev <= ROUTE_MAX_REC_LEV
    requires tame ==> StartsTame(env) && !Stops(s.flags)
    ensures Recorded(s.trace, RunSeq(env, s, list).st.trace, s.recLev, tame)
    decreases Left(s.recLev), 3, |list|
  {
    ActStarts(env, s, list[0], tame);
    var r := Act(env, s, list[0]);
    if !r.jumped && !Stops(r.st.flags) && |list| > 1 {
      SeqStarts(env, r.st, list[1..], tame);
      RecordedTwice(s.trace, r.st.trace, RunSeq(env, r.st, list[1..]).st.trace, s.recLev, tame);
    }
  }

  function Noted(s: State, a: Action): seq<Start> {
    s.trace + [Start(a, s.recLev, !Stops(s.flags))]
  }

  lemma {:induction false} ActStarts(env: Env, s0: State, a: Action, tame: bool)
    requires 0 < s0.recLev <= ROUTE_MAX_REC_LEV
    requires tame ==> StartsTame(env) && !Stops(s0.flags)
    ensures Recorded(Noted(s0, a), Act(env, s0, a).st.trace, s0.recLev + 1, tame)
    ensures Recorded(s0.trace, Act(env, s0, a).st.trace, s0.recLev, tame)
    decreases Left(s0.recLev), 2, 1, 0
  {
    var s := s0.(trace := Noted(s0, a));
    assert Recorded(s0.trace, s.trace, s0.recLev, tame);
    match a {
      case Stop(_, _) =>
      case Module(_) =>
      case Eval(_) =>
      case Route(i) =>
        if 0 <= i < |env.routes| {
          RunStarts(env, s, env.routes[i], tame);
        }
      case If(e, yes, no) =>
        BranchStarts(env, s, e, yes, no, tame);
      case Switch(e, cases, def) =>
        SelectStarts(env, s, e, cases, def, tame);
      case Block(body) =>
        RunStarts(env, s, body, tame);
        assert RunCatching(env, s, body).st.trace == Run(env, s, body).st.trace;
      case While(e, body) =>
        LoopStarts(env, s, e, body, 0, 1, NONE, tame);
    }
    RecordedTwice(s0.trace, s.trace, Act(env, s0, a).st.trace, s0.recLev, tame);
  }

  lemma BranchStarts(env: Env, s: State, e: nat, yes: seq<Action>, no: seq<Action>, tame: bool)
    requires s.recLev > 0 && (tame ==> StartsTame(env) && !Stops(s.flags))
    ensures Recorded(s.trace, Branch(env, s, e, yes, no).st.trace, s.recLev + 1, tame)
    decreases Left(s.recLev), 2, 0, 0
  {
    var v, s1 := env.eval(e, s.past, s.last), Look(env, s, e);
    if !s1.flags.exit {
      var branch := if v.rc == 0 && v.val > 0 then yes else no;
      RunStarts(env, s1.(flags := s1.flags.(ret := false, brk := false)), branch, tame);
    }
  }

  lemma SelectStarts(env: Env, s: State, e: nat, cases: seq<Case>, def: seq<Action>, tame: bool)
    requires s.recLev > 0 && (tame ==> StartsTame(env) && !Stops(s.flags))
    ensures Recorded(s.trace, Select(env, s, e, cases, def).st.trace, s.recLev + 1, tame)
    decreases Left(s.recLev), 2, 0, 0
  {
    var v, s1 := env.eval(e, s.past, s.last), Look(env, s, e);
    if v.rc < 0 {
      RunStarts(env, s1, def, tame);
    } else if !s1.flags.exit {
      var k := Chosen(cases, v.val, 0);
      var chosen := if k < |cases| then cases[k].body else def;
      RunStarts(env, s1.(flags := s1.flags.(ret := false, brk := false)), chosen, tame);
    }
  }

  lemma {:induction false} LoopStarts(env: Env, s: State, e: nat, body: seq<Action>, i: nat, ret: int, seen: Flags,
                                      tame: bool)
    requires s.recLev > 0 && (tame && !Stops(seen) ==> StartsTame(env) && !Stops(s.flags))
    ensures Recorded(s.trace, Loop(env, s, e, body, i, ret, seen).st.trace, s.recLev + 1, tame)
    decreases Left(s.recLev), 2, 0, env.maxLoops - i
  {
    if !Stops(seen) {
      var v, s1 := env.eval(e, s.past, s.last), Look(env, s, e);
      if v.rc == 0 && v.val != 0 && i + 1 <= env.maxLoops {
        if body == [] {
          LoopStarts(env, s1, e, body, i + 1, ret, seen, tame);
        } else {
          RunStarts(env, s1, body, tame);
          var r := Run(env, s1, body);
          if !r.jumped {
            var s2, seen2 := r.st.(flags := r.st.flags.(brk := false)), Or(seen, r.st.flags);
            assert !Stops(seen2) ==> !Stops(s2.flags);
            LoopStarts(env, s2, e, body, i + 1, r.ret, seen2, tame);
            var end := Loop(env, s2, e, body, i + 1, r.ret, seen2).st.trace;
            RecordedTwice(s.trace, r.st.trace, end, s.recLev + 1, tame);
          }
        }
      }
    }
  }

  // ----- Exactly when all actions start clean -----

  /** The actions that a run from s starts, start with none of BREAK, RETURN and EXIT set. */
  ghost predicate StartsClean(env: Env, s: State, list: seq<Action>) {
    var t := Run(env, s, list).st.trace;
    forall k | |s.trace| <= k < |t| :: t[k].clean
  }

  /** The switch whose expression failed runs its default although the script is to end. */
  lemma WildSwitchStarts(env: Env, s: State, e: nat)
    requires var v := env.eval(e, s.past, s.last); Exits(v) && v.rc < 0
    requires s.recLev == 1 && s.flags == NONE && s.trace == []
    ensures !StartsClean(env, s, [Switch(e, [], [Module(0)])])
  {
    var def := [Module(0)];
    var list := [Switch(e, [], def)];
    var s1 := s.(recLev := 2, trace := [Start(list[0], 2, true)]);
    assert s.trace + s1.trace == s1.trace;
    var s2 := Look(env, s1, e);
    DefiledStart(env, s2, 0);
    assert RunCatching(env, s2, def).jumped;
    assert Select(env, s1, e, [], def) == Run(env, s2, def);
    assert Act(env, s.(recLev := 2), list[0]) == Run(env, s2, def);
    assert RunSeq(env, s.(recLev := 2), list) == Run(env, s2, def);
    assert Run(env, s, list) == Run(env, s2, def);
    assert !Run(env, s, list).st.trace[1].clean;
  }

  /** A list with one module call, run with EXIT pending: the call starts all the same, and the run jumps. */
  lemma DefiledStart(env: Env, s: State, f: nat)
    requires s.flags.exit && 0 < s.recLev < ROUTE_MAX_REC_LEV
    ensures var r := Run(env, s, [Module(f)]);
            r.jumped && r.st.trace == s.trace + [Start(Module(f), s.recLev + 1, false)]
  {
    var s1 := s.(recLev := s.recLev + 1);
    var r := Act(env, s1, Module(f));
    assert r.st.flags.exit && !r.jumped;
    assert RunSeq(env, s1, [Module(f)]).jumped;
  }

  /** A while whose expression exits and is true starts its body. */
  lemma WildWhileStarts(env: Env, s: State, e: nat)
    requires var v := env.eval(e, s.past, s.last); Exits(v) && v.rc == 0 && v.val != 0
    requires s.recLev == 1 && s.flags == NONE && s.trace == [] && env.maxLoops >= 1
    ensures !StartsClean(env, s, [While(e, [Module(0)])])
  {
    var body := [Module(0)];
    var list := [While(e, body)];
    var s1 := s.(recLev := 2, trace := [Start(list[0], 2, true)]);
    assert s.trace + s1.trace == s1.trace;
    var s2 := Look(env, s1, e);
    DefiledStart(env, s2, 0);
    assert Loop(env, s1, e, body, 0, 1, NONE) == Run(env, s2, body);
    assert Act(env, s.(recLev := 2), list[0]) == Run(env, s2, body);
    assert RunSeq(env, s.(recLev := 2), list) == Run(env, s2, body);
    assert Run(env, s, list) == Run(env, s2, body);
    assert !Run(env, s, list).st.trace[1].clean;
  }

  /** Every run starts clean actions only, exactly if the environment is tame enough. */
  lemma CleanExactlyIfTame(env: Env)
    ensures StartsTame(env) <==>
              forall s: State, list: seq<Action> | s.recLev == 0 || !Stops(s.flags) :: StartsClean(env, s, list)
  {
    if StartsTame(env) {
      forall s: State, list: seq<Action> | s.recLev == 0 || !Stops(s.flags)
        ensures StartsClean(env, s, list)
      {
        RunStarts(env, s, list, true);
      }
    } else {
      var e, past, last :|
        var v := env.eval(e, past, last);
        Exits(v) && !(v.rc >= 0 && (env.maxLoops >= 1 ==> v.rc != 0 || v.val == 0));
      var s := State(1, NONE, last, past, []);
      assert !Stops(s.flags);
      if env.eval(e, past, last).rc < 0 {
        WildSwitchStarts(env, s, e);
      } else {
        WildWhileStarts(env, s, e);
      }
    }
  }

  // ----- Counting -----

  /** How many recorded actions are of this level. */
  function Count(t: seq<Start>, level: nat): nat {
    if t == [] then 0 else Count(t[..|t| - 1], level) + if t[|t| - 1].level == level then 1 else 0
  }

  lemma {:induction false} DeeperDoesNotCount(t0: seq<Start>, t: seq<Start>, level: nat)
    requires Recorded(t0, t, level + 1, false)
    ensures Count(t, level) == Count(t0, level)
    decreases |t| - |t0|
  {
    if |t| > |t0| {
      var u := t[..|t| - 1];
      assert u[..|t0|] == t[..|t0|];
      DeeperDoesNotCount(t0, u, level);
    } else {
      assert t == t0;
    }
  }

  /** A list of n actions starts at most n actions of its own level. */
  lemma {:induction false} SeqCounts(env: Env, s: State, list: seq<Action>)
    requires list != [] && 0 < s.recLev <= ROUTE_MAX_REC_LEV
    ensures Count(RunSeq(env, s, list).st.trace, s.recLev) <= Count(s.trace, s.recLev) + |list|
    decreases |list|
  {
    ActStarts(env, s, list[0], false);
    var r := Act(env, s, list[0]);
    DeeperDoesNotCount(Noted(s, list[0]), r.st.trace, s.recLev);
    assert Noted(s, list[0])[..|s.trace|] == s.trace;
    if !r.jumped && !Stops(r.st.flags) && |list| > 1 {
      SeqCounts(env, r.st, list[1..]);
    }
  }

  /** So many turns of a body of n actions. */
  function Times(turns: nat, n: nat): (r: nat)
    ensures r == turns * n
  {
    if turns == 0 then 0 else n + Times(turns - 1, n)
  }

  lemma RunCounts(env: Env, s: State, list: seq<Action>)
    requires 0 < s.recLev
    ensures Count(Run(env, s, list).st.trace, s.recLev + 1) <= Count(s.trace, s.recLev + 1) + |list|
  {
    if s.recLev < ROUTE_MAX_REC_LEV && list != [] {
      SeqCounts(env, s.(recLev := s.recLev + 1), list);
    }
  }

  /** A while loop starts at most max_while_loops turns of its body. */
  lemma {:induction false} LoopCounts(env: Env, s: State, e: nat, body: seq<Action>, i: nat, ret: int, seen: Flags)
    requires 0 < s.recLev && i <= env.maxLoops
    ensures var t := Loop(env, s, e, body, i, ret, seen).st.trace;
            Count(t, s.recLev + 1) <= Count(s.trace, s.recLev + 1) + Times(env.maxLoops - i, |body|)
    decreases env.maxLoops - i
  {
    if !Stops(seen) && i < env.maxLoops {
      var s1 := Look(env, s, e);
      if body == [] {
        LoopCounts(env, s1, e, body, i + 1, ret, seen);
      } else {
        RunCounts(env, s1, body);
        var r := Run(env, s1, body);
        if !r.jumped {
          LoopCounts(env, r.st.(flags := r.st.flags.(brk := false)), e, body, i + 1, r.ret, Or(seen, r.st.flags));
        }
      }
    }
  }
}
