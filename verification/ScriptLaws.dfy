/**
  Laws of routing scripts, for every environment: what small scripts return when they are run, said
  without the interpreter's own functions.  The lists run here may stand anywhere: s is any context in
  which nothing is pending and which leaves room for three more levels.
 */
module ScriptLaws {
  import opened ScriptMachine

  /** Inside a script, with nothing pending and levels to spare. */
  predicate IsReady(s: State) {
    0 < s.recLev <= 96 && !s.flags.exit && !s.flags.ret && !s.flags.brk && !s.flags.drop
  }

  /** A list that returns a number. */
  function Returning(n: int): seq<Action> {
    [Stop(Return, Number(n))]
  }

  // ----- Lists of one and two actions -----

  lemma RunOne(env: Env, s: State, a: Action)
    requires 0 < s.recLev < ROUTE_MAX_REC_LEV
    ensures var r := Act(env, s.(recLev := s.recLev + 1), a);
            Run(env, s, [a]) ==
            if r.jumped then r
            else if r.st.flags.exit then Result(r.st.(last := r.ret), r.ret, true)
            else Result(r.st.(recLev := s.recLev), r.ret, false)
  {
    var s1 := s.(recLev := s.recLev + 1);
    var r := Act(env, s1, a);
    assert RunSeq(env, s1, [a]) ==
      if r.jumped then r else if r.st.flags.exit then Result(r.st.(last := r.ret), r.ret, true) else r;
  }

  lemma RunTwo(env: Env, s: State, a: Action, b: Action)
    requires 0 < s.recLev < ROUTE_MAX_REC_LEV
    requires var r := Act(env, s.(recLev := s.recLev + 1), a); !r.jumped && !Stops(r.st.flags)
    ensures var r := Act(env, s.(recLev := s.recLev + 1), a);
            r.st.recLev == s.recLev + 1 && Run(env, s, [a, b]) == Run(env, r.st.(recLev := s.recLev), [b])
  {
    var s1 := s.(recLev := s.recLev + 1);
    var r := Act(env, s1, a);
    assert [a, b][1..] == [b];
    assert RunSeq(env, s1, [a, b]) == RunSeq(env, r.st, [b]);
    assert r.st.(recLev := s.recLev).(recLev := s.recLev + 1) == r.st;
  }

  lemma RunReturning(env: Env, s: State, n: int)
    requires 0 < s.recLev < ROUTE_MAX_REC_LEV && !s.flags.exit
    ensures var r := Run(env, s, Returning(n)); r.ret == n && !r.jumped && r.st.flags == s.flags.(ret := true)
    ensures Run(env, s, Returning(n)).st.last == s.last && Run(env, s, Returning(n)).st.past == s.past
  {
    RunOne(env, s, Stop(Return, Number(n)));
  }

  // ----- Return codes -----

  /** The return code of an expression with a script block that does not exit is that of the block. */
  lemma BlockSetsReturnCode(env: Env, s: State, e: nat)
    requires IsReady(s)
    requires var v := env.eval(e, s.past, s.last); !(v.block && v.exit)
    ensures var v, r := env.eval(e, s.past, s.last), Run(env, s, [Eval(e), Stop(Return, LastRetcode)]);
            !r.jumped && r.ret == if v.block then v.last else s.last
  {
    RunTwo(env, s, Eval(e), Stop(Return, LastRetcode));
    RunOne(env, Act(env, s.(recLev := s.recLev + 1), Eval(e)).st.(recLev := s.recLev), Stop(Return, LastRetcode));
  }

  /** So does the condition of an if. */
  lemma ConditionSetsReturnCode(env: Env, s: State, e: nat)
    requires IsReady(s)
    requires var v := env.eval(e, s.past, s.last); !(v.block && v.exit)
    ensures var v, r := env.eval(e, s.past, s.last), Run(env, s, [If(e, [], []), Stop(Return, LastRetcode)]);
            !r.jumped && r.ret == if v.block then v.last else s.last
  {
    var a := If(e, [], []);
    RunTwo(env, s, a, Stop(Return, LastRetcode));
    RunOne(env, Act(env, s.(recLev := s.recLev + 1), a).st.(recLev := s.recLev), Stop(Return, LastRetcode));
  }

  /** An expression whose block exits ends the script: nothing behind it runs. */
  lemma ExitInExpression(env: Env, s: State, e: nat, n: int)
    requires IsReady(s)
    requires var v := env.eval(e, s.past, s.last); v.block && v.exit
    ensures var r := Run(env, s, [Eval(e)] + Returning(n));
            r.jumped && r.st.flags.exit && r.st.last == 0 && r.st.past == s.past + [Evaluated(e)]
            && (r.st.flags.drop <==> env.eval(e, s.past, s.last).drop)
  {
    var s1 := s.(recLev := s.recLev + 1);
    var r := Act(env, s1, Eval(e));
    assert r.st.flags.exit && !r.jumped && r.ret == 0;
    assert RunSeq(env, s1, [Eval(e)] + Returning(n)) == Result(r.st.(last := 0), 0, true);
  }

  /** A module function that returns 0 ends the script; any other value is the last return code. */
  lemma ModuleReturns(env: Env, s: State, f: nat)
    requires IsReady(s)
    ensures var c, r := env.call(f, s.past, s.last), Run(env, s, [Module(f), Stop(Return, LastRetcode)]);
            if c == 0 then r.jumped && r.st.last == 0 && r.st.flags.exit && r.st.past == s.past + [Called(f)]
            else !r.jumped && r.ret == c && r.st.past == s.past + [Called(f)]
  {
    var s1 := s.(recLev := s.recLev + 1);
    var r := Act(env, s1, Module(f));
    if env.call(f, s.past, s.last) == 0 {
      assert RunSeq(env, s1, [Module(f), Stop(Return, LastRetcode)]) == Result(r.st.(last := 0), 0, true);
    } else {
      RunTwo(env, s, Module(f), Stop(Return, LastRetcode));
      RunOne(env, r.st.(recLev := s.recLev), Stop(Return, LastRetcode));
    }
  }

  // ----- Stops -----

  /** Nothing behind a stop runs, whatever it is. */
  lemma StopEndsList(env: Env, s: State, kind: StopKind, n: int, rest: seq<Action>)
    requires IsReady(s)
    ensures Run(env, s, [Stop(kind, Number(n))] + rest) == Run(env, s, [Stop(kind, Number(n))])
  {
    var s1, a := s.(recLev := s.recLev + 1), Stop(kind, Number(n));
    assert Stops(Act(env, s1, a).st.flags);
    assert RunSeq(env, s1, [a] + rest) == RunSeq(env, s1, [a]);
  }

  /** Exit and drop leave everything, with the number as return code; only drop sets the flag for it. */
  lemma ExitLeavesAll(env: Env, s: State, kind: StopKind, n: int)
    requires IsReady(s) && kind in {Exit, Drop}
    ensures var r := Run(env, s, [Block([Stop(kind, Number(n))])] + Returning(n + 1));
            r.jumped && r.st.last == n && r.st.flags.exit && (r.st.flags.drop <==> kind == Drop)
  {
    var s1, b := s.(recLev := s.recLev + 1), Block([Stop(kind, Number(n))]);
    var s2 := s1.(trace := s1.trace + [Start(b, s1.recLev, true)]);
    RunOne(env, s2, Stop(kind, Number(n)));
    var r := Run(env, s2, [Stop(kind, Number(n))]);
    assert r.jumped && r.st.last == n && r.st.flags.exit && (r.st.flags.drop <==> kind == Drop);
    assert Act(env, s1, b) == RunCatching(env, s2, [Stop(kind, Number(n))]) == r;
    assert RunSeq(env, s1, [b] + Returning(n + 1)) == r;
  }

  /** A break leaves the nearest block only. */
  lemma BreakLeavesBlock(env: Env, s: State, m: int, n: int)
    requires IsReady(s)
    ensures var r := Run(env, s, [Block([Stop(Break, Number(m))]), Stop(Return, Number(n))]); !r.jumped && r.ret == n
  {
    var s1, b := s.(recLev := s.recLev + 1), Block([Stop(Break, Number(m))]);
    var s2 := s1.(trace := s1.trace + [Start(b, s1.recLev, true)]);
    RunOne(env, s2, Stop(Break, Number(m)));
    RunTwo(env, s, b, Stop(Return, Number(n)));
    RunReturning(env, Act(env, s1, b).st.(recLev := s.recLev), n);
  }

  /** A return leaves the block, and the list around it. */
  lemma ReturnLeavesBlock(env: Env, s: State, m: int, n: int)
    requires IsReady(s)
    ensures var r := Run(env, s, [Block(Returning(m)), Stop(Return, Number(n))]); !r.jumped && r.ret == m
  {
    var s1, b := s.(recLev := s.recLev + 1), Block(Returning(m));
    var s2 := s1.(trace := s1.trace + [Start(b, s1.recLev, true)]);
    RunReturning(env, s2, m);
    assert Act(env, s1, b) == RunCatching(env, s2, Returning(m));
    assert RunSeq(env, s1, [b, Stop(Return, Number(n))]) == Act(env, s1, b);
  }

  /** But not the route: the caller goes on, with the number as return code. */
  lemma ReturnLeavesRoute(env: Env, s: State, i: nat, m: int)
    requires IsReady(s) && i < |env.routes| && env.routes[i] == Returning(m)
    ensures var r := Run(env, s, [Route(i), Stop(Return, LastRetcode)]); !r.jumped && r.ret == m
  {
    var s1 := s.(recLev := s.recLev + 1);
    var s2 := s1.(trace := s1.trace + [Start(Route(i), s1.recLev, true)]);
    RunReturning(env, s2, m);
    RunTwo(env, s, Route(i), Stop(Return, LastRetcode));
    RunOne(env, Act(env, s1, Route(i)).st.(recLev := s.recLev), Stop(Return, LastRetcode));
  }

  /** A route that does not exist is an error, and nothing is run. */
  lemma NoSuchRoute(env: Env, s: State, i: int)
    requires IsReady(s) && (i < 0 || i >= |env.routes|)
    ensures var r := Run(env, s, [Route(i)]); !r.jumped && r.ret == -6 && r.st.past == s.past && r.st.last == s.last
  {
    RunOne(env, s, Route(i));
  }

  // ----- Branches -----

  /** A block without actions is an error of the program and starts nothing. */
  lemma EmptyBlock(env: Env, s: State)
    requires IsReady(s)
    ensures var r := Run(env, s, [Block([])]); !r.jumped && r.ret == -5 && r.st.past == s.past && r.st.last == s.last
  {
    RunOne(env, s, Block([]));
  }

  /** An if runs its first list exactly if the condition could be evaluated and is above 0. */
  lemma IfChooses(env: Env, s: State, e: nat, m: int, n: int)
    requires IsReady(s)
    requires var v := env.eval(e, s.past, s.last); !(v.block && v.exit)
    ensures var v, r := env.eval(e, s.past, s.last), Run(env, s, [If(e, Returning(m), Returning(n))]);
            !r.jumped && r.ret == if v.rc == 0 && v.val > 0 then m else n
  {
    var v := env.eval(e, s.past, s.last);
    var s1, a := s.(recLev := s.recLev + 1), If(e, Returning(m), Returning(n));
    var s2 := Look(env, s1.(trace := s1.trace + [Start(a, s1.recLev, true)]), e);
    RunReturning(env, s2.(flags := s2.flags.(ret := false, brk := false)), if v.rc == 0 && v.val > 0 then m else n);
    RunOne(env, s, a);
  }

  /** The list that a switch runs: that of the first case with the value, otherwise the default. */
  ghost predicate IsChosen(cases: seq<Case>, v: Value, k: nat) {
    if v.rc < 0 then k == |cases|
    else
      && k <= |cases| && (k < |cases| ==> cases[k].matches == v.val)
      && forall j | 0 <= j < k :: cases[j].matches != v.val
  }

  /** A switch runs exactly that list. */
  lemma SwitchChooses(env: Env, s: State, e: nat, cases: seq<Case>, k: nat, m: int, n: int)
    requires IsReady(s)
    requires var v := env.eval(e, s.past, s.last); !(v.block && v.exit) && IsChosen(cases, v, k)
    requires k < |cases| ==> cases[k].body == Returning(m)
    ensures var r := Run(env, s, [Switch(e, cases, Returning(n))]); !r.jumped && r.ret == if k < |cases| then m else n
  {
    var v := env.eval(e, s.past, s.last);
    var s1, a := s.(recLev := s.recLev + 1), Switch(e, cases, Returning(n));
    var s2 := Look(env, s1.(trace := s1.trace + [Start(a, s1.recLev, true)]), e);
    assert v.rc >= 0 ==> Chosen(cases, v.val, 0) == k;
    var s3 := if v.rc < 0 then s2 else s2.(flags := s2.flags.(ret := false, brk := false));
    var number := if k < |cases| then m else n;
    RunReturning(env, s3, number);
    assert Act(env, s1, a) == RunCatching(env, s3, Returning(number));
    RunOne(env, s, a);
  }

  // ----- Loops -----

  /** A while whose condition could not be evaluated, or is 0, does nothing and is worth 1. */
  lemma WhileSkips(env: Env, s: State, e: nat, body: seq<Action>)
    requires IsReady(s)
    requires var v := env.eval(e, s.past, s.last); !(v.block && v.exit) && (v.rc != 0 || v.val == 0)
    ensures var r := Run(env, s, [While(e, body)]); !r.jumped && r.ret == 1 && r.st.past == s.past + [Evaluated(e)]
  {
    var s1 := s.(recLev := s.recLev + 1);
    assert Act(env, s1, While(e, body)).ret == 1;
    RunOne(env, s, While(e, body));
  }

  /** A return leaves the while and the list around it; a break the while only. */
  lemma StopLeavesWhile(env: Env, s: State, e: nat, kind: StopKind, m: int, n: int)
    requires IsReady(s) && kind in {Return, Break} && env.maxLoops >= 1
    requires var v := env.eval(e, s.past, s.last); !(v.block && v.exit) && v.rc == 0 && v.val != 0
    ensures var r := Run(env, s, [While(e, [Stop(kind, Number(m))]), Stop(Return, Number(n))]);
            !r.jumped && r.ret == if kind == Return then m else n
  {
    var s1, body := s.(recLev := s.recLev + 1), [Stop(kind, Number(m))];
    var a := While(e, body);
    var s0 := s1.(trace := s1.trace + [Start(a, s1.recLev, true)]);
    var s2 := Look(env, s0, e);
    RunOne(env, s2, Stop(kind, Number(m)));
    var r := Run(env, s2, body);
    var s3 := r.st.(flags := r.st.flags.(brk := false));
    assert Loop(env, s0, e, body, 0, 1, NONE) == Loop(env, s3, e, body, 1, m, Or(NONE, r.st.flags))
        == Result(s3, m, false);
    if kind == Break {
      RunTwo(env, s, a, Stop(Return, Number(n)));
      RunReturning(env, Act(env, s1, a).st.(recLev := s.recLev), n);
    } else {
      assert RunSeq(env, s1, [a, Stop(Return, Number(n))]) == Act(env, s1, a);
    }
  }

  /** The events of so many turns of a loop that calls a function. */
  function Turns(e: nat, f: nat, n: nat): seq<Event> {
    if n == 0 then [] else Turns(e, f, n - 1) + [Evaluated(e), Called(f)]
  }

  /** A condition that always holds is met exactly max_while_loops times, and then the loop is an error. */
  lemma EndlessWhile(env: Env, s: State, e: nat, f: nat)
    requires IsReady(s) && env.maxLoops >= 0
    requires forall past, last :: env.eval(e, past, last) == Value(0, 1, false, false, false, 0)
    requires forall past, last :: env.call(f, past, last) == 1
    ensures var r := Run(env, s, [While(e, [Module(f)])]);
            !r.jumped && r.ret == -1 && r.st.past == s.past + Turns(e, f, env.maxLoops) + [Evaluated(e)]
  {
    var s1, a := s.(recLev := s.recLev + 1), While(e, [Module(f)]);
    var s0 := s1.(trace := s1.trace + [Start(a, s1.recLev, true)]);
    assert s.past + Turns(e, f, 0) == s.past;
    EndlessLoop(env, s0, e, f, 0, 1, s.past);
    RunOne(env, s, a);
  }

  lemma {:induction false} EndlessLoop(env: Env, s: State, e: nat, f: nat, i: nat, ret: int, past: seq<Event>)
    requires 0 < s.recLev <= 97 && !s.flags.exit && !s.flags.ret && !s.flags.brk && i <= env.maxLoops
    requires s.past == past + Turns(e, f, i)
    requires forall past, last :: env.eval(e, past, last) == Value(0, 1, false, false, false, 0)
    requires forall past, last :: env.call(f, past, last) == 1
    ensures var r := Loop(env, s, e, [Module(f)], i, ret, NONE);
            && !r.jumped && r.ret == -1 && r.st.past == past + Turns(e, f, env.maxLoops) + [Evaluated(e)]
            && r.st.flags == s.flags
    decreases env.maxLoops - i
  {
    var s1 := Look(env, s, e);
    if i < env.maxLoops {
      RunOne(env, s1, Module(f));
      var r := Run(env, s1, [Module(f)]);
      var s2 := r.st.(flags := r.st.flags.(brk := false));
      assert s2.past == past + Turns(e, f, i + 1);
      assert s2.flags == s.flags;
      assert Or(NONE, r.st.flags) == s.flags;
      EndlessLoopSeen(env, s2, e, f, i + 1, 1, s.flags);
      EndlessLoop(env, s2, e, f, i + 1, 1, past);
    }
  }

  /** Flags that stop nothing make no difference to a loop. */
  lemma {:induction false} EndlessLoopSeen(env: Env, s: State, e: nat, f: nat, i: nat, ret: int, seen: Flags)
    requires !seen.exit && !seen.ret && !seen.brk
    ensures Loop(env, s, e, [Module(f)], i, ret, seen) == Loop(env, s, e, [Module(f)], i, ret, NONE)
    decreases env.maxLoops - i
  {
    var r := Run(env, Look(env, s, e), [Module(f)]);
    if i < env.maxLoops && !r.jumped && !Stops(r.st.flags) {
      var s2 := r.st.(flags := r.st.flags.(brk := false));
      EndlessLoopSeen(env, s2, e, f, i + 1, r.ret, Or(seen, r.st.flags));
      EndlessLoopSeen(env, s2, e, f, i + 1, r.ret, Or(NONE, r.st.flags));
    }
  }

  // ----- Whole scripts -----

  /** A whole script returns the number of its return, exit or drop; the onbreak handlers run exactly after 0. */
  lemma WholeScript(env: Env, last: int, past: seq<Event>, kind: StopKind, n: int, rest: seq<Action>)
    ensures var r := Run(env, State(0, NONE, last, past, []), [Stop(kind, Number(n))] + rest);
            && !r.jumped && r.ret == n && r.st.recLev == 0
            && r.st.past == past + if n == 0 then [OnBreak] else []
  {
    var s1, a := State(1, NONE, 0, past, []), Stop(kind, Number(n));
    var r := Act(env, s1, a);
    assert Stops(r.st.flags) && !r.jumped;
    assert RunSeq(env, s1, [a] + rest) == if r.st.flags.exit then Result(r.st.(last := n), n, true) else r;
    assert past + [] == past;
  }

  /** A whole script that returns the last return code: that of the block in its condition, or 0. */
  lemma WholeScriptReturnCode(env: Env, last: int, past: seq<Event>, e: nat)
    requires var v := env.eval(e, past, 0); !(v.block && v.exit)
    ensures var v := env.eval(e, past, 0);
            Run(env, State(0, NONE, last, past, []), [If(e, [], []), Stop(Return, LastRetcode)]).ret
            == if v.block then v.last else 0
  {
    var s1, a, b := State(1, NONE, 0, past, []), If(e, [], []), Stop(Return, LastRetcode);
    var s0 := s1.(trace := s1.trace + [Start(a, 1, true)]);
    var s2 := Look(env, s0, e);
    var r := Act(env, s1, a);
    assert r == Branch(env, s0, e, [], []) == Result(s2.(flags := s2.flags.(ret := false, brk := false)), 1, false);
    assert !r.jumped && !Stops(r.st.flags) && [a, b][1..] == [b];
    assert RunSeq(env, s1, [a, b]) == RunSeq(env, r.st, [b]) == Act(env, r.st, b);
  }

  /** Beyond 100 levels nothing is run. */
  lemma TooDeep(env: Env, s: State, list: seq<Action>)
    requires s.recLev >= 100
    ensures Run(env, s, list) == Result(s, -1, false)
  {}
}
