/**
  A structured meaning of routing scripts, without flags, jumps or a mutable level: a break ends
  the nearest switch, while or block, a return ends the nearest route, an exit ends the script.
  The interpreter computes this meaning for every script and at every level, exactly for those
  environments in which no expression exits the script and makes a while or a switch go on.
 */
module ScriptSemantics {
  import opened ScriptMachine

  datatype Outcome = Normal | Broke | Returned | Exited(drop: bool)

  /** What a script can change: the last return code, the events, and the record of the hook. */
  datatype World = World(last: int, past: seq<Event>, trace: seq<Start>)

  datatype Effect = Effect(w: World, ret: int, out: Outcome)

  function OutcomeOf(k: StopKind): Outcome {
    match k
    case Drop => Exited(true)
    case Exit => Exited(false)
    case Return => Returned
    case Break => Broke
  }

  /** An expression with a script block leaves the return code of the block. */
  function See(env: Env, w: World, e: nat): World {
    var v := env.eval(e, w.past, w.last);
    if v.block then World(v.last, w.past + [Evaluated(e)], w.trace)
    else World(w.last, w.past + [Evaluated(e)], w.trace)
  }

  /** A whole script. */
  function Script(env: Env, list: seq<Action>, w: World): Effect {
    var x := Meaning(env, 0, list, w.(last := 0));
    if x.ret == 0 then x.(w := x.w.(past := x.w.past + [OnBreak])) else x
  }

  /** An action list inside lev others; beyond the deepest level it is an error and nothing is done. */
  function Meaning(env: Env, lev: nat, list: seq<Action>, w: World): Effect
    decreases Left(lev), 0
  {
    if lev >= ROUTE_MAX_REC_LEV then Effect(w, E_UNSPEC, Normal)
    else if list == [] then Effect(w, 1, Normal)
    else InOrder(env, lev + 1, list, w)
  }

  function InOrder(env: Env, lev: nat, list: seq<Action>, w: World): Effect
    requires list != [] && 0 < lev <= ROUTE_MAX_REC_LEV
    decreases Left(lev), 3, |list|
  {
    var x := One(env, lev, list[0], w);
    if x.out.Exited? then x.(w := x.w.(last := x.ret))
    else if !x.out.Normal? || |list| == 1 then x
    else InOrder(env, lev, list[1..], x.w)
  }

  /** A list whose breaks stop here. */
  function Catching(env: Env, lev: nat, list: seq<Action>, w: World): Effect
    decreases Left(lev), 1
  {
    var x := Meaning(env, lev, list, w);
    if x.out.Broke? then x.(out := Normal) else x
  }

  function One(env: Env, lev: nat, a: Action, w0: World): Effect
    requires 0 < lev <= ROUTE_MAX_REC_LEV
    decreases Left(lev), 2, 1, 0
  {
    var w := w0.(trace := w0.trace + [Start(a, lev, true)]);
    match a
    case Stop(kind, Number(n)) => Effect(w, n, OutcomeOf(kind))
    case Stop(kind, LastRetcode) => Effect(w, w.last, OutcomeOf(kind))
    case Stop(kind, Expression(e)) =>
      var v := env.eval(e, w.past, w.last);
      Effect(See(env, w, e), v.val, if Exits(v) then Exited(v.drop || kind.Drop?) else OutcomeOf(kind))
    case Module(f) =>
      var ret := env.call(f, w.past, w.last);
      Effect(w.(past := w.past + [Called(f)], last := ret), ret, if ret == 0 then Exited(false) else Normal)
    case Route(i) =>
      if i < 0 || i >= |env.routes| then Effect(w, E_CFG, Normal)
      else
        var x := Meaning(env, lev, env.routes[i], w);
        if x.out.Exited? then x else Effect(x.w.(last := x.ret), x.ret, Normal)
    case If(e, yes, no) => Decision(env, lev, e, yes, no, w)
    case Eval(e) =>
      var v, w1 := env.eval(e, w.past, w.last), See(env, w, e);
      if Exits(v) then Effect(w1, 0, Exited(v.drop)) else Effect(w1, 1, Normal)
    case Switch(e, cases, def) => Choice(env, lev, e, cases, def, w)
    case Block(body) =>
      if body == [] then Effect(w, E_BUG, Normal) else Catching(env, lev, body, w)
    case While(e, body) => Turns(env, lev, e, body, 0, 1, w)
  }

  function Decision(env: Env, lev: nat, e: nat, yes: seq<Action>, no: seq<Action>, w: World): Effect
    decreases Left(lev), 2, 0, 0
  {
    var v, w1 := env.eval(e, w.past, w.last), See(env, w, e);
    var branch := if v.rc == 0 && v.val > 0 then yes else no;
    if Exits(v) then Effect(w1, 0, Exited(v.drop))
    else if branch == [] then Effect(w1, 1, Normal)
    else Meaning(env, lev, branch, w1)
  }

  function Choice(env: Env, lev: nat, e: nat, cases: seq<Case>, def: seq<Action>, w: World): Effect
    decreases Left(lev), 2, 0, 0
  {
    var v, w1 := env.eval(e, w.past, w.last), See(env, w, e);
    var k := Chosen(cases, v.val, 0);
    var branch := if v.rc >= 0 && k < |cases| then cases[k].body else def;
    if Exits(v) then Effect(w1, 0, Exited(v.drop))
    else if branch == [] then Effect(w1, if v.rc < 0 then -1 else 1, Normal)
    else Catching(env, lev, branch, w1)
  }

  /** A while after i turns, worth ret so far. */
  function Turns(env: Env, lev: nat, e: nat, body: seq<Action>, i: nat, ret: int, w: World): Effect
    decreases Left(lev), 2, 0, env.maxLoops - i
  {
    var v, w1 := env.eval(e, w.past, w.last), See(env, w, e);
    if Exits(v) then Effect(w1, ret, Exited(v.drop))
    else if v.rc != 0 || v.val == 0 then Effect(w1, ret, Normal)
    else if i + 1 > env.maxLoops then Effect(w1, -1, Normal)
    else if body == [] then Turns(env, lev, e, body, i + 1, ret, w1)
    else
      var x := Meaning(env, lev, body, w1);
      match x.out
      case Normal => Turns(env, lev, e, body, i + 1, x.ret, x.w)
      case Broke => x.(out := Normal)
      case _ => x
  }

  // ----- The interpreter follows the meaning -----

  /** Nothing is pending; DROP is never set without EXIT. */
  predicate IsQuiet(f: Flags) {
    !Stops(f) && !f.drop
  }

  function WorldOf(s: State): World {
    World(s.last, s.past, s.trace)
  }

  function OutFlags(out: Outcome): Flags {
    match out
    case Normal => NONE
    case Broke => NONE.(brk := true)
    case Returned => NONE.(ret := true)
    case Exited(drop) => NONE.(exit := true, drop := drop)
  }

  /** The flags left by an outcome; after an exit nobody looks at BREAK and RETURN any more. */
  ghost predicate Encodes(flags0: Flags, flags: Flags, out: Outcome) {
    if out.Exited? then flags.(ret := false, brk := false) == Or(flags0, OutFlags(out))
    else flags == Or(flags0, OutFlags(out))
  }

  /** An action or a list run from s has done what it means; an exit may already be on its way up. */
  ghost predicate Follows(s: State, r: Result, x: Effect) {
    && WorldOf(r.st) == x.w
    && Encodes(s.flags, r.st.flags, x.out)
    && (r.jumped ==> x.out.Exited? && r.st.last == x.ret)
    && (!r.jumped ==> r.ret == x.ret && r.st.recLev == s.recLev)
  }

  /** Expressions that exit the script do not tell a while, or a switch, to go on. */
  ghost predicate Tame(env: Env) {
    forall e, past, last :: var v := env.eval(e, past, last); Exits(v) ==> v.rc >= 0 && (v.rc != 0 || v.val == 0)
  }

  lemma {:induction false} RunFollows(env: Env, s: State, list: seq<Action>)
    requires Tame(env) && IsQuiet(s.flags) && s.recLev > 0
    ensures var r, x := Run(env, s, list), Meaning(env, s.recLev, list, WorldOf(s));
            Follows(s, r, x) && (r.jumped <==> x.out.Exited?)
    decreases Left(s.recLev), 0
  {
    if s.recLev < ROUTE_MAX_REC_LEV && list != [] {
      SeqFollows(env, s.(recLev := s.recLev + 1), list);
    }
  }

  lemma {:induction false} SeqFollows(env: Env, s: State, list: seq<Action>)
    requires Tame(env) && IsQuiet(s.flags) && list != [] && 0 < s.recLev <= ROUTE_MAX_REC_LEV
    ensures var r, x := RunSeq(env, s, list), InOrder(env, s.recLev, list, WorldOf(s));
            Follows(s, r, x) && (r.jumped <==> x.out.Exited?)
    decreases Left(s.recLev), 3, |list|
  {
    ActFollows(env, s, list[0]);
    var r := Act(env, s, list[0]);
    if !r.jumped && !Stops(r.st.flags) && |list| > 1 {
      SeqFollows(env, r.st, list[1..]);
    }
  }

  lemma CatchingFollows(env: Env, s: State, list: seq<Action>)
    requires Tame(env) && IsQuiet(s.flags) && s.recLev > 0
    ensures Follows(s, RunCatching(env, s, list), Catching(env, s.recLev, list, WorldOf(s)))
    decreases Left(s.recLev), 1
  {
    RunFollows(env, s, list);
  }

  lemma {:induction false} ActFollows(env: Env, s0: State, a: Action)
    requires Tame(env) && IsQuiet(s0.flags) && 0 < s0.recLev <= ROUTE_MAX_REC_LEV
    ensures Follows(s0, Act(env, s0, a), One(env, s0.recLev, a, WorldOf(s0)))
    decreases Left(s0.recLev), 2, 1, 0
  {
    var s := s0.(trace := s0.trace + [Start(a, s0.recLev, true)]);
    match a
    case Stop(_, _) =>
      StopFollows(env, s0, a);
    case Module(_) =>
      LeafFollows(env, s0, a);
    case Eval(_) =>
      LeafFollows(env, s0, a);
    case Route(i) =>
      if 0 <= i < |env.routes| {
        RunFollows(env, s, env.routes[i]);
      }
    case If(e, yes, no) =>
      BranchFollows(env, s, e, yes, no);
    case Switch(e, cases, def) =>
      SelectFollows(env, s, e, cases, def);
    case Block(body) =>
      CatchingFollows(env, s, body);
    case While(e, body) =>
      LoopFollows(env, s, e, body, 0, 1, NONE);
  }

  /** Without an exit in it an expression changes no flag, and there is nothing to catch. */
  lemma LookTame(env: Env, s: State, e: nat)
    requires IsQuiet(s.flags) && !Exits(env.eval(e, s.past, s.last))
    ensures Look(env, s, e).flags == s.flags && WorldOf(Look(env, s, e)) == See(env, WorldOf(s), e)
    ensures s.flags.(ret := false, brk := false) == s.flags && s.flags.(ret := false) == s.flags
  {}

  lemma StopExprFollows(env: Env, s: State, kind: StopKind, e: nat)
    requires IsQuiet(s.flags) && 0 < s.recLev <= ROUTE_MAX_REC_LEV
    ensures var a := Stop(kind, Expression(e)); Follows(s, Act(env, s, a), One(env, s.recLev, a, WorldOf(s)))
  {}

  lemma StopFollows(env: Env, s: State, a: Action)
    requires IsQuiet(s.flags) && 0 < s.recLev <= ROUTE_MAX_REC_LEV && a.Stop?
    ensures Follows(s, Act(env, s, a), One(env, s.recLev, a, WorldOf(s)))
  {
    if a.value.Expression? {
      StopExprFollows(env, s, a.kind, a.value.expr);
    }
  }

  lemma LeafFollows(env: Env, s: State, a: Action)
    requires IsQuiet(s.flags) && 0 < s.recLev <= ROUTE_MAX_REC_LEV && (a.Module? || a.Eval?)
    ensures Follows(s, Act(env, s, a), One(env, s.recLev, a, WorldOf(s)))
  {}

  lemma BranchFollows(env: Env, s: State, e: nat, yes: seq<Action>, no: seq<Action>)
    requires Tame(env) && IsQuiet(s.flags) && s.recLev > 0
    ensures Follows(s, Branch(env, s, e, yes, no), Decision(env, s.recLev, e, yes, no, WorldOf(s)))
    decreases Left(s.recLev), 2, 0, 0
  {
    var v := env.eval(e, s.past, s.last);
    if !Exits(v) {
      LookTame(env, s, e);
      RunFollows(env, Look(env, s, e), if v.rc == 0 && v.val > 0 then yes else no);
    }
  }

  lemma SelectFollows(env: Env, s: State, e: nat, cases: seq<Case>, def: seq<Action>)
    requires Tame(env) && IsQuiet(s.flags) && s.recLev > 0
    ensures Follows(s, Select(env, s, e, cases, def), Choice(env, s.recLev, e, cases, def, WorldOf(s)))
    decreases Left(s.recLev), 2, 0, 0
  {
    var v := env.eval(e, s.past, s.last);
    if !Exits(v) {
      LookTame(env, s, e);
      var k := Chosen(cases, v.val, 0);
      CatchingFollows(env, Look(env, s, e), if v.rc >= 0 && k < |cases| then cases[k].body else def);
    }
  }

  lemma {:induction false} LoopFollows(env: Env, s: State, e: nat, body: seq<Action>, i: nat, ret: int, seen: Flags)
    requires Tame(env) && IsQuiet(s.flags) && s.recLev > 0 && !Stops(seen)
    ensures Follows(s, Loop(env, s, e, body, i, ret, seen), Turns(env, s.recLev, e, body, i, ret, WorldOf(s)))
    decreases Left(s.recLev), 2, 0, env.maxLoops - i
  {
    var v, s1 := env.eval(e, s.past, s.last), Look(env, s, e);
    if !Exits(v) {
      LookTame(env, s, e);
      if v.rc == 0 && v.val != 0 && i + 1 <= env.maxLoops {
        if body == [] {
          LoopFollows(env, s1, e, body, i + 1, ret, seen);
        } else {
          RunFollows(env, s1, body);
          var r, x := Run(env, s1, body), Meaning(env, s.recLev, body, WorldOf(s1));
          if x.out.Normal? {
            assert r.st.flags.(brk := false) == s.flags;
            LoopFollows(env, r.st.(flags := r.st.flags.(brk := false)), e, body, i + 1, r.ret, Or(seen, r.st.flags));
          }
        }
      }
    }
  }

  // ----- Whole runs -----

  /** A run from s has done what the list means there; level 0 is a whole script. */
  ghost predicate RunIsStructured(env: Env, s: State, list: seq<Action>) {
    var r := Run(env, s, list);
    if s.recLev > 0 then Follows(s, r, Meaning(env, s.recLev, list, WorldOf(s)))
    else
      var x := Script(env, list, WorldOf(s));
      && WorldOf(r.st) == x.w && r.ret == x.ret
      && !r.jumped && r.st.recLev == 0
      && Encodes(NONE, r.st.flags, x.out)
  }

  lemma TameRunIsStructured(env: Env, s: State, list: seq<Action>)
    requires Tame(env) && (s.recLev == 0 || IsQuiet(s.flags))
    ensures RunIsStructured(env, s, list)
  {
    if s.recLev > 0 {
      RunFollows(env, s, list);
    } else if list != [] {
      var s1 := s.(recLev := 1, flags := NONE, last := 0);
      SeqFollows(env, s1, list);
      var r, x := RunSeq(env, s1, list), InOrder(env, 1, list, WorldOf(s1));
      assert Run(env, s, list).ret == x.ret;
    }
  }

  /** An expression that exits and lets a while, or a switch, go on: some run does more than it means. */
  lemma WildRunIsNot(env: Env, e: nat, past: seq<Event>, last: int) returns (s: State, list: seq<Action>)
    requires var v := env.eval(e, past, last); Exits(v) && (v.rc < 0 || (v.rc == 0 && v.val != 0))
    ensures s.flags == NONE && !RunIsStructured(env, s, list)
  {
    s := State(1, NONE, last, past, []);
    if env.eval(e, past, last).rc < 0 {
      list := [Switch(e, [], [])];
      var s2 := s.(recLev := 2);
      WildSwitch(env, s2, e);
      assert RunSeq(env, s2, list).st.last == -1;
      assert InOrder(env, 2, list, WorldOf(s2)).w.last == 0;
    } else {
      list := [While(e, [Module(0)])];
      var s2 := s.(recLev := 2);
      WildWhile(env, s2, e);
      var x := One(env, 2, list[0], WorldOf(s2));
      assert x.ret == 1 && |x.w.trace| == 1 && x.out.Exited?;
      assert InOrder(env, 2, list, WorldOf(s2)).w.last == 1;
      assert RunSeq(env, s2, list).st.last != 1 || |RunSeq(env, s2, list).st.trace| != 1;
    }
  }

  lemma WildSwitch(env: Env, s: State, e: nat)
    requires var v := env.eval(e, s.past, s.last); Exits(v) && v.rc < 0
    requires 0 < s.recLev <= ROUTE_MAX_REC_LEV
    ensures var r := Act(env, s, Switch(e, [], [])); r.ret == -1 && !r.jumped && r.st.flags.exit
  {
    var s1 := s.(trace := s.trace + [Start(Switch(e, [], []), s.recLev, IsQuiet(s.flags))]);
    assert Select(env, s1, e, [], []) == Result(Look(env, s1, e), -1, false);
  }

  lemma WildWhile(env: Env, s: State, e: nat)
    requires var v := env.eval(e, s.past, s.last); Exits(v) && v.rc == 0 && v.val != 0
    requires s.recLev == 2 && s.flags == NONE && s.trace == []
    ensures var r := Act(env, s, While(e, [Module(0)]));
            if r.jumped then |r.st.trace| == 2 else r.ret == -1 && r.st.flags.exit
  {
    var body := [Module(0)];
    var s1 := s.(trace := [Start(While(e, body), 2, true)]);
    assert s.trace + s1.trace == s1.trace;
    var s2 := Look(env, s1, e);
    if env.maxLoops >= 1 {
      var r := Act(env, s2.(recLev := 3), body[0]);
      assert r.st.flags.exit && |r.st.trace| == 2;
      assert RunSeq(env, s2.(recLev := 3), body).jumped;
      assert Run(env, s2, body).jumped;
      assert Loop(env, s1, e, body, 0, 1, NONE) == Run(env, s2, body);
    } else {
      assert Loop(env, s1, e, body, 0, 1, NONE) == Result(s2, -1, false);
    }
  }

  /** The interpreter computes the meaning of every script at every level exactly in tame environments. */
  lemma StructuredExactlyIfTame(env: Env)
    ensures Tame(env) <==> forall s: State, list: seq<Action> | IsQuiet(s.flags) :: RunIsStructured(env, s, list)
  {
    if Tame(env) {
      forall s: State, list: seq<Action> | IsQuiet(s.flags)
        ensures RunIsStructured(env, s, list)
      {
        TameRunIsStructured(env, s, list);
      }
    } else {
      var e, past, last :| var v := env.eval(e, past, last); Exits(v) && !(v.rc >= 0 && (v.rc != 0 || v.val == 0));
      var s, list := WildRunIsNot(env, e, past, last);
      assert IsQuiet(s.flags);
    }
  }

  /** `run_top_route`: a new context for a whole script. */
  method RunTopRoute(env: Env, list: seq<Action>) returns (ret: int, events: seq<Event>)
    ensures var r := Run(env, State(0, NONE, 0, [], []), list); ret == r.ret && events == r.st.past
    ensures Tame(env) ==> var x := Script(env, list, World(0, [], [])); ret == x.ret && events == x.w.past
  {
    var c := new Context(env);
    ghost var s := c.Now();
    var jumped;
    ret, jumped := c.RunActions(list);
    events := c.past;
    if Tame(env) {
      TameRunIsStructured(env, s, list);
    }
  }
}
