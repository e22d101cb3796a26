/**
  The routing-script interpreter of action.c: run_actions and the control-flow cases of
  do_action.  Break, return and exit are bits of run_flags, exit leaves through longjmp, and
  nesting is counted in rec_lev.

  Expressions and module functions are oracles that see everything evaluated and called so far
  and the last return code.  An expression may hold a script block, which runs in a context of its
  own (`run_actions_safe`): its return code, EXIT and DROP replace those of the script around it,
  and its returns and breaks are caught.
 */
module ScriptMachine {
  const ROUTE_MAX_REC_LEV := 100
  const E_UNSPEC := -1
  const E_BUG := -5
  const E_CFG := -6

  /** run_flags, bit by bit: EXIT_R_F, RETURN_R_F, BREAK_R_F, DROP_R_F, IGNORE_ON_BREAK_R_F. */
  datatype Flags = Flags(exit: bool, ret: bool, brk: bool, drop: bool, ignore: bool)

  const NONE := Flags(false, false, false, false, false)

  function Or(a: Flags, b: Flags): Flags {
    Flags(a.exit || b.exit, a.ret || b.ret, a.brk || b.brk, a.drop || b.drop, a.ignore || b.ignore)
  }

  /** The current block ends. */
  predicate Stops(f: Flags) {
    f.exit || f.ret || f.brk
  }

  /** What drop, exit, return and break put into run_flags. */
  datatype StopKind = Drop | Exit | Return | Break

  function StopFlags(k: StopKind): Flags {
    match k
    case Drop => NONE.(drop := true, exit := true)
    case Exit => NONE.(exit := true)
    case Return => NONE.(ret := true)
    case Break => NONE.(brk := true)
  }

  datatype StopValue = Number(n: int) | Expression(expr: nat) | LastRetcode

  /** An action list is a sequence; the null list is empty. */
  datatype Action =
    | Stop(kind: StopKind, value: StopValue)
    | Route(index: int)
    | If(cond: nat, yes: seq<Action>, no: seq<Action>)
    | Switch(cond: nat, cases: seq<Case>, def: seq<Action>)
    | Block(body: seq<Action>)
    | While(cond: nat, body: seq<Action>)
    | Eval(expr: nat)
    | Module(func: nat)

  datatype Case = Case(matches: int, body: seq<Action>)

  datatype Event = Evaluated(expr: nat) | Called(func: nat) | OnBreak

  /**
    The outcome of evaluating an expression: 0 or an error, the integer, and how the last script
    block inside ended, if there was one.
   */
  datatype Value = Value(rc: int, val: int, block: bool, exit: bool, drop: bool, last: int)

  /** The expression has ended the script. */
  predicate Exits(v: Value) {
    v.block && v.exit
  }

  datatype Env = Env(
    eval: (nat, seq<Event>, int) -> Value,
    call: (nat, seq<Event>, int) -> int,
    routes: seq<seq<Action>>,
    maxLoops: int)

  /**
    What the per-action hook sees: the action, the level, and whether it starts with none of BREAK,
    RETURN and EXIT set.
   */
  datatype Start = Start(action: Action, level: int, clean: bool)

  /** The script context, the events so far, and the actions started so far. */
  datatype State = State(recLev: nat, flags: Flags, last: int, past: seq<Event>, trace: seq<Start>)

  /** jumped: control is on its way to the setjmp of level 1. */
  datatype Result = Result(st: State, ret: int, jumped: bool)

  function Left(recLev: nat): nat {
    if recLev > ROUTE_MAX_REC_LEV then 0 else ROUTE_MAX_REC_LEV - recLev
  }

  /** The first case for this value. */
  function Chosen(cases: seq<Case>, v: int, i: nat): (k: nat)
    requires i <= |cases|
    ensures i <= k <= |cases|
    ensures k < |cases| ==> cases[k].matches == v
    ensures forall j | i <= j < k :: cases[j].matches != v
    decreases |cases| - i
  {
    if i == |cases| || cases[i].matches == v then i else Chosen(cases, v, i + 1)
  }

  // ----- One run of the interpreter, as a function of the context -----

  /** The flags after an expression; IGNORE_ON_BREAK is kept. */
  function FlagsAfter(f: Flags, v: Value): Flags {
    if v.block then NONE.(exit := v.exit, drop := v.exit && v.drop, ignore := f.ignore) else f
  }

  function LastAfter(last: int, v: Value): int {
    if v.block then v.last else last
  }

  /** The context after evaluating e. */
  function Look(env: Env, s: State, e: nat): State {
    var v := env.eval(e, s.past, s.last);
    s.(past := s.past + [Evaluated(e)], flags := FlagsAfter(s.flags, v), last := LastAfter(s.last, v))
  }

  /** `run_actions` */
  function Run(env: Env, s: State, list: seq<Action>): (r: Result)
    ensures !r.jumped ==> r.st.recLev == s.recLev
    ensures r.jumped ==> s.recLev > 0
    decreases Left(s.recLev), 0
  {
    if s.recLev >= ROUTE_MAX_REC_LEV then Result(s, E_UNSPEC, false)
    else
      var s1 := s.(recLev := s.recLev + 1);
      var s2 := if s1.recLev == 1 then s1.(flags := NONE, last := 0) else s1;
      var r := if list == [] then Result(s2, 1, false) else RunSeq(env, s2, list);
      if r.jumped && s1.recLev > 1 then r
      else
        var ret := if r.jumped then r.st.last else r.ret;
        Result(OnBreakHandlers(r.st.(recLev := s.recLev), ret), ret, false)
  }

  /** The module onbreak handlers run at the end of a whole script that returns 0. */
  function OnBreakHandlers(s: State, ret: int): State {
    if s.recLev == 0 && ret == 0 && !s.flags.ignore then s.(past := s.past + [OnBreak]) else s
  }

  /** The loop of `run_actions`. */
  function RunSeq(env: Env, s: State, list: seq<Action>): (r: Result)
    requires list != [] && 0 < s.recLev <= ROUTE_MAX_REC_LEV
    ensures !r.jumped ==> r.st.recLev == s.recLev
    decreases Left(s.recLev), 3, |list|
  {
    var r := Act(env, s, list[0]);
    if r.jumped then r
    else if r.st.flags.exit then Result(r.st.(last := r.ret), r.ret, true)
    else if Stops(r.st.flags) || |list| == 1 then r
    else RunSeq(env, r.st, list[1..])
  }

  /** A run whose breaks are caught by the construct around it. */
  function RunCatching(env: Env, s: State, list: seq<Action>): (r: Result)
    ensures !r.jumped ==> r.st.recLev == s.recLev
    decreases Left(s.recLev), 1
  {
    var r := Run(env, s, list);
    if r.jumped then r else r.(st := r.st.(flags := r.st.flags.(brk := false)))
  }

  /** `do_action` */
  function Act(env: Env, s0: State, a: Action): (r: Result)
    requires 0 < s0.recLev <= ROUTE_MAX_REC_LEV
    ensures !r.jumped ==> r.st.recLev == s0.recLev
    decreases Left(s0.recLev), 2, 1, 0
  {
    var s := s0.(trace := s0.trace + [Start(a, s0.recLev, !Stops(s0.flags))]);
    match a
    case Stop(kind, Number(n)) => Result(s.(flags := Or(s.flags, StopFlags(kind))), n, false)
    case Stop(kind, LastRetcode) => Result(s.(flags := Or(s.flags, StopFlags(kind))), s.last, false)
    case Stop(kind, Expression(e)) =>
      var s1 := Look(env, s, e);
      Result(s1.(flags := Or(s1.flags, StopFlags(kind))), env.eval(e, s.past, s.last).val, false)
    case Module(f) =>
      var ret := env.call(f, s.past, s.last);
      var flags := if ret == 0 then s.flags.(exit := true) else s.flags;
      Result(s.(past := s.past + [Called(f)], flags := flags, last := ret), ret, false)
    case Route(i) =>
      if i < 0 || i >= |env.routes| then Result(s, E_CFG, false)
      else
        var r := Run(env, s, env.routes[i]);
        if r.jumped then r
        else Result(r.st.(last := r.ret, flags := r.st.flags.(ret := false, brk := false)), r.ret, false)
    case If(e, yes, no) => Branch(env, s, e, yes, no)
    case Eval(e) =>
      var s1 := Look(env, s, e);
      if s1.flags.exit then Result(s1, 0, false)
      else Result(s1.(flags := s1.flags.(ret := false)), 1, false)
    case Switch(e, cases, def) => Select(env, s, e, cases, def)
    case Block(body) =>
      if body == [] then Result(s, E_BUG, false) else RunCatching(env, s, body)
    case While(e, body) => Loop(env, s, e, body, 0, 1, NONE)
  }

  /** The if statement. */
  function Branch(env: Env, s: State, e: nat, yes: seq<Action>, no: seq<Action>): (r: Result)
    ensures !r.jumped ==> r.st.recLev == s.recLev
    decreases Left(s.recLev), 2, 0, 0
  {
    var v, s1 := env.eval(e, s.past, s.last), Look(env, s, e);
    if s1.flags.exit then Result(s1, 0, false)
    else
      var s2 := s1.(flags := s1.flags.(ret := false, brk := false));
      var branch := if v.rc == 0 && v.val > 0 then yes else no;
      if branch == [] then Result(s2, 1, false) else Run(env, s2, branch)
  }

  /** The switch statement. */
  function Select(env: Env, s: State, e: nat, cases: seq<Case>, def: seq<Action>): (r: Result)
    ensures !r.jumped ==> r.st.recLev == s.recLev
    decreases Left(s.recLev), 2, 0, 0
  {
    var v, s1 := env.eval(e, s.past, s.last), Look(env, s, e);
    if v.rc < 0 then
      if def == [] then Result(s1, -1, false) else RunCatching(env, s1, def)
    else if s1.flags.exit then Result(s1, 0, false)
    else
      var s2 := s1.(flags := s1.flags.(ret := false, brk := false));
      var k := Chosen(cases, v.val, 0);
      var branch := if k < |cases| then cases[k].body else def;
      if branch == [] then Result(s2, 1, false) else RunCatching(env, s2, branch)
  }

  /** The while loop after i turns: ret is its value so far, seen the flags its body has left behind. */
  function Loop(env: Env, s: State, e: nat, body: seq<Action>, i: nat, ret: int, seen: Flags): (r: Result)
    ensures !r.jumped ==> r.st.recLev == s.recLev
    decreases Left(s.recLev), 2, 0, env.maxLoops - i
  {
    if Stops(seen) then Result(s, ret, false)
    else
      var v, s1 := env.eval(e, s.past, s.last), Look(env, s, e);
      if v.rc != 0 || v.val == 0 then Result(s1, ret, false)
      else if i + 1 > env.maxLoops then Result(s1, -1, false)
      else if body == [] then Loop(env, s1, e, body, i + 1, ret, seen)
      else
        var r := Run(env, s1, body);
        if r.jumped then r
        else Loop(env, r.st.(flags := r.st.flags.(brk := false)), e, body, i + 1, r.ret, Or(seen, r.st.flags))
  }

  // ----- The interpreter -----

  /** struct run_act_ctx, with the events and the actions started so far. */
  class Context {
    const env: Env
    var recLev: nat
    var runFlags: Flags
    var lastRetcode: int
    var past: seq<Event>
    ghost var trace: seq<Start>

    /** `init_run_actions_ctx` */
    constructor (env: Env)
      ensures this.env == env && Now() == State(0, NONE, 0, [], [])
    {
      this.env := env;
      recLev, runFlags, lastRetcode, past, trace := 0, NONE, 0, [], [];
    }

    ghost function Now(): State
      reads this
    {
      State(recLev, runFlags, lastRetcode, past, trace)
    }

    /** The call that made the context end in r, with control where r says it is. */
    ghost predicate Reached(r: Result, ret: int, jumped: bool)
      reads this
    {
      r == Result(Now(), ret, jumped)
    }

    /** `rval_expr_eval_int`, with the end of `run_actions_safe` if the expression holds a script block. */
    method EvalInt(e: nat) returns (v: Value)
      modifies this`runFlags, this`past, this`lastRetcode
      ensures v == env.eval(e, old(past), old(lastRetcode)) && Now() == Look(env, old(Now()), e)
    {
      v := env.eval(e, past, lastRetcode);
      past := past + [Evaluated(e)];
      if v.block {
        lastRetcode := v.last;
        runFlags := NONE.(exit := v.exit, drop := v.exit && v.drop, ignore := runFlags.ignore);
      }
    }

    /** `run_actions` */
    method RunActions(list: seq<Action>) returns (ret: int, jumped: bool)
      modifies this
      ensures Reached(Run(env, old(Now()), list), ret, jumped)
      decreases Left(recLev), 0
    {
      recLev := recLev + 1;
      if recLev > ROUTE_MAX_REC_LEV {
        recLev := recLev - 1;
        return E_UNSPEC, false;
      }
      var level := recLev;
      if level == 1 {
        runFlags, lastRetcode := NONE, 0;
      }
      if list == [] {
        ret, jumped := 1, false;
      } else {
        ret, jumped := RunLoop(list);
      }
      if jumped {
        if level > 1 {
          return;
        }
        recLev, ret, jumped := 0, lastRetcode, false;
      } else {
        recLev := recLev - 1;
      }
      if recLev == 0 && ret == 0 && !runFlags.ignore {
        past := past + [OnBreak];
      }
    }

    /** The loop of `run_actions`. */
    method RunLoop(list: seq<Action>) returns (ret: int, jumped: bool)
      requires list != [] && 0 < recLev <= ROUTE_MAX_REC_LEV
      modifies this
      ensures Reached(RunSeq(env, old(Now()), list), ret, jumped)
      decreases Left(recLev), 3, 0
    {
      var i := 0;
      ret := E_UNSPEC;
      assert list[0..] == list;
      while true
        invariant i < |list| && recLev == old(recLev)
        invariant RunSeq(env, Now(), list[i..]) == RunSeq(env, old(Now()), list)
        decreases |list| - i
      {
        assert list[i..][0] == list[i] && list[i..][1..] == list[i + 1..];
        ret, jumped := DoAction(list[i]);
        if jumped {
          return;
        }
        if Stops(runFlags) {
          if runFlags.exit {
            lastRetcode, jumped := ret, true;
          }
          return;
        }
        i := i + 1;
        if i == |list| {
          return;
        }
      }
    }

    /** A run whose breaks are caught by the construct around it. */
    method RunCatchingBreak(list: seq<Action>) returns (ret: int, jumped: bool)
      modifies this
      ensures Reached(RunCatching(env, old(Now()), list), ret, jumped)
      decreases Left(recLev), 1
    {
      ret, jumped := RunActions(list);
      if !jumped {
        runFlags := runFlags.(brk := false);
      }
    }

    /** `do_action` */
    method DoAction(a: Action) returns (ret: int, jumped: bool)
      requires 0 < recLev <= ROUTE_MAX_REC_LEV
      modifies this
      ensures Reached(Act(env, old(Now()), a), ret, jumped)
      decreases Left(recLev), 2, 1, 0
    {
      trace := trace + [Start(a, recLev, !Stops(runFlags))];
      jumped := false;
      match a {
        case Stop(kind, value) =>
          match value {
            case Number(n) => ret := n;
            case LastRetcode => ret := lastRetcode;
            case Expression(e) =>
              var v := EvalInt(e);
              ret := v.val;
          }
          runFlags := Or(runFlags, StopFlags(kind));
        case Module(f) =>
          ret := env.call(f, past, lastRetcode);
          past := past + [Called(f)];
          if ret == 0 {
            runFlags := runFlags.(exit := true);
          }
          lastRetcode := ret;
        case Route(i) =>
          if i >= |env.routes| || i < 0 {
            return E_CFG, false;
          }
          ret, jumped := RunActions(env.routes[i]);
          if !jumped {
            lastRetcode := ret;
            runFlags := runFlags.(ret := false, brk := false);
          }
        case If(e, yes, no) =>
          var v := EvalInt(e);
          if runFlags.exit {
            return 0, false;
          }
          runFlags := runFlags.(ret := false, brk := false);
          ret := 1;
          if v.rc == 0 && v.val > 0 {
            if yes != [] {
              ret, jumped := RunActions(yes);
            }
          } else if no != [] {
            ret, jumped := RunActions(no);
          }
        case Eval(e) =>
          var v := EvalInt(e);
          if runFlags.exit {
            return 0, false;
          }
          runFlags := runFlags.(ret := false);
          ret := 1;
        case Switch(e, cases, def) =>
          ret, jumped := DoSwitch(e, cases, def);
        case Block(body) =>
          ret := E_BUG;
          if body != [] {
            ret, jumped := RunCatchingBreak(body);
          }
        case While(e, body) =>
          ret, jumped := DoWhile(e, body);
      }
    }

    /** SWITCH_COND_T */
    method DoSwitch(e: nat, cases: seq<Case>, def: seq<Action>) returns (ret: int, jumped: bool)
      modifies this
      ensures Reached(Select(env, old(Now()), e, cases, def), ret, jumped)
      decreases Left(recLev), 2, 0, 0
    {
      jumped := false;
      var v := EvalInt(e);
      if v.rc < 0 {
        ret := -1;
      } else {
        if runFlags.exit {
          return 0, false;
        }
        runFlags := runFlags.(ret := false, brk := false);
        ret := 1;
        var i := 0;
        while i < |cases|
          invariant 0 <= i <= |cases|
          invariant Chosen(cases, v.val, 0) == Chosen(cases, v.val, i)
        {
          if cases[i].matches == v.val {
            if cases[i].body != [] {
              ret, jumped := RunCatchingBreak(cases[i].body);
            }
            return;
          }
          i := i + 1;
        }
      }
      if def != [] {
        ret, jumped := RunCatchingBreak(def);
      }
    }

    /** WHILE_T */
    method DoWhile(e: nat, body: seq<Action>) returns (ret: int, jumped: bool)
      modifies this
      ensures Reached(Loop(env, old(Now()), e, body, 0, 1, NONE), ret, jumped)
      decreases Left(recLev), 2, 0, 0
    {
      var i, flags := 0, NONE;
      ret, jumped := 1, false;
      while !Stops(flags)
        invariant 0 <= i && recLev == old(recLev) && !jumped
        invariant Loop(env, Now(), e, body, i, ret, flags) == Loop(env, old(Now()), e, body, 0, 1, NONE)
        decreases env.maxLoops - i
      {
        var v := EvalInt(e);
        if v.rc != 0 || v.val == 0 {
          return;
        }
        i := i + 1;
        if i > env.maxLoops {
          return -1, false;
        }
        if body != [] {
          ret, jumped := RunActions(body);
          if jumped {
            return;
          }
          flags := Or(flags, runFlags);
          runFlags := runFlags.(brk := false);
        }
      }
    }
  }
}
