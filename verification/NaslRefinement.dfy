/**
 The flag-driven interpreter refines the structured semantics: same store, same outcome, for every
 program, every store and every amount of fuel.
 */
module NaslRefinement {
  import opened Common
  import opened NaslSyntax
  import F = NaslFlags
  import S = NaslStructured

  /** Between statements no flag is up, and the current context, unless it is the script's own, belongs to a call. */
  ghost predicate Ready(s: F.State) {
    F.Chained(s) && !F.Guarded(s.top) && InCall(s)
  }

  ghost predicate InCall(s: F.State) { s.above != [] ==> s.top.fct }

  /** How an outcome shows in the flags of the current context. */
  function Signalled(f: F.Flags, sig: S.Signal): (r: F.Flags) {
    match sig
    case Normal => f
    case Broke => f.(brk := true)
    case Continued => f.(cont := true)
    case Returned(v) => f.(ret := Some(v))
    case Quit(v, _) => f.(ret := Some(v))
  }

  /** ... and in those of its callers, which only an exit reaches. */
  function Outcome(s: F.State, frames: seq<Frame>, sig: S.Signal): (t: F.State) {
    F.State(frames, if sig.Quit? then F.SetEach(s.above, sig.code) else s.above, Signalled(s.top, sig))
  }

  /** The state in the middle of an expression, in which an exit may have happened. */
  function Pending(s: F.State, frames: seq<Frame>, exited: Option<Value>): (t: F.State) {
    if exited.None? then s.(frames := frames) else F.SetExit(s, exited.value).(frames := frames)
  }

  function ExitOf(q: S.EvalResult): (x: Option<Value>) {
    if q.Exited? then Some(q.code) else None
  }

  ghost predicate SameEval(s: F.State, r: F.EvalResult, q: S.EvalResult) {
    if q.Dry? then r == F.Dry else r == F.Ok(Pending(s, q.frames, ExitOf(q)), q.v)
  }

  ghost predicate SameArgs(s: F.State, r: F.ArgsResult, q: S.ArgsResult) {
    match q
    case DryArgs => r == F.DryArgs
    case Bound(frames, fr, exited) => r == F.Bound(Pending(s, frames, exited), fr)
  }

  ghost predicate SameExec(s: F.State, r: F.ExecResult, q: S.ExecResult) {
    match q
    case Dried => r == F.Dried
    case Done(frames, sig) => r == F.Done(Outcome(s, frames, sig))
  }

  /** nasl_return's climb stops at once: the caller's ret_val is out of its reach. */
  lemma {:induction false} ReturnStaysHere(s: F.State, v: Value)
    requires F.Chained(s) && InCall(s)
    ensures F.SetRet(s, v) == s.(top := s.top.(ret := Some(v)))
  {
  }

  lemma {:induction false} EvalRefines(fuel: nat, P: Prims, e: Expr, s: F.State)
    requires Ready(s)
    ensures SameEval(s, F.Eval(fuel, P, e, s), S.Eval(fuel, P, e, s.frames))
    decreases fuel, 1
  {
    if fuel > 0 { EvalNodeRefines(fuel, P, e, s); }
  }

  lemma {:induction false} EvalNodeRefines(fuel: nat, P: Prims, e: Expr, s: F.State)
    requires Ready(s) && fuel > 0
    ensures SameEval(s, F.EvalNode(fuel, P, e, s), S.EvalNode(fuel, P, e, s.frames))
    decreases fuel, 0
  {
    match e {
      case Const(_) =>
      case Var(_) =>
      case Incr(_, _, _) =>
      case Bin(_, a, b) => PairRefines(fuel - 1, P, a, b, s);
      case And(a, b) => PairRefines(fuel - 1, P, a, b, s);
      case Or(a, b) => PairRefines(fuel - 1, P, a, b, s);
      case Call(f, args) => InvokeRefines(fuel - 1, P, f, args, s);
      case _ => UnaryRefines(fuel - 1, P, e, s);
    }
  }

  lemma {:induction false} UnaryRefines(fuel: nat, P: Prims, e: Expr, s: F.State)
    requires Ready(s) && (e.Assign? || e.OpAssign? || e.Not? || e.Exit?)
    ensures SameEval(s, F.EvalNode(fuel + 1, P, e, s), S.EvalNode(fuel + 1, P, e, s.frames))
    decreases fuel, 2
  {
    match e {
      case Assign(x, e1) => EvalRefines(fuel, P, e1, s.(frames := Touch(s.frames, x).0));
      case OpAssign(_, x, e1) => EvalRefines(fuel, P, e1, s.(frames := Touch(s.frames, x).0));
      case Not(a) => EvalRefines(fuel, P, a, s);
      case Exit(e1) =>
        EvalRefines(fuel, P, e1, s);
        var q := S.Eval(fuel, P, e1, s.frames);
        if !q.Dry? { ExitAgain(s, q.frames, ExitOf(q), Int(P.toInt(q.v))); }
    }
  }

  /** A second exit overrules the first. */
  lemma {:induction false} ExitAgain(s: F.State, frames: seq<Frame>, exited: Option<Value>, code: Value)
    ensures F.SetExit(Pending(s, frames, exited), code) == Pending(s, frames, Some(code))
  {
    if exited.Some? { SetEachTwice(s.above, exited.value, code); }
  }

  lemma {:induction false} SetEachTwice(flags: seq<F.Flags>, c: Value, code: Value)
    ensures F.SetEach(F.SetEach(flags, c), code) == F.SetEach(flags, code)
  {
    if flags != [] {
      var n := |flags| - 1;
      SetEachTwice(flags[..n], c, code);
      var t := F.SetEach(flags, c);
      assert t[..n] == F.SetEach(flags[..n], c) && t[n] == flags[n].(ret := Some(c));
    }
  }

  lemma {:induction false} PairRefines(fuel: nat, P: Prims, a: Expr, b: Expr, s: F.State)
    requires Ready(s)
    ensures var p := S.EvalBoth(fuel, P, a, b, s.frames);
            && SameEval(s, F.Eval(fuel, P, a, s), p.0)
            && (!p.0.Dry? ==>
                  var s1 := Pending(s, p.0.frames, ExitOf(p.0));
                  F.Chained(s1) && SameEval(s, F.Operand(fuel, P, b, s1), p.1))
    decreases fuel, 2
  {
    EvalRefines(fuel, P, a, s);
    var q := S.Eval(fuel, P, a, s.frames);
    if q.Ok? { EvalRefines(fuel, P, b, s.(frames := q.frames)); }
  }

  lemma {:induction false} ArgsRefines(fuel: nat, P: Prims, args: seq<Arg>, s: F.State, acc: Frame,
                                       exited: Option<Value>)
    requires Ready(s)
    ensures SameArgs(s, F.EvalArgs(fuel, P, args, Pending(s, s.frames, exited), acc),
                     S.EvalArgs(fuel, P, args, s.frames, acc, exited))
    decreases fuel, 0
  {
    if fuel > 0 && args != [] {
      var q := ArgRefines(fuel - 1, P, args[0].e, s, exited);
      if !q.Dry? {
        var b := BindArg(acc, args[0].name, q.v);
        if b.Some? {
          var s1 := s.(frames := q.frames);
          assert Pending(s1, s1.frames, ExitOf(q)) == Pending(s, q.frames, ExitOf(q));
          ArgsRefines(fuel - 1, P, args[1..], s1, b.value, ExitOf(q));
        }
      }
    }
  }

  /** One argument, before or after an exit in an earlier one. */
  lemma {:induction false} ArgRefines(fuel: nat, P: Prims, e: Expr, s: F.State, exited: Option<Value>)
    returns (q: S.EvalResult)
    requires Ready(s)
    ensures q == if exited.Some? then S.Exited(s.frames, S.Skipped(e, exited.value), exited.value)
                 else S.Eval(fuel, P, e, s.frames)
    ensures F.Chained(Pending(s, s.frames, exited)) &&
            SameEval(s, F.Operand(fuel, P, e, Pending(s, s.frames, exited)), q)
    decreases fuel, 2
  {
    if exited.None? {
      EvalRefines(fuel, P, e, s);
      assert Pending(s, s.frames, exited) == s;
      q := S.Eval(fuel, P, e, s.frames);
    } else {
      q := S.Exited(s.frames, S.Skipped(e, exited.value), exited.value);
    }
  }

  lemma {:induction false} InvokeRefines(fuel: nat, P: Prims, f: string, args: seq<Arg>, s: F.State)
    requires Ready(s)
    ensures SameEval(s, F.Invoke(fuel, P, f, args, s), S.Invoke(fuel, P, f, args, s.frames))
    decreases fuel, 0
  {
    if fuel > 0 {
      var body := FindFun(s.frames, f, |s.frames|);
      if body.Some? {
        assert Pending(s, s.frames, None) == s;
        ArgsRefines(fuel - 1, P, args, s, EMPTY_FRAME, None);
        var q := S.EvalArgs(fuel - 1, P, args, s.frames, EMPTY_FRAME, None);
        if q.Bound? && q.fr.Some? {
          CallRefines(fuel - 1, P, body.value, s.(frames := q.frames), q.exited, q.fr.value,
                      F.Exec(fuel - 1, P, body.value, F.Enter(Pending(s, q.frames, q.exited), q.fr.value)),
                      S.Exec(fuel - 1, P, body.value, q.frames + [q.fr.value]));
        }
      }
    }
  }

  /** A call made in a context where an exit may be pending: it comes back to the same, unless its body exits. */
  lemma {:induction false} CallRefines(fuel: nat, P: Prims, body: Stmt, s: F.State, exited: Option<Value>, fr: Frame,
                                       r: F.ExecResult, q: S.ExecResult)
    requires Ready(s) && r == F.Exec(fuel, P, body, F.Enter(Pending(s, s.frames, exited), fr))
    requires q == S.Exec(fuel, P, body, s.frames + [fr])
    ensures match q
            case Dried => r == F.Dried
            case Done(frames, sig) =>
              && r.Done? && F.Chained(r.s) && r.s.above != []
              && F.Leave(r.s) == Pending(s, frames[..|s.frames|], if sig.Quit? then Some(sig.code) else exited)
              && F.GuardValue(r.s.top) == S.ResultOf(sig)
    decreases fuel, 3
  {
    var s1 := Pending(s, s.frames, exited);
    var s2 := F.Enter(s1, fr);
    ExecRefines(fuel, P, body, s2);
    if q.Done? { BackFrom(s, exited, s1, s2, q.frames, q.sig); }
  }

  lemma {:induction false} BackFrom(s: F.State, exited: Option<Value>, s1: F.State, s2: F.State, frames: seq<Frame>,
                                    sig: S.Signal)
    requires F.Chained(s) && s1 == Pending(s, s.frames, exited) && |frames| == |s.frames| + 1
    requires s2.above == s1.above + [s1.top]
    ensures var t := Outcome(s2, frames, sig);
            && F.Chained(t)
            && F.Leave(t) == Pending(s, frames[..|s.frames|], if sig.Quit? then Some(sig.code) else exited)
  {
    var t, n := Outcome(s2, frames, sig), |s.above|;
    if sig.Quit? {
      assert s2.above[..n] == s1.above && s2.above[n] == s1.top;
      assert t.above == F.SetEach(s1.above, sig.code) + [s1.top.(ret := Some(sig.code))];
      assert t.above[..n] == F.SetEach(s1.above, sig.code);
      if exited.Some? { SetEachTwice(s.above, exited.value, sig.code); }
    } else {
      assert t.above[..n] == s1.above;
    }
  }

  lemma {:induction false} ExecRefines(fuel: nat, P: Prims, st: Stmt, s: F.State)
    requires Ready(s)
    ensures SameExec(s, F.Exec(fuel, P, st, s), S.Exec(fuel, P, st, s.frames))
    decreases fuel, 2
  {
    if fuel > 0 { ExecNodeRefines(fuel, P, st, s); }
  }

  lemma {:induction false} ExecNodeRefines(fuel: nat, P: Prims, st: Stmt, s: F.State)
    requires Ready(s) && fuel > 0
    ensures SameExec(s, F.ExecNode(fuel, P, st, s), S.ExecNode(fuel, P, st, s.frames))
    decreases fuel, 1
  {
    match st {
      case Nop =>
      case Break =>
      case Continue =>
      case Local(_) =>
      case Global(_) =>
      case FunDef(_, _) =>
      case Do(e) => EvalRefines(fuel - 1, P, e, s);
      case Seq(_, _) => BlockRefines(fuel - 1, P, st, s);
      case If(_, _, _) => BlockRefines(fuel - 1, P, st, s);
      case Return(e) =>
        EvalRefines(fuel - 1, P, e, s);
        var q := S.Eval(fuel - 1, P, e, s.frames);
        if !q.Dry? { ReturnStaysHere(Pending(s, q.frames, ExitOf(q)), q.v); }
      case _ => LoopStmtRefines(fuel, P, st, s, F.ExecNode(fuel, P, st, s), S.ExecNode(fuel, P, st, s.frames));
    }
  }

  lemma {:induction false} BlockRefines(fuel: nat, P: Prims, st: Stmt, s: F.State)
    requires Ready(s) && (st.Seq? || st.If?)
    ensures SameExec(s, F.ExecNode(fuel + 1, P, st, s), S.ExecNode(fuel + 1, P, st, s.frames))
    decreases fuel, 3
  {
    match st {
      case Seq(first, rest) =>
        ExecRefines(fuel, P, first, s);
        var q := S.Exec(fuel, P, first, s.frames);
        if q.Done? && q.sig == S.Normal { ExecRefines(fuel, P, rest, s.(frames := q.frames)); }
      case If(c, thn, els) =>
        EvalRefines(fuel, P, c, s);
        var q := S.Eval(fuel, P, c, s.frames);
        if q.Ok? { ExecRefines(fuel, P, if Truthy(q.v) then thn else els, s.(frames := q.frames)); }
    }
  }

  lemma {:induction false} LoopStmtRefines(fuel: nat, P: Prims, st: Stmt, s: F.State, r: F.ExecResult, q: S.ExecResult)
    requires Ready(s) && fuel > 0 && (IsLoop(st) || st.Repeated?)
    requires r == F.ExecNode(fuel, P, st, s) && q == S.ExecNode(fuel, P, st, s.frames)
    ensures SameExec(s, r, q)
    decreases fuel, 0
  {
    match st {
      case For(init, c, step, body) =>
        EvalRefines(fuel - 1, P, init, s);
        var d := S.Eval(fuel - 1, P, init, s.frames);
        if d.Ok? { ForRefines(fuel - 1, P, c, step, body, s.(frames := d.frames), r, q); }
        if d.Exited? { ExitEndsFor(fuel - 1, P, c, step, body, Pending(s, d.frames, ExitOf(d))); }
      case While(c, body) => ForRefines(fuel - 1, P, c, Const(Undef), body, s, r, q);
      case Repeat(body, c) => RepeatRefines(fuel - 1, P, body, c, s, r, q);
      case Foreach(_, _, _) => VisitStmtRefines(fuel - 1, P, st, s, r, q);
      case Repeated(_, _) => VisitStmtRefines(fuel - 1, P, st, s, r, q);
    }
  }

  lemma {:induction false} VisitStmtRefines(fuel: nat, P: Prims, st: Stmt, s: F.State, r: F.ExecResult, q: S.ExecResult)
    requires Ready(s) && (st.Foreach? || st.Repeated?)
    requires r == F.ExecNode(fuel + 1, P, st, s) && q == S.ExecNode(fuel + 1, P, st, s.frames)
    ensures SameExec(s, r, q)
    decreases fuel, 2
  {
    match st {
      case Foreach(x, arr, body) =>
        var t := Touch(s.frames, x);
        EvalRefines(fuel, P, arr, s.(frames := t.0));
        var d := S.Eval(fuel, P, arr, t.0);
        if d.Ok? { ForeachRefines(fuel, P, t.1, Visits(d.v), body, s.(frames := d.frames), r, q); }
        if d.Exited? { ForeachAfterExit(fuel, P, t.1, Visits(d.v), body, s, d.frames, d.code); }
      case Repeated(e, count) =>
        EvalRefines(fuel, P, count, s);
        var d := S.Eval(fuel, P, count, s.frames);
        if d.Ok? { TimesRefines(fuel, P, e, P.toInt(d.v), s.(frames := d.frames)); }
        if d.Exited? { TimesAfterExit(fuel, P, e, P.toInt(d.v), s, d.frames, d.code); }
    }
  }

  // The loops, step by step; `d` and `e` are what the step before came to, `r` and `q` what becomes of the loop.

  lemma {:induction false} ForRefines(fuel: nat, P: Prims, c: Expr, step: Expr, body: Stmt, s: F.State,
                                      r: F.ExecResult, q: S.ExecResult)
    requires Ready(s)
    requires r == F.ForLoop(fuel, P, c, step, body, s) && q == S.ForLoop(fuel, P, c, step, body, s.frames)
    ensures SameExec(s, r, q)
    decreases fuel, 0
  {
    if fuel > 0 {
      EvalRefines(fuel - 1, P, c, s);
      ForTestRefines(fuel - 1, P, c, step, body, s, F.Eval(fuel - 1, P, c, s), S.Eval(fuel - 1, P, c, s.frames), r, q);
    }
  }

  lemma {:induction false} ForTestRefines(fuel: nat, P: Prims, c: Expr, step: Expr, body: Stmt, s: F.State,
                                          d: F.EvalResult, e: S.EvalResult, r: F.ExecResult, q: S.ExecResult)
    requires Ready(s) && SameEval(s, d, e) && (!e.Dry? ==> |e.frames| == |s.frames|) && (d.Ok? ==> F.Chained(d.s))
    requires r == F.ForTest(fuel, P, c, step, body, d) && q == S.ForTest(fuel, P, c, step, body, e)
    ensures SameExec(s, r, q)
    decreases fuel, 5
  {
    if e.Ok? && Truthy(e.v) {
      ForTrueRefines(fuel, P, c, step, body, s.(frames := e.frames), e.v, r, q);
    } else if e.Exited? {
      ExitEndsTest(fuel, P, c, step, body, d.s, d.v, r);
    }
  }

  lemma {:induction false} ForTrueRefines(fuel: nat, P: Prims, c: Expr, step: Expr, body: Stmt, s: F.State, v: Value,
                                          r: F.ExecResult, q: S.ExecResult)
    requires Ready(s) && Truthy(v)
    requires r == F.ForTest(fuel, P, c, step, body, F.Ok(s, v)) &&
             q == S.ForTest(fuel, P, c, step, body, S.Ok(s.frames, v))
    ensures SameExec(s, r, q)
    decreases fuel, 5, 0
  {
    ExecRefines(fuel, P, body, s);
    ForAfterRefines(fuel, P, c, step, body, s, F.Exec(fuel, P, body, s), S.Exec(fuel, P, body, s.frames), r, q);
  }

  lemma {:induction false} ExitEndsTest(fuel: nat, P: Prims, c: Expr, step: Expr, body: Stmt, t: F.State, v: Value,
                                        r: F.ExecResult)
    requires F.Chained(t) && t.top.ret.Some? && !t.top.brk && !t.top.cont
    requires r == F.ForTest(fuel, P, c, step, body, F.Ok(t, v))
    ensures r == F.Done(t)
  {
    ReturnEndsFor(fuel, P, c, step, body, t);
  }

  lemma {:induction false} ForAfterRefines(fuel: nat, P: Prims, c: Expr, step: Expr, body: Stmt, s: F.State,
                                           d: F.ExecResult, e: S.ExecResult, r: F.ExecResult, q: S.ExecResult)
    requires Ready(s) && SameExec(s, d, e) && (e.Done? ==> |e.frames| == |s.frames|) && (d.Done? ==> F.Chained(d.s))
    requires r == F.ForAfter(fuel, P, c, step, body, d) && q == S.ForAfter(fuel, P, c, step, body, e)
    ensures SameExec(s, r, q)
    decreases fuel, 4
  {
    if e.Done? { ForStepRefines(fuel, P, c, step, body, s.(frames := e.frames), d.s, e.sig, r, q); }
  }

  lemma {:induction false} ForStepRefines(fuel: nat, P: Prims, c: Expr, step: Expr, body: Stmt, s: F.State, t: F.State,
                                          sig: S.Signal, r: F.ExecResult, q: S.ExecResult)
    requires Ready(s) && t == Outcome(s, s.frames, sig) && F.Chained(t)
    requires r == F.ForStep(fuel, P, c, step, body, t)
    requires q == S.ForStep(fuel, P, c, step, body, s.frames, sig)
    ensures SameExec(s, r, q)
    decreases fuel, 3
  {
    if sig.Normal? || sig.Continued? {
      assert t.(top := t.top.(cont := false)) == s && !t.top.brk;
      EvalRefines(fuel, P, step, s);
      ForNextRefines(fuel, P, c, step, body, s, F.Eval(fuel, P, step, s), S.Eval(fuel, P, step, s.frames), r, q);
    } else if sig.Broke? {
      assert t.(top := t.top.(brk := false)) == s;
    } else {
      ReturnEndsFor(fuel, P, c, step, body, t);
    }
  }

  lemma {:induction false} ForNextRefines(fuel: nat, P: Prims, c: Expr, step: Expr, body: Stmt, s: F.State,
                                          d: F.EvalResult, e: S.EvalResult, r: F.ExecResult, q: S.ExecResult)
    requires Ready(s) && SameEval(s, d, e) && (!e.Dry? ==> |e.frames| == |s.frames|) && (d.Ok? ==> F.Chained(d.s))
    requires r == F.ForNext(fuel, P, c, step, body, d) && q == S.ForNext(fuel, P, c, step, body, e)
    ensures SameExec(s, r, q)
    decreases fuel, 2
  {
    if e.Ok? { ForRefines(fuel, P, c, step, body, s.(frames := e.frames), r, q); }
    if e.Exited? { ExitEndsFor(fuel, P, c, step, body, d.s); }
  }

  lemma {:induction false} ExitEndsFor(fuel: nat, P: Prims, c: Expr, step: Expr, body: Stmt, t: F.State)
    requires F.Chained(t) && t.top.ret.Some?
    ensures F.ForLoop(fuel, P, c, step, body, t) == F.Done(t)
  {
  }

  lemma {:induction false} ReturnEndsFor(fuel: nat, P: Prims, c: Expr, step: Expr, body: Stmt, t: F.State)
    requires F.Chained(t) && t.top.ret.Some? && !t.top.brk && !t.top.cont
    ensures F.ForStep(fuel, P, c, step, body, t) == F.Done(t)
    ensures F.Exec(fuel, P, body, t) == F.Done(t) && F.ForAfter(fuel, P, c, step, body, F.Done(t)) == F.Done(t)
  {
    assert t.(top := t.top.(cont := false)) == t;
    assert F.Eval(fuel, P, step, t) == F.Ok(t, t.top.ret.value);
    ExitEndsFor(fuel, P, c, step, body, t);
    assert F.ForNext(fuel, P, c, step, body, F.Ok(t, t.top.ret.value)) == F.Done(t);
  }

  lemma {:induction false} RepeatRefines(fuel: nat, P: Prims, body: Stmt, c: Expr, s: F.State,
                                         r: F.ExecResult, q: S.ExecResult)
    requires Ready(s) && r == F.RepeatLoop(fuel, P, body, c, s) && q == S.RepeatLoop(fuel, P, body, c, s.frames)
    ensures SameExec(s, r, q)
    decreases fuel, 0
  {
    if fuel > 0 {
      ExecRefines(fuel - 1, P, body, s);
      RepeatAfterRefines(fuel - 1, P, body, c, s,
                         F.Exec(fuel - 1, P, body, s), S.Exec(fuel - 1, P, body, s.frames), r, q);
    }
  }

  lemma {:induction false} RepeatAfterRefines(fuel: nat, P: Prims, body: Stmt, c: Expr, s: F.State,
                                              d: F.ExecResult, e: S.ExecResult, r: F.ExecResult, q: S.ExecResult)
    requires Ready(s) && SameExec(s, d, e) && (e.Done? ==> |e.frames| == |s.frames|) && (d.Done? ==> F.Chained(d.s))
    requires r == F.RepeatAfter(fuel, P, body, c, d) && q == S.RepeatAfter(fuel, P, body, c, e)
    ensures SameExec(s, r, q)
    decreases fuel, 4
  {
    if e.Done? { RepeatTestRefines(fuel, P, body, c, s.(frames := e.frames), d.s, e.sig, r, q); }
  }

  lemma {:induction false} RepeatTestRefines(fuel: nat, P: Prims, body: Stmt, c: Expr, s: F.State, t: F.State,
                                             sig: S.Signal, r: F.ExecResult, q: S.ExecResult)
    requires Ready(s) && t == Outcome(s, s.frames, sig) && F.Chained(t)
    requires r == F.RepeatTest(fuel, P, body, c, t) && q == S.RepeatTest(fuel, P, body, c, s.frames, sig)
    ensures SameExec(s, r, q)
    decreases fuel, 3
  {
    if sig.Normal? || sig.Continued? {
      assert t.(top := t.top.(cont := false)) == s && !t.top.brk;
      EvalRefines(fuel, P, c, s);
      RepeatNextRefines(fuel, P, body, c, s, F.Eval(fuel, P, c, s), S.Eval(fuel, P, c, s.frames), r, q);
    } else if sig.Broke? {
      assert t.(top := t.top.(brk := false)) == s;
    } else {
      ReturnEndsRepeat(fuel, P, body, c, t);
    }
  }

  lemma {:induction false} RepeatNextRefines(fuel: nat, P: Prims, body: Stmt, c: Expr, s: F.State,
                                             d: F.EvalResult, e: S.EvalResult, r: F.ExecResult, q: S.ExecResult)
    requires Ready(s) && SameEval(s, d, e) && (!e.Dry? ==> |e.frames| == |s.frames|) && (d.Ok? ==> F.Chained(d.s))
    requires r == F.RepeatNext(fuel, P, body, c, d) && q == S.RepeatNext(fuel, P, body, c, e)
    ensures SameExec(s, r, q)
    decreases fuel, 2
  {
    if e.Ok? && !Truthy(e.v) { RepeatRefines(fuel, P, body, c, s.(frames := e.frames), r, q); }
    if e.Exited? { ExitEndsRepeat(fuel, P, body, c, d.s); }
  }

  lemma {:induction false} ExitEndsRepeat(fuel: nat, P: Prims, body: Stmt, c: Expr, t: F.State)
    requires F.Chained(t) && t.top.ret.Some?
    ensures F.RepeatLoop(fuel, P, body, c, t) == F.Done(t)
  {
  }

  lemma {:induction false} ReturnEndsRepeat(fuel: nat, P: Prims, body: Stmt, c: Expr, t: F.State)
    requires F.Chained(t) && t.top.ret.Some? && !t.top.brk && !t.top.cont
    ensures F.RepeatTest(fuel, P, body, c, t) == F.Done(t)
  {
    assert t.(top := t.top.(cont := false)) == t;
    assert F.Eval(fuel, P, c, t) == F.Ok(t, t.top.ret.value);
    ExitEndsRepeat(fuel, P, body, c, t);
    assert F.RepeatNext(fuel, P, body, c, F.Ok(t, t.top.ret.value)) == F.Done(t);
  }

  lemma {:induction false} ForeachRefines(fuel: nat, P: Prims, l: Loc, vs: seq<Value>, body: Stmt, s: F.State,
                                          r: F.ExecResult, q: S.ExecResult)
    requires Ready(s)
    requires r == F.ForeachLoop(fuel, P, l, vs, body, s) && q == S.ForeachLoop(fuel, P, l, vs, body, s.frames)
    ensures SameExec(s, r, q)
    decreases fuel, 0
  {
    if fuel > 0 && vs != [] {
      var s1 := s.(frames := Write(s.frames, l, vs[0]));
      ExecRefines(fuel - 1, P, body, s1);
      ForeachAfterRefines(fuel - 1, P, l, vs[1..], body, s1, F.Exec(fuel - 1, P, body, s1),
                          S.Exec(fuel - 1, P, body, s1.frames), r, q);
    }
  }

  lemma {:induction false} ForeachAfterRefines(fuel: nat, P: Prims, l: Loc, vs: seq<Value>, body: Stmt, s: F.State,
                                               d: F.ExecResult, e: S.ExecResult, r: F.ExecResult, q: S.ExecResult)
    requires Ready(s) && SameExec(s, d, e) && (e.Done? ==> |e.frames| == |s.frames|) && (d.Done? ==> F.Chained(d.s))
    requires r == F.ForeachAfter(fuel, P, l, vs, body, d) && q == S.ForeachAfter(fuel, P, l, vs, body, e)
    ensures SameExec(s, r, q)
    decreases fuel, 1
  {
    if e.Done? && (e.sig.Normal? || e.sig.Continued?) {
      var s1 := s.(frames := e.frames);
      assert d.s.(top := d.s.top.(cont := false)) == s1;
      ForeachRefines(fuel, P, l, vs, body, s1, r, q);
    }
  }

  lemma {:induction false} ForeachAfterExit(fuel: nat, P: Prims, l: Loc, vs: seq<Value>, body: Stmt, s: F.State,
                                            frames: seq<Frame>, code: Value)
    requires F.Chained(s) && |frames| == |s.frames|
    ensures SameExec(s, F.ForeachLoop(fuel, P, l, vs, body, Pending(s, frames, Some(code))),
                     S.ForeachCut(fuel, l, vs, frames, code))
  {
    if fuel > 0 && vs != [] {
      var t := Pending(s, Write(frames, l, vs[0]), Some(code));
      assert F.Exec(fuel - 1, P, body, t) == F.Done(t);
    }
  }

  lemma {:induction false} TimesRefines(fuel: nat, P: Prims, e: Expr, n: int, s: F.State)
    requires Ready(s)
    ensures SameExec(s, F.TimesLoop(fuel, P, e, n, s), S.TimesLoop(fuel, P, e, n, s.frames))
    decreases fuel, 0
  {
    if fuel > 0 && n > 0 {
      EvalRefines(fuel - 1, P, e, s);
      var q := S.Eval(fuel - 1, P, e, s.frames);
      if q.Ok? { TimesRefines(fuel - 1, P, e, n - 1, s.(frames := q.frames)); }
      if q.Exited? { TimesAfterExit(fuel - 1, P, e, n - 1, s, q.frames, q.code); }
    }
  }

  lemma {:induction false} TimesAfterExit(fuel: nat, P: Prims, e: Expr, n: int, s: F.State, frames: seq<Frame>,
                                          code: Value)
    requires F.Chained(s) && |frames| == |s.frames|
    ensures SameExec(s, F.TimesLoop(fuel, P, e, n, Pending(s, frames, Some(code))), S.TimesCut(fuel, n, frames, code))
    decreases fuel
  {
    if fuel > 0 && n > 0 { TimesAfterExit(fuel - 1, P, e, n - 1, s, frames, code); }
  }

  // ----- what follows for the flags -----

  predicate IsLoop(st: Stmt) { st.For? || st.While? || st.Repeat? || st.Foreach? }

  /** A break or a continue does not get out of its loop. */
  lemma {:induction false} LoopSignals(fuel: nat, P: Prims, st: Stmt, frames: seq<Frame>)
    requires frames != [] && IsLoop(st)
    ensures var q := S.Exec(fuel, P, st, frames);
            q.Done? ==> S.AfterLoop(q.sig)
  {
    if fuel > 0 { assert S.Exec(fuel, P, st, frames) == S.ExecNode(fuel, P, st, frames); }
  }

  /** Every loop exits with both flags clear. */
  lemma {:induction false} LoopsClearFlags(fuel: nat, P: Prims, st: Stmt, s: F.State)
    requires Ready(s) && IsLoop(st)
    ensures var r := F.Exec(fuel, P, st, s);
            r.Done? ==> !r.s.top.brk && !r.s.top.cont
  {
    ExecRefines(fuel, P, st, s);
    LoopSignals(fuel, P, st, s.frames);
  }

  /** After a return or an exit, the rest of a block, whatever it is, changes neither store nor flags. */
  lemma {:induction false} NothingAfterReturn(fuel: nat, P: Prims, first: Stmt, rest: Stmt, s: F.State, r: F.ExecResult)
    requires Ready(s) && r == F.Exec(fuel, P, first, s) && r.Done? && r.s.top.ret.Some?
    ensures F.Exec(fuel + 1, P, Seq(first, rest), s) == r
  {
    GuardedExec(fuel, P, rest, r.s);
    assert F.Exec(fuel + 1, P, Seq(first, rest), s) == F.ExecNode(fuel + 1, P, Seq(first, rest), s);
  }

  lemma {:induction false} GuardedExec(fuel: nat, P: Prims, st: Stmt, t: F.State)
    requires F.Chained(t) && F.Guarded(t.top)
    ensures F.Exec(fuel, P, st, t) == F.Done(t)
  {
  }

  /** A call leaves the flags of all its callers as they were if and only if no exit happens in it. */
  lemma {:induction false} CallKeepsFlags(fuel: nat, P: Prims, f: string, args: seq<Arg>, s: F.State)
    requires Ready(s)
    ensures var r, q := F.Eval(fuel, P, Call(f, args), s), S.Eval(fuel, P, Call(f, args), s.frames);
            && (r.Ok? <==> !q.Dry?)
            && (r.Ok? ==> ((r.s.top == s.top && r.s.above == s.above) <==> q.Ok?))
  {
    EvalRefines(fuel, P, Call(f, args), s);
  }

  /** An exit, however deep in calls, ends every context with its code, and changes no other flag. */
  lemma {:induction false} ExitReachesAll(fuel: nat, P: Prims, e: Expr, s: F.State)
    requires Ready(s) && S.Eval(fuel, P, e, s.frames).Exited?
    ensures var r, code := F.Eval(fuel, P, e, s), S.Eval(fuel, P, e, s.frames).code;
            && r.Ok? && r.s.top == s.top.(ret := Some(code)) && |r.s.above| == |s.above|
            && forall k :: 0 <= k < |s.above| ==> r.s.above[k] == s.above[k].(ret := Some(code))
  {
    EvalRefines(fuel, P, e, s);
    forall k | 0 <= k < |s.above| { F.SetEachAt(s.above, S.Eval(fuel, P, e, s.frames).code, k); }
  }

  // ----- two programs -----

  /** A script that has defined `f`. */
  function Script(body: Stmt): (s: F.State) {
    F.State([Frame(map["g" := Int(0)], [], map["f" := body])], [], F.Flags(false, None, false, false))
  }

  /** `function f() { exit(3); }`: calling it ends the script. */
  lemma {:induction false} ExitInCall(P: Prims)
    ensures var s := Script(Do(Exit(Const(Int(3)))));
            var code := Int(P.toInt(Int(3)));
            Ready(s) && F.Eval(5, P, Call("f", []), s) == F.Ok(s.(top := s.top.(ret := Some(code))), code)
  {
    var body := Do(Exit(Const(Int(3))));
    var s, code := Script(body), Int(P.toInt(Int(3)));
    var called := s.frames + [EMPTY_FRAME];
    assert FindFun(s.frames, "f", 1) == Some(body);
    assert S.Eval(2, P, Exit(Const(Int(3))), called) == S.Exited(called, code, code) by {
      assert S.Eval(1, P, Const(Int(3)), called) == S.Ok(called, Int(3));
    }
    assert S.Exec(3, P, body, called) == S.Done(called, S.Quit(code, code));
    assert S.EvalArgs(3, P, [], s.frames, EMPTY_FRAME, None) == S.Bound(s.frames, Some(EMPTY_FRAME), None);
    assert called[..1] == s.frames;
    assert S.Invoke(4, P, "f", [], s.frames) == S.Exited(s.frames, code, code);
    EvalRefines(5, P, Call("f", []), s);
  }

  /** `function f() { g = 1; }  f(exit(3));`: the exit comes first, and the call is made all the same. */
  lemma {:induction false} CallAfterExit(P: Prims)
    ensures var s := Script(Do(Assign("g", Const(Int(1)))));
            var r := F.Eval(6, P, Call("f", [Arg(None, Exit(Const(Int(3))))]), s);
            Ready(s) && r.Ok? && r.s.top.ret.Some? && Read(r.s.frames, Loc(0, "g")) == Int(1)
  {
    var s, arg := Script(Do(Assign("g", Const(Int(1))))), Arg(None, Exit(Const(Int(3))));
    var after := ExitedCall(P, s, arg);
    EvalRefines(6, P, Call("f", [arg]), s);
  }

  lemma {:induction false} ExitedCall(P: Prims, s: F.State, arg: Arg) returns (after: seq<Frame>)
    requires s == Script(Do(Assign("g", Const(Int(1))))) && arg == Arg(None, Exit(Const(Int(3))))
    ensures Read(after, Loc(0, "g")) == Int(1)
    ensures S.Eval(6, P, Call("f", [arg]), s.frames) == S.Exited(after, Undef, Int(P.toInt(Int(3))))
  {
    var body, code := Do(Assign("g", Const(Int(1)))), Int(P.toInt(Int(3)));
    var fr := EMPTY_FRAME.(anon := [code]);
    var all := Write(s.frames + [fr], Loc(0, "g"), Int(1));
    assert FindFun(s.frames, "f", 1) == Some(body);
    ExitedArgument(P, s.frames, arg, fr, code);
    AssignsG(P, s.frames, fr, body, all);
    after := all[..1];
    assert S.Invoke(5, P, "f", [arg], s.frames) == S.Exited(after, Undef, code);
  }

  lemma {:induction false} ExitedArgument(P: Prims, frames: seq<Frame>, arg: Arg, fr: Frame, code: Value)
    requires frames != [] && arg == Arg(None, Exit(Const(Int(3)))) && code == Int(P.toInt(Int(3)))
    requires fr == EMPTY_FRAME.(anon := [code])
    ensures S.EvalArgs(4, P, [arg], frames, EMPTY_FRAME, None) == S.Bound(frames, Some(fr), Some(code))
  {
    assert S.Eval(2, P, Const(Int(3)), frames) == S.Ok(frames, Int(3));
    assert S.Eval(3, P, arg.e, frames) == S.Exited(frames, code, code);
    assert [arg][1..] == [] && EMPTY_FRAME.anon + [code] == [code];
    assert S.EvalArgs(3, P, [], frames, fr, Some(code)) == S.Bound(frames, Some(fr), Some(code));
  }

  lemma {:induction false} AssignsG(P: Prims, frames: seq<Frame>, fr: Frame, body: Stmt, after: seq<Frame>)
    requires |frames| == 1 && "g" in frames[0].vars && "g" !in fr.vars && body == Do(Assign("g", Const(Int(1))))
    requires after == Write(frames + [fr], Loc(0, "g"), Int(1))
    ensures S.Exec(4, P, body, frames + [fr]) == S.Done(after, S.Normal)
  {
    var called := frames + [fr];
    assert Touch(called, "g") == (called, Loc(0, "g")) by { assert Level(called, "g", 1) == 0; }
    assert S.Eval(2, P, Const(Int(1)), called) == S.Ok(called, Int(1));
    assert S.Eval(3, P, body.e, called) == S.Ok(after, Int(1));
  }
}
