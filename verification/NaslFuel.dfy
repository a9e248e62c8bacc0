/**
 Fuel only bounds: an evaluation that ends with some fuel ends the same way with more.  So the fuel
 in the two semantics stands for nothing but "long enough".
 */
module NaslFuel {
  import opened Common
  import opened NaslSyntax
  import opened NaslStructured

  lemma {:induction false} EvalMore(fuel: nat, gas: nat, P: Prims, e: Expr, frames: seq<Frame>)
    requires frames != [] && fuel <= gas && !Eval(fuel, P, e, frames).Dry?
    ensures Eval(gas, P, e, frames) == Eval(fuel, P, e, frames)
    decreases fuel, 1
  {
    EvalNodeMore(fuel, gas, P, e, frames);
  }

  lemma {:induction false} EvalNodeMore(fuel: nat, gas: nat, P: Prims, e: Expr, frames: seq<Frame>)
    requires frames != [] && 0 < fuel <= gas && !EvalNode(fuel, P, e, frames).Dry?
    ensures EvalNode(gas, P, e, frames) == EvalNode(fuel, P, e, frames)
    decreases fuel, 0
  {
    match e {
      case Const(_) =>
      case Var(_) =>
      case Incr(_, _, _) =>
      case Assign(x, e1) => EvalMore(fuel - 1, gas - 1, P, e1, Touch(frames, x).0);
      case OpAssign(_, x, e1) => EvalMore(fuel - 1, gas - 1, P, e1, Touch(frames, x).0);
      case Not(a) => EvalMore(fuel - 1, gas - 1, P, a, frames);
      case Exit(e1) => EvalMore(fuel - 1, gas - 1, P, e1, frames);
      case Call(f, args) => InvokeMore(fuel - 1, gas - 1, P, f, args, frames);
      case Bin(_, a, b) => BothMore(fuel - 1, gas - 1, P, a, b, frames);
      case And(a, b) => BothMore(fuel - 1, gas - 1, P, a, b, frames);
      case Or(a, b) => BothMore(fuel - 1, gas - 1, P, a, b, frames);
    }
  }

  lemma {:induction false} BothMore(fuel: nat, gas: nat, P: Prims, a: Expr, b: Expr, frames: seq<Frame>)
    requires frames != [] && fuel <= gas && !EvalBoth(fuel, P, a, b, frames).0.Dry?
    ensures var (p, q) := (EvalBoth(fuel, P, a, b, frames), EvalBoth(gas, P, a, b, frames));
            q.0 == p.0 && (!p.1.Dry? ==> q.1 == p.1)
    decreases fuel, 2
  {
    EvalMore(fuel, gas, P, a, frames);
    var r := Eval(fuel, P, a, frames);
    if r.Ok? && !Eval(fuel, P, b, r.frames).Dry? { EvalMore(fuel, gas, P, b, r.frames); }
  }

  lemma {:induction false} InvokeMore(fuel: nat, gas: nat, P: Prims, f: string, args: seq<Arg>, frames: seq<Frame>)
    requires frames != [] && fuel <= gas && !Invoke(fuel, P, f, args, frames).Dry?
    ensures Invoke(gas, P, f, args, frames) == Invoke(fuel, P, f, args, frames)
    decreases fuel, 0
  {
    var body := FindFun(frames, f, |frames|);
    if body.Some? {
      ArgsMore(fuel - 1, gas - 1, P, args, frames, EMPTY_FRAME, None);
      var q := EvalArgs(fuel - 1, P, args, frames, EMPTY_FRAME, None);
      if q.fr.Some? { ExecMore(fuel - 1, gas - 1, P, body.value, q.frames + [q.fr.value]); }
    }
  }

  lemma {:induction false} ArgsMore(fuel: nat, gas: nat, P: Prims, args: seq<Arg>, frames: seq<Frame>, acc: Frame,
                                    exited: Option<Value>)
    requires frames != [] && fuel <= gas && EvalArgs(fuel, P, args, frames, acc, exited).Bound?
    ensures EvalArgs(gas, P, args, frames, acc, exited) == EvalArgs(fuel, P, args, frames, acc, exited)
    decreases fuel, 0
  {
    if args != [] {
      if exited.None? { EvalMore(fuel - 1, gas - 1, P, args[0].e, frames); }
      var q := if exited.Some? then Exited(frames, Skipped(args[0].e, exited.value), exited.value)
               else Eval(fuel - 1, P, args[0].e, frames);
      var b := BindArg(acc, args[0].name, q.v);
      if b.Some? {
        ArgsMore(fuel - 1, gas - 1, P, args[1..], q.frames, b.value, if q.Exited? then Some(q.code) else None);
      }
    }
  }

  lemma {:induction false} ExecMore(fuel: nat, gas: nat, P: Prims, st: Stmt, frames: seq<Frame>)
    requires frames != [] && fuel <= gas && Exec(fuel, P, st, frames).Done?
    ensures Exec(gas, P, st, frames) == Exec(fuel, P, st, frames)
    decreases fuel, 2
  {
    ExecNodeMore(fuel, gas, P, st, frames);
  }

  lemma {:induction false} ExecNodeMore(fuel: nat, gas: nat, P: Prims, st: Stmt, frames: seq<Frame>)
    requires frames != [] && 0 < fuel <= gas && ExecNode(fuel, P, st, frames).Done?
    ensures ExecNode(gas, P, st, frames) == ExecNode(fuel, P, st, frames)
    decreases fuel, 1
  {
    match st {
      case Nop =>
      case Break =>
      case Continue =>
      case Local(_) =>
      case Global(_) =>
      case FunDef(_, _) =>
      case Do(e) => EvalMore(fuel - 1, gas - 1, P, e, frames);
      case Return(e) => EvalMore(fuel - 1, gas - 1, P, e, frames);
      case Seq(first, rest) =>
        ExecMore(fuel - 1, gas - 1, P, first, frames);
        var d := Exec(fuel - 1, P, first, frames);
        if d.sig == Normal { ExecMore(fuel - 1, gas - 1, P, rest, d.frames); }
      case If(c, thn, els) =>
        EvalMore(fuel - 1, gas - 1, P, c, frames);
        var q := Eval(fuel - 1, P, c, frames);
        if q.Ok? { ExecMore(fuel - 1, gas - 1, P, if Truthy(q.v) then thn else els, q.frames); }
      case _ => LoopMore(fuel, gas, P, st, frames, ExecNode(fuel, P, st, frames), ExecNode(gas, P, st, frames));
    }
  }

  lemma {:induction false} LoopMore(fuel: nat, gas: nat, P: Prims, st: Stmt, frames: seq<Frame>,
                                    r: ExecResult, q: ExecResult)
    requires frames != [] && 0 < fuel <= gas && r.Done?
    requires r == ExecNode(fuel, P, st, frames) && q == ExecNode(gas, P, st, frames)
    requires st.For? || st.While? || st.Repeat? || st.Foreach? || st.Repeated?
    ensures q == r
    decreases fuel, 0
  {
    match st {
      case For(init, c, step, body) =>
        EvalMore(fuel - 1, gas - 1, P, init, frames);
        var d := Eval(fuel - 1, P, init, frames);
        if d.Ok? { ForMore(fuel - 1, gas - 1, P, c, step, body, d.frames, r, q); }
      case While(c, body) => ForMore(fuel - 1, gas - 1, P, c, Const(Undef), body, frames, r, q);
      case Repeat(body, c) => RepeatMore(fuel - 1, gas - 1, P, body, c, frames, r, q);
      case Foreach(x, arr, body) =>
        var (fr, l) := Touch(frames, x);
        EvalMore(fuel - 1, gas - 1, P, arr, fr);
        var d := Eval(fuel - 1, P, arr, fr);
        if d.Ok? { ForeachMore(fuel - 1, gas - 1, P, l, Visits(d.v), body, d.frames, r, q); }
      case Repeated(e, count) =>
        EvalMore(fuel - 1, gas - 1, P, count, frames);
        var d := Eval(fuel - 1, P, count, frames);
        if d.Ok? { TimesMore(fuel - 1, gas - 1, P, e, P.toInt(d.v), d.frames); }
        if d.Exited? { TimesCutMore(fuel - 1, gas - 1, P.toInt(d.v), d.frames, d.code); }
    }
  }

  // The loops, step by step; `r` and `q` are what they come to with less and with more.

  lemma {:induction false} ForMore(fuel: nat, gas: nat, P: Prims, c: Expr, step: Expr, body: Stmt, frames: seq<Frame>,
                                   r: ExecResult, q: ExecResult)
    requires frames != [] && fuel <= gas && r.Done?
    requires r == ForLoop(fuel, P, c, step, body, frames) && q == ForLoop(gas, P, c, step, body, frames)
    ensures q == r
    decreases fuel, 0
  {
    EvalMore(fuel - 1, gas - 1, P, c, frames);
    ForTestMore(fuel - 1, gas - 1, P, c, step, body, Eval(fuel - 1, P, c, frames), r, q);
  }

  lemma {:induction false} ForTestMore(fuel: nat, gas: nat, P: Prims, c: Expr, step: Expr, body: Stmt, d: EvalResult,
                                       r: ExecResult, q: ExecResult)
    requires !d.Dry? && d.frames != [] && fuel <= gas && r.Done?
    requires r == ForTest(fuel, P, c, step, body, d) && q == ForTest(gas, P, c, step, body, d)
    ensures q == r
    decreases fuel, 5
  {
    if d.Ok? && Truthy(d.v) {
      ExecMore(fuel, gas, P, body, d.frames);
      ForAfterMore(fuel, gas, P, c, step, body, Exec(fuel, P, body, d.frames), r, q);
    }
  }

  lemma {:induction false} ForAfterMore(fuel: nat, gas: nat, P: Prims, c: Expr, step: Expr, body: Stmt, d: ExecResult,
                                        r: ExecResult, q: ExecResult)
    requires d.Done? && d.frames != [] && fuel <= gas && r.Done?
    requires r == ForAfter(fuel, P, c, step, body, d) && q == ForAfter(gas, P, c, step, body, d)
    ensures q == r
    decreases fuel, 4
  {
    ForStepMore(fuel, gas, P, c, step, body, d.frames, d.sig, r, q);
  }

  lemma {:induction false} ForStepMore(fuel: nat, gas: nat, P: Prims, c: Expr, step: Expr, body: Stmt,
                                       frames: seq<Frame>, sig: Signal, r: ExecResult, q: ExecResult)
    requires frames != [] && fuel <= gas && r.Done?
    requires r == ForStep(fuel, P, c, step, body, frames, sig) && q == ForStep(gas, P, c, step, body, frames, sig)
    ensures q == r
    decreases fuel, 3
  {
    if sig.Normal? || sig.Continued? {
      EvalMore(fuel, gas, P, step, frames);
      ForNextMore(fuel, gas, P, c, step, body, Eval(fuel, P, step, frames), r, q);
    }
  }

  lemma {:induction false} ForNextMore(fuel: nat, gas: nat, P: Prims, c: Expr, step: Expr, body: Stmt, d: EvalResult,
                                       r: ExecResult, q: ExecResult)
    requires !d.Dry? && d.frames != [] && fuel <= gas && r.Done?
    requires r == ForNext(fuel, P, c, step, body, d) && q == ForNext(gas, P, c, step, body, d)
    ensures q == r
    decreases fuel, 2
  {
    if d.Ok? { ForMore(fuel, gas, P, c, step, body, d.frames, r, q); }
  }

  lemma {:induction false} RepeatMore(fuel: nat, gas: nat, P: Prims, body: Stmt, c: Expr, frames: seq<Frame>,
                                      r: ExecResult, q: ExecResult)
    requires frames != [] && fuel <= gas && r.Done?
    requires r == RepeatLoop(fuel, P, body, c, frames) && q == RepeatLoop(gas, P, body, c, frames)
    ensures q == r
    decreases fuel, 0
  {
    ExecMore(fuel - 1, gas - 1, P, body, frames);
    RepeatAfterMore(fuel - 1, gas - 1, P, body, c, Exec(fuel - 1, P, body, frames), r, q);
  }

  lemma {:induction false} RepeatAfterMore(fuel: nat, gas: nat, P: Prims, body: Stmt, c: Expr, d: ExecResult,
                                           r: ExecResult, q: ExecResult)
    requires d.Done? && d.frames != [] && fuel <= gas && r.Done?
    requires r == RepeatAfter(fuel, P, body, c, d) && q == RepeatAfter(gas, P, body, c, d)
    ensures q == r
    decreases fuel, 4
  {
    RepeatTestMore(fuel, gas, P, body, c, d.frames, d.sig, r, q);
  }

  lemma {:induction false} RepeatTestMore(fuel: nat, gas: nat, P: Prims, body: Stmt, c: Expr, frames: seq<Frame>,
                                          sig: Signal, r: ExecResult, q: ExecResult)
    requires frames != [] && fuel <= gas && r.Done?
    requires r == RepeatTest(fuel, P, body, c, frames, sig) && q == RepeatTest(gas, P, body, c, frames, sig)
    ensures q == r
    decreases fuel, 3
  {
    if sig.Normal? || sig.Continued? {
      EvalMore(fuel, gas, P, c, frames);
      RepeatNextMore(fuel, gas, P, body, c, Eval(fuel, P, c, frames), r, q);
    }
  }

  lemma {:induction false} RepeatNextMore(fuel: nat, gas: nat, P: Prims, body: Stmt, c: Expr, d: EvalResult,
                                          r: ExecResult, q: ExecResult)
    requires !d.Dry? && d.frames != [] && fuel <= gas && r.Done?
    requires r == RepeatNext(fuel, P, body, c, d) && q == RepeatNext(gas, P, body, c, d)
    ensures q == r
    decreases fuel, 2
  {
    if d.Ok? && !Truthy(d.v) { RepeatMore(fuel, gas, P, body, c, d.frames, r, q); }
  }

  lemma {:induction false} ForeachMore(fuel: nat, gas: nat, P: Prims, l: Loc, vs: seq<Value>, body: Stmt,
                                       frames: seq<Frame>, r: ExecResult, q: ExecResult)
    requires frames != [] && fuel <= gas && r.Done?
    requires r == ForeachLoop(fuel, P, l, vs, body, frames) && q == ForeachLoop(gas, P, l, vs, body, frames)
    ensures q == r
    decreases fuel, 0
  {
    if vs != [] {
      ExecMore(fuel - 1, gas - 1, P, body, Write(frames, l, vs[0]));
      ForeachAfterMore(fuel - 1, gas - 1, P, l, vs[1..], body, Exec(fuel - 1, P, body, Write(frames, l, vs[0])), r, q);
    }
  }

  lemma {:induction false} ForeachAfterMore(fuel: nat, gas: nat, P: Prims, l: Loc, vs: seq<Value>, body: Stmt,
                                            d: ExecResult, r: ExecResult, q: ExecResult)
    requires d.Done? && d.frames != [] && fuel <= gas && r.Done?
    requires r == ForeachAfter(fuel, P, l, vs, body, d) && q == ForeachAfter(gas, P, l, vs, body, d)
    ensures q == r
    decreases fuel, 1
  {
    if d.sig.Normal? || d.sig.Continued? { ForeachMore(fuel, gas, P, l, vs, body, d.frames, r, q); }
  }

  lemma {:induction false} TimesMore(fuel: nat, gas: nat, P: Prims, e: Expr, n: int, frames: seq<Frame>)
    requires frames != [] && fuel <= gas && TimesLoop(fuel, P, e, n, frames).Done?
    ensures TimesLoop(gas, P, e, n, frames) == TimesLoop(fuel, P, e, n, frames)
    decreases fuel, 0
  {
    if n > 0 {
      EvalMore(fuel - 1, gas - 1, P, e, frames);
      var d := Eval(fuel - 1, P, e, frames);
      if d.Ok? { TimesMore(fuel - 1, gas - 1, P, e, n - 1, d.frames); }
      if d.Exited? { TimesCutMore(fuel - 1, gas - 1, n - 1, d.frames, d.code); }
    }
  }

  lemma {:induction false} TimesCutMore(fuel: nat, gas: nat, n: int, frames: seq<Frame>, code: Value)
    requires fuel <= gas && TimesCut(fuel, n, frames, code).Done?
    ensures TimesCut(gas, n, frames, code) == TimesCut(fuel, n, frames, code)
  {
    if n > 0 { TimesCutMore(fuel - 1, gas - 1, n - 1, frames, code); }
  }
}
