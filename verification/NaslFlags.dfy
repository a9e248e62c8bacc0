/**
 nasl_exec as it is written (nasl/exec.c, nasl/nasl_func.c): break, continue and return are flags of
 the current context, tested at every entry, set by the leaf statements and cleared by the loops.
 */
module NaslFlags {
  import opened Common
  import opened NaslSyntax

  /** fct_ctxt, ret_val, break_flag and cont_flag of one context. */
  datatype Flags = Flags(fct: bool, ret: Option<Value>, brk: bool, cont: bool)

  const CALL_FLAGS := Flags(true, None, false, false)

  /** The current context and the chain above it, the script's own first. */
  datatype State = State(frames: seq<Frame>, above: seq<Flags>, top: Flags)

  predicate Chained(s: State) { |s.frames| == |s.above| + 1 }

  predicate SameDepth(s: State, t: State) { |t.frames| == |s.frames| && |t.above| == |s.above| }

  /** What makes nasl_exec return at once. */
  predicate Guarded(f: Flags) { f.ret.Some? || f.brk || f.cont }

  function GuardValue(f: Flags): (v: Value) { if f.ret.Some? then f.ret.value else Undef }

  /** nasl_return: the value is written into every context up to the nearest function context. */
  function SetRet(s: State, v: Value): (t: State)
    ensures t.frames == s.frames && |t.above| == |s.above|
  {
    s.(top := s.top.(ret := Some(v)), above := if s.top.fct then s.above else SetAbove(s.above, |s.above|, v))
  }

  function SetAbove(flags: seq<Flags>, k: nat, v: Value): (r: seq<Flags>)
    requires k <= |flags|
    ensures |r| == |flags|
    decreases k
  {
    if k == 0 then flags
    else
      var r := flags[k - 1 := flags[k - 1].(ret := Some(v))];
      if flags[k - 1].fct then r else SetAbove(r, k - 1, v)
  }

  /** nasl_do_exit: the code is written into every context. */
  function SetEach(flags: seq<Flags>, code: Value): (r: seq<Flags>)
    ensures |r| == |flags|
  {
    if flags == [] then []
    else SetEach(flags[..|flags| - 1], code) + [flags[|flags| - 1].(ret := Some(code))]
  }

  lemma {:induction false} SetEachAt(flags: seq<Flags>, code: Value, k: nat)
    requires k < |flags|
    ensures SetEach(flags, code)[k] == flags[k].(ret := Some(code))
  {
    if k < |flags| - 1 { SetEachAt(flags[..|flags| - 1], code, k); }
  }

  function SetExit(s: State, code: Value): (t: State) {
    s.(top := s.top.(ret := Some(code)), above := SetEach(s.above, code))
  }

  /** A call gets a context of its own, chained to its caller's. */
  function Enter(s: State, fr: Frame): (t: State)
    requires Chained(s)
    ensures Chained(t) && |t.above| == |s.above| + 1
  {
    State(s.frames + [fr], s.above + [s.top], CALL_FLAGS)
  }

  function Leave(s: State): (t: State)
    requires Chained(s) && s.above != []
    ensures Chained(t) && |t.above| == |s.above| - 1
  {
    var n := |s.above| - 1;
    State(s.frames[..n + 1], s.above[..n], s.above[n])
  }

  datatype EvalResult = Dry | Ok(s: State, v: Value)
  datatype ExecResult = Dried | Done(s: State)
  datatype ArgsResult = DryArgs | Bound(s: State, fr: Option<Frame>)

  function Eval(fuel: nat, P: Prims, e: Expr, s: State): (r: EvalResult)
    requires Chained(s)
    ensures r.Ok? ==> Chained(r.s) && SameDepth(s, r.s)
    decreases fuel, 1
  {
    if Guarded(s.top) then Ok(s, GuardValue(s.top))
    else if fuel == 0 then Dry else EvalNode(fuel, P, e, s)
  }

  /** The switch on the kind of expression. */
  function EvalNode(fuel: nat, P: Prims, e: Expr, s: State): (r: EvalResult)
    requires fuel > 0 && Chained(s)
    ensures r.Ok? ==> Chained(r.s) && SameDepth(s, r.s)
    decreases fuel, 0
  {
    match e
    case Const(v) => Ok(s, v)
    case Var(x) => var (fr, l) := Touch(s.frames, x); Ok(s.(frames := fr), Read(fr, l))
    case Assign(x, e1) =>
      var (fr, l) := Touch(s.frames, x);
      (match Eval(fuel - 1, P, e1, s.(frames := fr))
       case Dry => Dry
       case Ok(s1, v) => Ok(s1.(frames := Write(s1.frames, l, v)), v))
    case OpAssign(op, x, e1) =>
      var (fr, l) := Touch(s.frames, x);
      (match Eval(fuel - 1, P, e1, s.(frames := fr))
       case Dry => Dry
       case Ok(s1, v) =>
         // The sum, or whatever it is, is a new node and evaluated like any other.
         var r := if Guarded(s1.top) then GuardValue(s1.top) else P.bin(op, Read(s1.frames, l), v);
         Ok(s1.(frames := Write(s1.frames, l, r)), r))
    case Incr(x, pre, delta) =>
      var (fr, l) := Touch(s.frames, x);
      var (fr1, v) := Increment(P, fr, l, pre, delta);
      Ok(s.(frames := fr1), v)
    case Bin(op, a, b) =>
      (match Eval(fuel - 1, P, a, s)
       case Dry => Dry
       case Ok(s1, v1) =>
         match Operand(fuel - 1, P, b, s1)
         case Dry => Dry
         case Ok(s2, v2) => Ok(s2, P.bin(op, v1, v2)))
    case And(a, b) =>
      (match Eval(fuel - 1, P, a, s)
       case Dry => Dry
       case Ok(s1, v1) => if !Truthy(v1) then Ok(s1, Bool(false)) else
         match Operand(fuel - 1, P, b, s1)
         case Dry => Dry
         case Ok(s2, v2) => Ok(s2, Bool(Truthy(v2))))
    case Or(a, b) =>
      (match Eval(fuel - 1, P, a, s)
       case Dry => Dry
       case Ok(s1, v1) => if Truthy(v1) then Ok(s1, Bool(true)) else
         match Operand(fuel - 1, P, b, s1)
         case Dry => Dry
         case Ok(s2, v2) => Ok(s2, Bool(Truthy(v2))))
    case Not(a) =>
      (match Eval(fuel - 1, P, a, s)
       case Dry => Dry
       case Ok(s1, v1) => Ok(s1, Bool(!Truthy(v1))))
    case Call(f, args) => Invoke(fuel - 1, P, f, args, s)
    case Exit(e1) =>
      (match Eval(fuel - 1, P, e1, s)
       case Dry => Dry
       case Ok(s1, v) => Ok(SetExit(s1, Int(P.toInt(v))), Int(P.toInt(v))))
  }

  /** cell2atom: a constant is its own value, whatever the flags say. */
  function Operand(fuel: nat, P: Prims, e: Expr, s: State): (r: EvalResult)
    requires Chained(s)
    ensures r.Ok? ==> Chained(r.s) && SameDepth(s, r.s)
    decreases fuel, 2
  {
    if Guarded(s.top) && e.Const? then Ok(s, e.v) else Eval(fuel, P, e, s)
  }

  /** nasl_func_call: arguments are evaluated in the caller's context, the body in a new one chained to it. */
  function Invoke(fuel: nat, P: Prims, f: string, args: seq<Arg>, s: State): (r: EvalResult)
    requires Chained(s)
    ensures r.Ok? ==> Chained(r.s) && SameDepth(s, r.s)
    decreases fuel, 0
  {
    if fuel == 0 then Dry else
    match FindFun(s.frames, f, |s.frames|)
    case None => Ok(s, Undef)
    case Some(body) =>
      match EvalArgs(fuel - 1, P, args, s, EMPTY_FRAME)
      case DryArgs => Dry
      case Bound(s1, None) => Ok(s1, Undef)
      case Bound(s1, Some(fr)) =>
        match Exec(fuel - 1, P, body, Enter(s1, fr))
        case Dried => Dry
        case Done(s2) => Ok(Leave(s2), GuardValue(s2.top))
  }

  function EvalArgs(fuel: nat, P: Prims, args: seq<Arg>, s: State, acc: Frame): (r: ArgsResult)
    requires Chained(s)
    ensures r.Bound? ==> Chained(r.s) && SameDepth(s, r.s)
    decreases fuel, 0
  {
    if fuel == 0 then DryArgs
    else if args == [] then Bound(s, Some(acc))
    else
      match Operand(fuel - 1, P, args[0].e, s)
      case Dry => DryArgs
      case Ok(s1, v) =>
        match BindArg(acc, args[0].name, v)
        case None => Bound(s1, None)
        case Some(acc1) => EvalArgs(fuel - 1, P, args[1..], s1, acc1)
  }

  function Exec(fuel: nat, P: Prims, st: Stmt, s: State): (r: ExecResult)
    requires Chained(s)
    ensures r.Done? ==> Chained(r.s) && SameDepth(s, r.s)
    decreases fuel, 1
  {
    if Guarded(s.top) then Done(s)
    else if fuel == 0 then Dried else ExecNode(fuel, P, st, s)
  }

  /** The switch on the kind of statement. */
  function ExecNode(fuel: nat, P: Prims, st: Stmt, s: State): (r: ExecResult)
    requires fuel > 0 && Chained(s)
    ensures r.Done? ==> Chained(r.s) && SameDepth(s, r.s)
    decreases fuel, 0
  {
    match st
    case Nop => Done(s)
    case Do(e) => Finish(Eval(fuel - 1, P, e, s))
    case Seq(first, rest) =>
      (match Exec(fuel - 1, P, first, s)
       case Dried => Dried
       case Done(s1) => if s1.top.brk || s1.top.cont then Done(s1) else Exec(fuel - 1, P, rest, s1))
    case If(c, thn, els) =>
      (match Eval(fuel - 1, P, c, s)
       case Dry => Dried
       case Ok(s1, v) => Exec(fuel - 1, P, if Truthy(v) then thn else els, s1))
    case For(init, c, step, body) =>
      (match Eval(fuel - 1, P, init, s)
       case Dry => Dried
       case Ok(s1, _) => ForLoop(fuel - 1, P, c, step, body, s1))
    case While(c, body) => ForLoop(fuel - 1, P, c, Const(Undef), body, s)
    case Repeat(body, c) => RepeatLoop(fuel - 1, P, body, c, s)
    case Foreach(x, arr, body) =>
      var (fr, l) := Touch(s.frames, x);
      (match Eval(fuel - 1, P, arr, s.(frames := fr))
       case Dry => Dried
       case Ok(s1, v) => ForeachLoop(fuel - 1, P, l, Visits(v), body, s1))
    case Repeated(e, count) =>
      (match Eval(fuel - 1, P, count, s)
       case Dry => Dried
       case Ok(s1, v) => TimesLoop(fuel - 1, P, e, P.toInt(v), s1))
    case Return(e) =>
      (match Eval(fuel - 1, P, e, s)
       case Dry => Dried
       case Ok(s1, v) => Done(SetRet(s1, v)))
    case Break => Done(s.(top := s.top.(brk := true)))
    case Continue => Done(s.(top := s.top.(cont := true)))
    case Local(names) => Done(s.(frames := Declare(s.frames, |s.frames| - 1, names)))
    case Global(names) => Done(s.(frames := Declare(s.frames, 0, names)))
    case FunDef(f, body) => Done(s.(frames := DefineFun(s.frames, f, body)))
  }

  function Finish(r: EvalResult): (x: ExecResult) {
    match r
    case Dry => Dried
    case Ok(s, _) => Done(s)
  }

  function ForLoop(fuel: nat, P: Prims, c: Expr, step: Expr, body: Stmt, s: State): (r: ExecResult)
    requires Chained(s)
    ensures r.Done? ==> Chained(r.s) && SameDepth(s, r.s)
    decreases fuel, 0
  {
    if s.top.ret.Some? then Done(s)
    else if fuel == 0 then Dried else ForTest(fuel - 1, P, c, step, body, Eval(fuel - 1, P, c, s))
  }

  /** After the condition, which came to `d`. */
  function ForTest(fuel: nat, P: Prims, c: Expr, step: Expr, body: Stmt, d: EvalResult): (r: ExecResult)
    requires d.Ok? ==> Chained(d.s)
    ensures r.Done? ==> d.Ok? && Chained(r.s) && SameDepth(d.s, r.s)
    decreases fuel, 4
  {
    match d
    case Dry => Dried
    case Ok(s1, v) => if !Truthy(v) then Done(s1) else ForAfter(fuel, P, c, step, body, Exec(fuel, P, body, s1))
  }

  /** After the body, which came to `d`. */
  function ForAfter(fuel: nat, P: Prims, c: Expr, step: Expr, body: Stmt, d: ExecResult): (r: ExecResult)
    requires d.Done? ==> Chained(d.s)
    ensures r.Done? ==> d.Done? && Chained(r.s) && SameDepth(d.s, r.s)
    decreases fuel, 3
  {
    match d
    case Dried => Dried
    case Done(s1) => ForStep(fuel, P, c, step, body, s1)
  }

  /** A break ends the loop, and anything else runs the step. */
  function ForStep(fuel: nat, P: Prims, c: Expr, step: Expr, body: Stmt, s: State): (r: ExecResult)
    requires Chained(s)
    ensures r.Done? ==> Chained(r.s) && SameDepth(s, r.s)
    decreases fuel, 2
  {
    if s.top.brk then Done(s.(top := s.top.(brk := false)))
    else ForNext(fuel, P, c, step, body, Eval(fuel, P, step, s.(top := s.top.(cont := false))))
  }

  /** After the step, which came to `d`. */
  function ForNext(fuel: nat, P: Prims, c: Expr, step: Expr, body: Stmt, d: EvalResult): (r: ExecResult)
    requires d.Ok? ==> Chained(d.s)
    ensures r.Done? ==> d.Ok? && Chained(r.s) && SameDepth(d.s, r.s)
    decreases fuel, 1
  {
    match d
    case Dry => Dried
    case Ok(s1, _) => ForLoop(fuel, P, c, step, body, s1)
  }

  function RepeatLoop(fuel: nat, P: Prims, body: Stmt, c: Expr, s: State): (r: ExecResult)
    requires Chained(s)
    ensures r.Done? ==> Chained(r.s) && SameDepth(s, r.s)
    decreases fuel, 0
  {
    if s.top.ret.Some? then Done(s)
    else if fuel == 0 then Dried else RepeatAfter(fuel - 1, P, body, c, Exec(fuel - 1, P, body, s))
  }

  /** After the body, which came to `d`. */
  function RepeatAfter(fuel: nat, P: Prims, body: Stmt, c: Expr, d: ExecResult): (r: ExecResult)
    requires d.Done? ==> Chained(d.s)
    ensures r.Done? ==> d.Done? && Chained(r.s) && SameDepth(d.s, r.s)
    decreases fuel, 3
  {
    match d
    case Dried => Dried
    case Done(s1) => RepeatTest(fuel, P, body, c, s1)
  }

  function RepeatTest(fuel: nat, P: Prims, body: Stmt, c: Expr, s: State): (r: ExecResult)
    requires Chained(s)
    ensures r.Done? ==> Chained(r.s) && SameDepth(s, r.s)
    decreases fuel, 2
  {
    if s.top.brk then Done(s.(top := s.top.(brk := false)))
    else RepeatNext(fuel, P, body, c, Eval(fuel, P, c, s.(top := s.top.(cont := false))))
  }

  /** After the condition, which came to `d`. */
  function RepeatNext(fuel: nat, P: Prims, body: Stmt, c: Expr, d: EvalResult): (r: ExecResult)
    requires d.Ok? ==> Chained(d.s)
    ensures r.Done? ==> d.Ok? && Chained(r.s) && SameDepth(d.s, r.s)
    decreases fuel, 1
  {
    match d
    case Dry => Dried
    case Ok(s1, v) => if Truthy(v) then Done(s1) else RepeatLoop(fuel, P, body, c, s1)
  }

  function ForeachLoop(fuel: nat, P: Prims, l: Loc, vs: seq<Value>, body: Stmt, s: State): (r: ExecResult)
    requires Chained(s)
    ensures r.Done? ==> Chained(r.s) && SameDepth(s, r.s)
    decreases fuel, 0
  {
    if fuel == 0 then Dried
    else if vs == [] then Done(s)
    else ForeachAfter(fuel - 1, P, l, vs[1..], body, Exec(fuel - 1, P, body, s.(frames := Write(s.frames, l, vs[0]))))
  }

  /** After the body, which came to `d`; `vs` are still to be visited. */
  function ForeachAfter(fuel: nat, P: Prims, l: Loc, vs: seq<Value>, body: Stmt, d: ExecResult): (r: ExecResult)
    requires d.Done? ==> Chained(d.s)
    ensures r.Done? ==> d.Done? && Chained(r.s) && SameDepth(d.s, r.s)
    decreases fuel, 1
  {
    match d
    case Dried => Dried
    case Done(s1) =>
      if s1.top.ret.Some? then Done(s1)
      else if s1.top.brk then Done(s1.(top := s1.top.(brk := false)))
      else ForeachLoop(fuel, P, l, vs, body, s1.(top := s1.top.(cont := false)))
  }

  function TimesLoop(fuel: nat, P: Prims, e: Expr, n: int, s: State): (r: ExecResult)
    requires Chained(s)
    ensures r.Done? ==> Chained(r.s) && SameDepth(s, r.s)
    decreases fuel, 0
  {
    if fuel == 0 then Dried
    else if n <= 0 then Done(s)
    else
      match Eval(fuel - 1, P, e, s)
      case Dry => Dried
      case Ok(s1, _) => TimesLoop(fuel - 1, P, e, n - 1, s1)
  }
}
