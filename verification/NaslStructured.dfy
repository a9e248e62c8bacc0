/**
 NASL as its author would explain it: statements end normally, break, continue, return or exit, and
 nothing else is remembered.  No flags.  This is the reference that the interpreter is measured against.

 An exit ends the script, but not at once: the expression it stands in is finished first.  Operands
 still to come are not evaluated, assignments under way are made, and a call whose argument exited is
 made.

 `fuel` bounds the depth of the evaluation; running out of it stands for a run that has not ended.
 */
module NaslStructured {
  import opened Common
  import opened NaslSyntax

  /** `Quit(v, code)`: an exit with `code`, while the context it happened in has `v` for its own result. */
  datatype Signal = Normal | Broke | Continued | Returned(v: Value) | Quit(v: Value, code: Value)

  /** `Exited(frames, v, code)`: an exit with `code` happened, and the expression came to `v` nevertheless. */
  datatype EvalResult = Dry | Ok(frames: seq<Frame>, v: Value) | Exited(frames: seq<Frame>, v: Value, code: Value)
  datatype ExecResult = Dried | Done(frames: seq<Frame>, sig: Signal)
  datatype ArgsResult = DryArgs | Bound(frames: seq<Frame>, fr: Option<Frame>, exited: Option<Value>)

  /** What an operand that is no longer evaluated stands for: a constant for itself. */
  function Skipped(e: Expr, code: Value): (v: Value) {
    if e.Const? then e.v else code
  }

  function Ended(frames: seq<Frame>, v: Value, exited: Option<Value>): (r: EvalResult) {
    if exited.None? then Ok(frames, v) else Exited(frames, v, exited.value)
  }

  function Eval(fuel: nat, P: Prims, e: Expr, frames: seq<Frame>): (r: EvalResult)
    requires frames != []
    ensures !r.Dry? ==> |r.frames| == |frames|
    decreases fuel, 1
  {
    if fuel == 0 then Dry else EvalNode(fuel, P, e, frames)
  }

  /** The switch on the kind of expression. */
  function EvalNode(fuel: nat, P: Prims, e: Expr, frames: seq<Frame>): (r: EvalResult)
    requires fuel > 0 && frames != []
    ensures !r.Dry? ==> |r.frames| == |frames|
    decreases fuel, 0
  {
    match e
    case Const(v) => Ok(frames, v)
    case Var(x) => var (fr, l) := Touch(frames, x); Ok(fr, Read(fr, l))
    case Assign(x, e1) =>
      var (fr, l) := Touch(frames, x);
      var r := Eval(fuel - 1, P, e1, fr);
      if r.Dry? then Dry else r.(frames := Write(r.frames, l, r.v))
    case OpAssign(op, x, e1) =>
      var (fr, l) := Touch(frames, x);
      var r := Eval(fuel - 1, P, e1, fr);
      if r.Dry? then Dry
      else
        var v := if r.Exited? then r.code else P.bin(op, Read(r.frames, l), r.v);
        r.(frames := Write(r.frames, l, v), v := v)
    case Incr(x, pre, delta) =>
      var (fr, l) := Touch(frames, x);
      var (fr1, v) := Increment(P, fr, l, pre, delta);
      Ok(fr1, v)
    case Bin(op, a, b) =>
      var (r, q) := EvalBoth(fuel - 1, P, a, b, frames);
      if r.Dry? || q.Dry? then Dry else q.(v := P.bin(op, r.v, q.v))
    case And(a, b) =>
      var (r, q) := EvalBoth(fuel - 1, P, a, b, frames);
      if r.Dry? then Dry
      else if !Truthy(r.v) then r.(v := Bool(false))
      else if q.Dry? then Dry else q.(v := Bool(Truthy(q.v)))
    case Or(a, b) =>
      var (r, q) := EvalBoth(fuel - 1, P, a, b, frames);
      if r.Dry? then Dry
      else if Truthy(r.v) then r.(v := Bool(true))
      else if q.Dry? then Dry else q.(v := Bool(Truthy(q.v)))
    case Not(a) =>
      var r := Eval(fuel - 1, P, a, frames);
      if r.Dry? then Dry else r.(v := Bool(!Truthy(r.v)))
    case Call(f, args) => Invoke(fuel - 1, P, f, args, frames)
    case Exit(e1) =>
      var r := Eval(fuel - 1, P, e1, frames);
      if r.Dry? then Dry else Exited(r.frames, Int(P.toInt(r.v)), Int(P.toInt(r.v)))
  }

  /** The first operand, and then what the second would come to. */
  function EvalBoth(fuel: nat, P: Prims, a: Expr, b: Expr, frames: seq<Frame>): (p: (EvalResult, EvalResult))
    requires frames != []
    ensures !p.0.Dry? ==> |p.0.frames| == |frames|
    ensures !p.1.Dry? ==> !p.0.Dry? && |p.1.frames| == |frames|
    decreases fuel, 2
  {
    var r := Eval(fuel, P, a, frames);
    match r
    case Dry => (Dry, Dry)
    case Ok(fr1, _) => (r, Eval(fuel, P, b, fr1))
    case Exited(fr1, _, code) => (r, Exited(fr1, Skipped(b, code), code))
  }

  /** A call runs the body in a frame of its own; only a return or an exit leaves it with a value. */
  function Invoke(fuel: nat, P: Prims, f: string, args: seq<Arg>, frames: seq<Frame>): (r: EvalResult)
    requires frames != []
    ensures !r.Dry? ==> |r.frames| == |frames|
    decreases fuel, 0
  {
    if fuel == 0 then Dry else
    match FindFun(frames, f, |frames|)
    case None => Ok(frames, Undef)
    case Some(body) =>
      match EvalArgs(fuel - 1, P, args, frames, EMPTY_FRAME, None)
      case DryArgs => Dry
      case Bound(fr1, None, exited) => Ended(fr1, Undef, exited)
      case Bound(fr1, Some(fr), exited) =>
        match Exec(fuel - 1, P, body, fr1 + [fr])
        case Dried => Dry
        case Done(fr2, sig) => Ended(fr2[..|fr1|], ResultOf(sig), if sig.Quit? then Some(sig.code) else exited)
  }

  function ResultOf(sig: Signal): (v: Value) {
    if sig.Returned? || sig.Quit? then sig.v else Undef
  }

  function EvalArgs(fuel: nat, P: Prims, args: seq<Arg>, frames: seq<Frame>, acc: Frame, exited: Option<Value>)
    : (r: ArgsResult)
    requires frames != []
    ensures r.Bound? ==> |r.frames| == |frames|
    decreases fuel, 0
  {
    if fuel == 0 then DryArgs
    else if args == [] then Bound(frames, Some(acc), exited)
    else
      var e := args[0].e;
      var r := if exited.Some? then Exited(frames, Skipped(e, exited.value), exited.value)
               else Eval(fuel - 1, P, e, frames);
      if r.Dry? then DryArgs
      else
        var exited' := if r.Exited? then Some(r.code) else None;
        match BindArg(acc, args[0].name, r.v)
        case None => Bound(r.frames, None, exited')
        case Some(acc1) => EvalArgs(fuel - 1, P, args[1..], r.frames, acc1, exited')
  }

  function Exec(fuel: nat, P: Prims, st: Stmt, frames: seq<Frame>): (r: ExecResult)
    requires frames != []
    ensures r.Done? ==> |r.frames| == |frames|
    decreases fuel, 1
  {
    if fuel == 0 then Dried else ExecNode(fuel, P, st, frames)
  }

  /** A statement that is over because of an exit in one of its expressions. */
  function Cut(r: EvalResult): (x: ExecResult)
    requires r.Exited?
  {
    Done(r.frames, Quit(r.code, r.code))
  }

  /** The switch on the kind of statement. */
  function ExecNode(fuel: nat, P: Prims, st: Stmt, frames: seq<Frame>): (r: ExecResult)
    requires fuel > 0 && frames != []
    ensures r.Done? ==> |r.frames| == |frames|
    decreases fuel, 0
  {
    match st
    case Nop => Done(frames, Normal)
    case Do(e) => Finish(Eval(fuel - 1, P, e, frames))
    case Seq(first, rest) =>
      (match Exec(fuel - 1, P, first, frames)
       case Dried => Dried
       case Done(fr1, sig) => if sig == Normal then Exec(fuel - 1, P, rest, fr1) else Done(fr1, sig))
    case If(c, thn, els) =>
      var r := Eval(fuel - 1, P, c, frames);
      (match r
       case Dry => Dried
       case Exited(_, _, _) => Cut(r)
       case Ok(fr1, v) => Exec(fuel - 1, P, if Truthy(v) then thn else els, fr1))
    case For(init, c, step, body) =>
      var r := Eval(fuel - 1, P, init, frames);
      (match r
       case Dry => Dried
       case Exited(_, _, _) => Cut(r)
       case Ok(fr1, _) => ForLoop(fuel - 1, P, c, step, body, fr1))
    case While(c, body) => ForLoop(fuel - 1, P, c, Const(Undef), body, frames)
    case Repeat(body, c) => RepeatLoop(fuel - 1, P, body, c, frames)
    case Foreach(x, arr, body) =>
      var (fr, l) := Touch(frames, x);
      (match Eval(fuel - 1, P, arr, fr)
       case Dry => Dried
       case Exited(fr1, v, code) => ForeachCut(fuel - 1, l, Visits(v), fr1, code)
       case Ok(fr1, v) => ForeachLoop(fuel - 1, P, l, Visits(v), body, fr1))
    case Repeated(e, count) =>
      (match Eval(fuel - 1, P, count, frames)
       case Dry => Dried
       case Exited(fr1, v, code) => TimesCut(fuel - 1, P.toInt(v), fr1, code)
       case Ok(fr1, v) => TimesLoop(fuel - 1, P, e, P.toInt(v), fr1))
    case Return(e) =>
      (match Eval(fuel - 1, P, e, frames)
       case Dry => Dried
       case Exited(fr1, v, code) => Done(fr1, Quit(v, code))
       case Ok(fr1, v) => Done(fr1, Returned(v)))
    case Break => Done(frames, Broke)
    case Continue => Done(frames, Continued)
    case Local(names) => Done(Declare(frames, |frames| - 1, names), Normal)
    case Global(names) => Done(Declare(frames, 0, names), Normal)
    case FunDef(f, body) => Done(DefineFun(frames, f, body), Normal)
  }

  function Finish(r: EvalResult): (x: ExecResult) {
    match r
    case Dry => Dried
    case Exited(_, _, _) => Cut(r)
    case Ok(fr, _) => Done(fr, Normal)
  }

  /** What can end a loop's statement. */
  predicate AfterLoop(sig: Signal) { sig.Normal? || sig.Returned? || sig.Quit? }

  /** While `c`: run `body`, then `step`.  A break ends the loop, a return or an exit ends more than that. */
  function ForLoop(fuel: nat, P: Prims, c: Expr, step: Expr, body: Stmt, frames: seq<Frame>): (r: ExecResult)
    requires frames != []
    ensures r.Done? ==> |r.frames| == |frames| && AfterLoop(r.sig)
    decreases fuel, 0
  {
    if fuel == 0 then Dried else ForTest(fuel - 1, P, c, step, body, Eval(fuel - 1, P, c, frames))
  }

  /** After the condition, which came to `d`. */
  function ForTest(fuel: nat, P: Prims, c: Expr, step: Expr, body: Stmt, d: EvalResult): (r: ExecResult)
    requires !d.Dry? ==> d.frames != []
    ensures r.Done? ==> !d.Dry? && |r.frames| == |d.frames| && AfterLoop(r.sig)
    decreases fuel, 4
  {
    match d
    case Dry => Dried
    case Exited(_, _, _) => Cut(d)
    case Ok(fr1, v) =>
      if !Truthy(v) then Done(fr1, Normal) else ForAfter(fuel, P, c, step, body, Exec(fuel, P, body, fr1))
  }

  /** After the body, which came to `d`. */
  function ForAfter(fuel: nat, P: Prims, c: Expr, step: Expr, body: Stmt, d: ExecResult): (r: ExecResult)
    requires d.Done? ==> d.frames != []
    ensures r.Done? ==> d.Done? && |r.frames| == |d.frames| && AfterLoop(r.sig)
    decreases fuel, 3
  {
    match d
    case Dried => Dried
    case Done(fr1, sig) => ForStep(fuel, P, c, step, body, fr1, sig)
  }

  function ForStep(fuel: nat, P: Prims, c: Expr, step: Expr, body: Stmt, frames: seq<Frame>, sig: Signal)
    : (r: ExecResult)
    requires frames != []
    ensures r.Done? ==> |r.frames| == |frames| && AfterLoop(r.sig)
    decreases fuel, 2
  {
    if sig.Broke? then Done(frames, Normal)
    else if sig.Returned? || sig.Quit? then Done(frames, sig)
    else ForNext(fuel, P, c, step, body, Eval(fuel, P, step, frames))
  }

  /** After the step, which came to `d`. */
  function ForNext(fuel: nat, P: Prims, c: Expr, step: Expr, body: Stmt, d: EvalResult): (r: ExecResult)
    requires !d.Dry? ==> d.frames != []
    ensures r.Done? ==> !d.Dry? && |r.frames| == |d.frames| && AfterLoop(r.sig)
    decreases fuel, 1
  {
    match d
    case Dry => Dried
    case Exited(_, _, _) => Cut(d)
    case Ok(fr1, _) => ForLoop(fuel, P, c, step, body, fr1)
  }

  function RepeatLoop(fuel: nat, P: Prims, body: Stmt, c: Expr, frames: seq<Frame>): (r: ExecResult)
    requires frames != []
    ensures r.Done? ==> |r.frames| == |frames| && AfterLoop(r.sig)
    decreases fuel, 0
  {
    if fuel == 0 then Dried else RepeatAfter(fuel - 1, P, body, c, Exec(fuel - 1, P, body, frames))
  }

  /** After the body, which came to `d`. */
  function RepeatAfter(fuel: nat, P: Prims, body: Stmt, c: Expr, d: ExecResult): (r: ExecResult)
    requires d.Done? ==> d.frames != []
    ensures r.Done? ==> d.Done? && |r.frames| == |d.frames| && AfterLoop(r.sig)
    decreases fuel, 3
  {
    match d
    case Dried => Dried
    case Done(fr1, sig) => RepeatTest(fuel, P, body, c, fr1, sig)
  }

  function RepeatTest(fuel: nat, P: Prims, body: Stmt, c: Expr, frames: seq<Frame>, sig: Signal): (r: ExecResult)
    requires frames != []
    ensures r.Done? ==> |r.frames| == |frames| && AfterLoop(r.sig)
    decreases fuel, 2
  {
    if sig.Broke? then Done(frames, Normal)
    else if sig.Returned? || sig.Quit? then Done(frames, sig)
    else RepeatNext(fuel, P, body, c, Eval(fuel, P, c, frames))
  }

  /** After the condition, which came to `d`. */
  function RepeatNext(fuel: nat, P: Prims, body: Stmt, c: Expr, d: EvalResult): (r: ExecResult)
    requires !d.Dry? ==> d.frames != []
    ensures r.Done? ==> !d.Dry? && |r.frames| == |d.frames| && AfterLoop(r.sig)
    decreases fuel, 1
  {
    match d
    case Dry => Dried
    case Exited(_, _, _) => Cut(d)
    case Ok(fr1, v) => if Truthy(v) then Done(fr1, Normal) else RepeatLoop(fuel, P, body, c, fr1)
  }

  function ForeachLoop(fuel: nat, P: Prims, l: Loc, vs: seq<Value>, body: Stmt, frames: seq<Frame>): (r: ExecResult)
    requires frames != []
    ensures r.Done? ==> |r.frames| == |frames| && AfterLoop(r.sig)
    decreases fuel, 0
  {
    if fuel == 0 then Dried
    else if vs == [] then Done(frames, Normal)
    else ForeachAfter(fuel - 1, P, l, vs[1..], body, Exec(fuel - 1, P, body, Write(frames, l, vs[0])))
  }

  /** After the body, which came to `d`; `vs` are still to be visited. */
  function ForeachAfter(fuel: nat, P: Prims, l: Loc, vs: seq<Value>, body: Stmt, d: ExecResult): (r: ExecResult)
    requires d.Done? ==> d.frames != []
    ensures r.Done? ==> d.Done? && |r.frames| == |d.frames| && AfterLoop(r.sig)
    decreases fuel, 1
  {
    match d
    case Dried => Dried
    case Done(fr1, sig) =>
      if sig.Broke? then Done(fr1, Normal)
      else if sig.Returned? || sig.Quit? then Done(fr1, sig)
      else ForeachLoop(fuel, P, l, vs, body, fr1)
  }

  /** The array's expression exited: its first element is still assigned, and no turn is made. */
  function ForeachCut(fuel: nat, l: Loc, vs: seq<Value>, frames: seq<Frame>, code: Value): (r: ExecResult)
    ensures r.Done? ==> |r.frames| == |frames| && r.sig == Quit(code, code)
  {
    if fuel == 0 then Dried
    else Done(if vs == [] then frames else Write(frames, l, vs[0]), Quit(code, code))
  }

  /** `f() x n` */
  function TimesLoop(fuel: nat, P: Prims, e: Expr, n: int, frames: seq<Frame>): (r: ExecResult)
    requires frames != []
    ensures r.Done? ==> |r.frames| == |frames| && AfterLoop(r.sig)
    decreases fuel, 0
  {
    if fuel == 0 then Dried
    else if n <= 0 then Done(frames, Normal)
    else
      match Eval(fuel - 1, P, e, frames)
      case Dry => Dried
      case Exited(fr1, _, code) => TimesCut(fuel - 1, n - 1, fr1, code)
      case Ok(fr1, _) => TimesLoop(fuel - 1, P, e, n - 1, fr1)
  }

  /** The turns that are left do nothing. */
  function TimesCut(fuel: nat, n: int, frames: seq<Frame>, code: Value): (r: ExecResult)
    ensures r.Done? ==> r.frames == frames && r.sig == Quit(code, code)
  {
    if fuel == 0 then Dried
    else if n <= 0 then Done(frames, Quit(code, code))
    else TimesCut(fuel - 1, n - 1, frames, code)
  }
}
