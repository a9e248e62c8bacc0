/**
 nasl_exec on a live context chain: the flags are assigned and cleared in place, and the loops are
 loops.  Each method is proved to do what NaslFlags says, which NaslRefinement relates to the
 structured semantics.  A result of `dry` means that the fuel did not last.
 */
module NaslInterpreter {
  import opened Common
  import opened NaslSyntax
  import opened NaslFlags

  class Interpreter {
    const P: Prims
    var frames: seq<Frame>
    var above: seq<Flags>
    var top: Flags

    ghost function S(): (s: State)
      reads this
    {
      State(frames, above, top)
    }

    constructor (P: Prims, s: State)
      requires Chained(s)
      ensures S() == s && this.P == P
    {
      this.P, frames, above, top := P, s.frames, s.above, s.top;
    }

    method EvalExpr(fuel: nat, e: Expr) returns (dry: bool, v: Value)
      requires Chained(S())
      modifies this
      ensures match Eval(fuel, P, e, old(S())) case Dry => dry case Ok(t, w) => !dry && S() == t && v == w
      decreases fuel, 2
    {
      if top.ret.Some? { return false, top.ret.value; }
      if top.brk || top.cont { return false, Undef; }
      if fuel == 0 { return true, Undef; }
      dry, v := EvalKind(fuel, e);
    }

    /** The switch on the kind of expression. */
    method EvalKind(fuel: nat, e: Expr) returns (dry: bool, v: Value)
      requires Chained(S()) && fuel > 0
      modifies this
      ensures match EvalNode(fuel, P, e, old(S())) case Dry => dry case Ok(t, w) => !dry && S() == t && v == w
      decreases fuel, 1
    {
      dry, v := false, Undef;
      match e {
        case Const(c) => v := c;
        case Var(x) =>
          var (fr, l) := Touch(frames, x);
          frames := fr;
          v := Read(fr, l);
        case Assign(x, e1) =>
          var (fr, l) := Touch(frames, x);
          frames := fr;
          dry, v := EvalExpr(fuel - 1, e1);
          if !dry { frames := Write(frames, l, v); }
        case OpAssign(op, x, e1) =>
          var (fr, l) := Touch(frames, x);
          frames := fr;
          dry, v := EvalExpr(fuel - 1, e1);
          if !dry {
            v := if top.ret.Some? then top.ret.value
                 else if top.brk || top.cont then Undef else P.bin(op, Read(frames, l), v);
            frames := Write(frames, l, v);
          }
        case Incr(x, pre, delta) =>
          var (fr, l) := Touch(frames, x);
          var (fr1, w) := Increment(P, fr, l, pre, delta);
          frames, v := fr1, w;
        case Not(a) =>
          dry, v := EvalExpr(fuel - 1, a);
          v := Bool(!Truthy(v));
        case Call(f, args) => dry, v := InvokeFun(fuel - 1, f, args);
        case Exit(e1) =>
          dry, v := EvalExpr(fuel - 1, e1);
          if !dry {
            v := Int(P.toInt(v));
            ExitAll(v);
          }
        case _ => dry, v := EvalPair(fuel, e);
      }
    }

    /** The operators with two operands; `&&` and `||` may leave the second alone. */
    method EvalPair(fuel: nat, e: Expr) returns (dry: bool, v: Value)
      requires Chained(S()) && fuel > 0 && (e.Bin? || e.And? || e.Or?)
      modifies this
      ensures match EvalNode(fuel, P, e, old(S())) case Dry => dry case Ok(t, w) => !dry && S() == t && v == w
      decreases fuel, 0
    {
      dry, v := EvalExpr(fuel - 1, e.a);
      if dry { return; }
      if e.And? && !Truthy(v) { return false, Bool(false); }
      if e.Or? && Truthy(v) { return false, Bool(true); }
      var w;
      dry, w := EvalOperand(fuel - 1, e.b);
      v := if e.Bin? then P.bin(e.op, v, w) else Bool(Truthy(w));
    }

    /** cell2atom */
    method EvalOperand(fuel: nat, e: Expr) returns (dry: bool, v: Value)
      requires Chained(S())
      modifies this
      ensures match Operand(fuel, P, e, old(S())) case Dry => dry case Ok(t, w) => !dry && S() == t && v == w
      decreases fuel, 3
    {
      if (top.ret.Some? || top.brk || top.cont) && e.Const? { return false, e.v; }
      dry, v := EvalExpr(fuel, e);
    }

    /** nasl_do_exit's climb through all contexts. */
    method ExitAll(code: Value)
      modifies `top, `above
      ensures S() == SetExit(old(S()), code)
    {
      top := top.(ret := Some(code));
      var k := |above|;
      while k > 0
        invariant 0 <= k <= |above| == |old(above)| && top == old(top).(ret := Some(code))
        invariant above[..k] == old(above)[..k] && above[k..] == SetEach(old(above), code)[k..]
      {
        k := k - 1;
        SetEachAt(old(above), code, k);
        above := above[k := above[k].(ret := Some(code))];
      }
      assert above == above[0..] == SetEach(old(above), code)[0..] == SetEach(old(above), code);
    }

    method InvokeFun(fuel: nat, f: string, args: seq<Arg>) returns (dry: bool, v: Value)
      requires Chained(S())
      modifies this
      ensures match Invoke(fuel, P, f, args, old(S())) case Dry => dry case Ok(t, w) => !dry && S() == t && v == w
      decreases fuel, 0
    {
      if fuel == 0 { return true, Undef; }
      var body := FindFun(frames, f, |frames|);
      if body.None? { return false, Undef; }
      var fr;
      dry, fr := EvalArguments(fuel - 1, args);
      v := Undef;
      if dry || fr.None? { return; }
      frames, above, top := frames + [fr.value], above + [top], CALL_FLAGS;
      dry := ExecStmt(fuel - 1, body.value);
      if dry { return; }
      v := if top.ret.Some? then top.ret.value else Undef;
      var n := |above| - 1;
      frames, top, above := frames[..n + 1], above[n], above[..n];
    }

    /** The arguments, in order, bound in the frame of the call; None if a name is given twice. */
    method EvalArguments(fuel: nat, args: seq<Arg>) returns (dry: bool, acc: Option<Frame>)
      requires Chained(S())
      modifies this
      ensures match EvalArgs(fuel, P, args, old(S()), EMPTY_FRAME)
              case DryArgs => dry
              case Bound(t, fr) => !dry && S() == t && acc == fr
      decreases fuel, 0
    {
      var n, fr, i := fuel, EMPTY_FRAME, 0;
      while true
        invariant Chained(S()) && SameDepth(old(S()), S()) && n + i == fuel && 0 <= n && 0 <= i <= |args|
        invariant EvalArgs(n, P, args[i..], S(), fr) == EvalArgs(fuel, P, args, old(S()), EMPTY_FRAME)
        decreases n
      {
        if n == 0 { return true, None; }
        if i == |args| { return false, Some(fr); }
        var v;
        dry, v := EvalOperand(n - 1, args[i].e);
        if dry { return true, None; }
        acc := BindArg(fr, args[i].name, v);
        if acc.None? { return false, None; }
        assert args[i..][1..] == args[i + 1..];
        fr, n, i := acc.value, n - 1, i + 1;
      }
    }

    method ExecStmt(fuel: nat, st: Stmt) returns (dry: bool)
      requires Chained(S())
      modifies this
      ensures match Exec(fuel, P, st, old(S())) case Dried => dry case Done(t) => !dry && S() == t
      decreases fuel, 3
    {
      if top.ret.Some? || top.brk || top.cont { return false; }
      if fuel == 0 { return true; }
      dry := ExecKind(fuel, st);
    }

    /** The switch on the kind of statement. */
    method ExecKind(fuel: nat, st: Stmt) returns (dry: bool)
      requires Chained(S()) && fuel > 0
      modifies this
      ensures match ExecNode(fuel, P, st, old(S())) case Dried => dry case Done(t) => !dry && S() == t
      decreases fuel, 2
    {
      dry := false;
      var v;
      match st {
        case Nop =>
        case Do(e) => dry, v := EvalExpr(fuel - 1, e);
        case Seq(first, rest) =>
          dry := ExecStmt(fuel - 1, first);
          if dry { return; }
          if top.brk || top.cont { return; }
          dry := ExecStmt(fuel - 1, rest);
        case If(c, thn, els) =>
          dry, v := EvalExpr(fuel - 1, c);
          if dry { return; }
          dry := ExecStmt(fuel - 1, if Truthy(v) then thn else els);
        case Return(e) =>
          dry, v := EvalExpr(fuel - 1, e);
          if !dry { SetReturn(v); }
        case Break => top := top.(brk := true);
        case Continue => top := top.(cont := true);
        case Local(names) => frames := Declare(frames, |frames| - 1, names);
        case Global(names) => frames := Declare(frames, 0, names);
        case FunDef(f, body) => frames := DefineFun(frames, f, body);
        case _ => dry := ExecLoop(fuel, st);
      }
    }

    /** nasl_return's climb to the nearest function context. */
    method SetReturn(v: Value)
      modifies `top, `above
      ensures S() == SetRet(old(S()), v)
    {
      top := top.(ret := Some(v));
      if top.fct { return; }
      var k := |above|;
      while k > 0
        invariant 0 <= k <= |above| == |old(above)| && top == old(top).(ret := Some(v))
        invariant SetAbove(above, k, v) == SetAbove(old(above), |old(above)|, v)
      {
        k := k - 1;
        above := above[k := above[k].(ret := Some(v))];
        if above[k].fct { break; }
      }
    }

    method ExecLoop(fuel: nat, st: Stmt) returns (dry: bool)
      requires Chained(S()) && fuel > 0
      requires st.For? || st.While? || st.Repeat? || st.Foreach? || st.Repeated?
      modifies this
      ensures match ExecNode(fuel, P, st, old(S())) case Dried => dry case Done(t) => !dry && S() == t
      decreases fuel, 0
    {
      var v;
      match st {
        case For(init, c, step, body) =>
          dry, v := EvalExpr(fuel - 1, init);
          if !dry { dry := DoFor(fuel - 1, c, step, body); }
        case While(c, body) => dry := DoFor(fuel - 1, c, Const(Undef), body);
        case Repeat(body, c) => dry := DoRepeat(fuel - 1, body, c);
        case Foreach(x, arr, body) =>
          var (fr, l) := Touch(frames, x);
          frames := fr;
          dry, v := EvalExpr(fuel - 1, arr);
          if !dry { dry := DoForeach(fuel - 1, l, Visits(v), body); }
        case Repeated(e, count) =>
          dry, v := EvalExpr(fuel - 1, count);
          if !dry { dry := DoTimes(fuel - 1, e, P.toInt(v)); }
      }
    }

    method DoFor(fuel: nat, c: Expr, step: Expr, body: Stmt) returns (dry: bool)
      requires Chained(S())
      modifies this
      ensures match ForLoop(fuel, P, c, step, body, old(S())) case Dried => dry case Done(t) => !dry && S() == t
      decreases fuel, 1
    {
      var n: nat := fuel;
      while true
        invariant Chained(S()) && n <= fuel
        invariant ForLoop(n, P, c, step, body, S()) == ForLoop(fuel, P, c, step, body, old(S()))
        decreases n
      {
        if top.ret.Some? { return false; }
        if n == 0 { return true; }
        var stop;
        dry, stop := ForTurn(n - 1, c, step, body, ForTest(n - 1, P, c, step, body, Eval(n - 1, P, c, S())));
        if dry || stop { return; }
        n := n - 1;
      }
    }

    /** One turn of the loop; `stop` if the condition failed or the body broke. */
    method ForTurn(n: nat, c: Expr, step: Expr, body: Stmt, ghost r: ExecResult) returns (dry: bool, stop: bool)
      requires Chained(S()) && r == ForTest(n, P, c, step, body, Eval(n, P, c, S()))
      modifies this
      ensures !dry ==> Chained(S())
      ensures r == if dry then Dried else if stop then Done(S()) else ForLoop(n, P, c, step, body, S())
      decreases n, 7
    {
      var v;
      dry, v := EvalExpr(n, c);
      if dry { return dry, true; }
      dry, stop := TurnTest(n, c, step, body, v, r);
    }

    method TurnTest(n: nat, c: Expr, step: Expr, body: Stmt, v: Value, ghost r: ExecResult)
      returns (dry: bool, stop: bool)
      requires Chained(S()) && r == ForTest(n, P, c, step, body, Ok(S(), v))
      modifies this
      ensures !dry ==> Chained(S())
      ensures r == if dry then Dried else if stop then Done(S()) else ForLoop(n, P, c, step, body, S())
      decreases n, 6
    {
      if !Truthy(v) { return false, true; }
      dry, stop := TurnBody(n, c, step, body, r);
    }

    method TurnBody(n: nat, c: Expr, step: Expr, body: Stmt, ghost r: ExecResult) returns (dry: bool, stop: bool)
      requires Chained(S()) && r == ForAfter(n, P, c, step, body, Exec(n, P, body, S()))
      modifies this
      ensures !dry ==> Chained(S())
      ensures r == if dry then Dried else if stop then Done(S()) else ForLoop(n, P, c, step, body, S())
      decreases n, 5
    {
      dry := ExecStmt(n, body);
      if dry { return dry, true; }
      dry, stop := TurnStep(n, c, step, body, r);
    }

    method TurnStep(n: nat, c: Expr, step: Expr, body: Stmt, ghost r: ExecResult) returns (dry: bool, stop: bool)
      requires Chained(S()) && r == ForStep(n, P, c, step, body, S())
      modifies this
      ensures !dry ==> Chained(S())
      ensures r == if dry then Dried else if stop then Done(S()) else ForLoop(n, P, c, step, body, S())
      decreases n, 4
    {
      if top.brk {
        top := top.(brk := false);
        return false, true;
      }
      top := top.(cont := false);
      dry := RunStep(n, c, step, body, r);
      stop := false;
    }

    method RunStep(n: nat, c: Expr, step: Expr, body: Stmt, ghost r: ExecResult) returns (dry: bool)
      requires Chained(S()) && r == ForNext(n, P, c, step, body, Eval(n, P, step, S()))
      modifies this
      ensures !dry ==> Chained(S())
      ensures r == if dry then Dried else ForLoop(n, P, c, step, body, S())
      decreases n, 3
    {
      var v;
      dry, v := EvalExpr(n, step);
    }

    method DoRepeat(fuel: nat, body: Stmt, c: Expr) returns (dry: bool)
      requires Chained(S())
      modifies this
      ensures match RepeatLoop(fuel, P, body, c, old(S())) case Dried => dry case Done(t) => !dry && S() == t
      decreases fuel, 0
    {
      var n := fuel;
      while true
        invariant Chained(S()) && 0 <= n <= fuel
        invariant RepeatLoop(n, P, body, c, S()) == RepeatLoop(fuel, P, body, c, old(S()))
        decreases n
      {
        if top.ret.Some? { return false; }
        if n == 0 { return true; }
        dry := ExecStmt(n - 1, body);
        if dry { return; }
        var stop;
        dry, stop := TestUntil(n - 1, body, c, RepeatTest(n - 1, P, body, c, S()));
        if dry || stop { return; }
        n := n - 1;
      }
    }

    /** The end of a turn of repeat; `stop` if the body broke or the condition holds. */
    method TestUntil(n: nat, body: Stmt, c: Expr, ghost r: ExecResult) returns (dry: bool, stop: bool)
      requires Chained(S()) && r == RepeatTest(n, P, body, c, S())
      modifies this
      ensures !dry ==> Chained(S())
      ensures r == if dry then Dried else if stop then Done(S()) else RepeatLoop(n, P, body, c, S())
      decreases n, 4
    {
      if top.brk {
        top := top.(brk := false);
        return false, true;
      }
      top := top.(cont := false);
      dry, stop := RunTest(n, body, c, r);
    }

    method RunTest(n: nat, body: Stmt, c: Expr, ghost r: ExecResult) returns (dry: bool, stop: bool)
      requires Chained(S()) && r == RepeatNext(n, P, body, c, Eval(n, P, c, S()))
      modifies this
      ensures !dry ==> Chained(S())
      ensures r == if dry then Dried else if stop then Done(S()) else RepeatLoop(n, P, body, c, S())
      decreases n, 3
    {
      var v;
      dry, v := EvalExpr(n, c);
      stop := Truthy(v);
    }

    method DoForeach(fuel: nat, l: Loc, vs: seq<Value>, body: Stmt) returns (dry: bool)
      requires Chained(S())
      modifies this
      ensures match ForeachLoop(fuel, P, l, vs, body, old(S())) case Dried => dry case Done(t) => !dry && S() == t
      decreases fuel, 0
    {
      var n, i := fuel, 0;
      while true
        invariant Chained(S()) && n + i == fuel && 0 <= n && 0 <= i <= |vs|
        invariant ForeachLoop(n, P, l, vs[i..], body, S()) == ForeachLoop(fuel, P, l, vs, body, old(S()))
        decreases n
      {
        if n == 0 { return true; }
        if i == |vs| { return false; }
        frames := Write(frames, l, vs[i]);
        dry := ExecStmt(n - 1, body);
        if dry || top.ret.Some? { return; }
        if top.brk {
          top := top.(brk := false);
          return false;
        }
        top := top.(cont := false);
        assert vs[i..][1..] == vs[i + 1..];
        n, i := n - 1, i + 1;
      }
    }

    method DoTimes(fuel: nat, e: Expr, count: int) returns (dry: bool)
      requires Chained(S())
      modifies this
      ensures match TimesLoop(fuel, P, e, count, old(S())) case Dried => dry case Done(t) => !dry && S() == t
      decreases fuel, 0
    {
      var n, k, v := fuel, count, Undef;
      while true
        invariant Chained(S()) && 0 <= n <= fuel
        invariant TimesLoop(n, P, e, k, S()) == TimesLoop(fuel, P, e, count, old(S()))
        decreases n
      {
        if n == 0 { return true; }
        if k <= 0 { return false; }
        dry, v := EvalExpr(n - 1, e);
        if dry { return; }
        n, k := n - 1, k - 1;
      }
    }
  }
}
