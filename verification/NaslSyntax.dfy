/**
 NASL programs and their variable store (nasl/nasl_grammar.y, nasl/nasl_var.c, nasl/nasl_func.c).

 The meaning of the binary operators, and the conversion to an integer, are parameters of the whole
 interpreter: control flow does not depend on them.
 */
module NaslSyntax {
  import opened Common

  /** `Undef` stands for both the NULL cell and FAKE_CELL. */
  datatype Value = Undef | Int(n: int) | Str(s: string) | Data(d: string) | Arr(elems: seq<Value>)

  datatype BinOp =
    | Plus | Minus | Mult | Div | Modulo | Expo | BitAnd | BitOr | BitXor | LShift | RShift | RUshift
    | Match | NoMatch | Lt | Le | Eq | Ne | Gt | Ge

  datatype Prims = Prims(bin: (BinOp, Value, Value) -> Value, toInt: Value -> int)

  datatype Arg = Arg(name: Option<string>, e: Expr)

  datatype Expr =
    | Const(v: Value)
    | Var(x: string)
    | Assign(x: string, e: Expr)
    | OpAssign(op: BinOp, x: string, e: Expr)
    | Incr(x: string, pre: bool, delta: int)
    | Bin(op: BinOp, a: Expr, b: Expr)
    | And(a: Expr, b: Expr)
    | Or(a: Expr, b: Expr)
    | Not(a: Expr)
    | Call(f: string, args: seq<Arg>)
    | Exit(e: Expr)

  datatype Stmt =
    | Nop
    | Do(e: Expr)
    | Seq(first: Stmt, rest: Stmt)
    | If(c: Expr, thn: Stmt, els: Stmt)
    | For(init: Expr, c: Expr, step: Expr, body: Stmt)
    | While(c: Expr, body: Stmt)
    | Repeat(body: Stmt, c: Expr)
    | Foreach(x: string, arr: Expr, body: Stmt)
    | Repeated(e: Expr, count: Expr)
    | Return(e: Expr)
    | Break
    | Continue
    | Local(names: seq<string>)
    | Global(names: seq<string>)
    | FunDef(f: string, body: Stmt)

  predicate Truthy(v: Value) {
    match v
    case Undef => false
    case Int(n) => n != 0
    case Str(s) => s != ""
    case Data(d) => d != ""
    case Arr(_) => true
  }

  function Bool(b: bool): (v: Value) { Int(if b then 1 else 0) }

  // ----- the variable store: one frame per context, the current one last -----

  datatype Frame = Frame(vars: map<string, Value>, anon: seq<Value>, funs: map<string, Stmt>)

  const EMPTY_FRAME := Frame(map[], [], map[])

  /** Where a variable lives. */
  datatype Loc = Loc(level: nat, name: string)

  /** The innermost of the first `k` frames that defines `x`, or `k` if none does. */
  function Level(frames: seq<Frame>, x: string, k: nat): (r: nat)
    requires k <= |frames|
    ensures r <= k
    ensures r < k ==> x in frames[r].vars
  {
    if k == 0 then 0
    else if x in frames[k - 1].vars then k - 1
    else var r := Level(frames, x, k - 1); if r == k - 1 then k else r
  }

  /** get_variable_by_name: climb the contexts; an unknown variable is created, undefined, in the current one. */
  function Touch(frames: seq<Frame>, x: string): (r: (seq<Frame>, Loc))
    requires frames != []
    ensures |r.0| == |frames| && r.1.level < |frames| && r.1.name == x
    ensures x in r.0[r.1.level].vars
    ensures Level(frames, x, |frames|) < |frames| ==> r.0 == frames
  {
    var n := |frames| - 1;
    var l := Level(frames, x, |frames|);
    if l < |frames| then (frames, Loc(l, x))
    else (frames[n := frames[n].(vars := frames[n].vars[x := Undef])], Loc(n, x))
  }

  function Read(frames: seq<Frame>, l: Loc): (v: Value) {
    if l.level < |frames| && l.name in frames[l.level].vars then frames[l.level].vars[l.name] else Undef
  }

  function Write(frames: seq<Frame>, l: Loc, v: Value): (r: seq<Frame>)
    ensures |r| == |frames|
    ensures l.level < |frames| ==> Read(r, l) == v
  {
    if l.level < |frames| then frames[l.level := frames[l.level].(vars := frames[l.level].vars[l.name := v])]
    else frames
  }

  /** add_named_var_to_ctxt without a value: an existing variable is left alone. */
  function Declare(frames: seq<Frame>, level: nat, names: seq<string>): (r: seq<Frame>)
    requires level < |frames|
    ensures |r| == |frames|
    decreases |names|
  {
    if names == [] then frames
    else
      var f := frames[level];
      var f' := if names[0] in f.vars then f else f.(vars := f.vars[names[0] := Undef]);
      Declare(frames[level := f'], level, names[1..])
  }

  /** The function `f` in the innermost of the first `k` frames that defines it. */
  function FindFun(frames: seq<Frame>, f: string, k: nat): (r: Option<Stmt>)
    requires k <= |frames|
  {
    if k == 0 then None
    else if f in frames[k - 1].funs then Some(frames[k - 1].funs[f])
    else FindFun(frames, f, k - 1)
  }

  /** insert_nasl_func: a function that can already be seen is not redefined. */
  function DefineFun(frames: seq<Frame>, f: string, body: Stmt): (r: seq<Frame>)
    requires frames != []
    ensures |r| == |frames|
  {
    if FindFun(frames, f, |frames|).Some? then frames
    else
      var n := |frames| - 1;
      frames[n := frames[n].(funs := frames[n].funs[f := body])]
  }

  /** An evaluated argument joins the frame of the call; a repeated name is an error. */
  function BindArg(fr: Frame, name: Option<string>, v: Value): (r: Option<Frame>) {
    match name
    case None => Some(fr.(anon := fr.anon + [v]))
    case Some(x) => if x in fr.vars then None else Some(fr.(vars := fr.vars[x := v]))
  }

  /** The values a foreach visits: a snapshot of the array's defined elements. */
  function Visits(v: Value): (vs: seq<Value>) {
    match v
    case Arr(elems) => Defined(elems)
    case _ => []
  }

  function Defined(vs: seq<Value>): (r: seq<Value>) {
    if vs == [] then [] else (if vs[0].Undef? then [] else [vs[0]]) + Defined(vs[1..])
  }

  /** nasl_incr_variable: arrays are refused; otherwise the variable becomes an integer. */
  function Increment(P: Prims, frames: seq<Frame>, l: Loc, pre: bool, delta: int): (r: (seq<Frame>, Value))
    ensures |r.0| == |frames|
  {
    var was := Read(frames, l);
    if was.Arr? then (frames, Undef)
    else
      var n := P.toInt(was);
      (Write(frames, l, Int(n + delta)), Int(if pre then n + delta else n))
  }
}
