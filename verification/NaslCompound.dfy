/**
 Compound assignment (nasl/exec.c, NODE_PLUS_EQ and its siblings).  `a op= e` reads `a` after `e` has
 been evaluated, `a = a op e` before; they mean the same as long as `e` does not write `a`.
 */
module NaslCompound {
  import opened NaslSyntax
  import F = NaslFlags
  import S = NaslStructured
  import R = NaslRefinement

  function Plain(op: BinOp, x: string, e: Expr): (r: Expr) { Assign(x, Bin(op, Var(x), e)) }

  /** A variable that exists is found where it is, and nothing is created. */
  lemma {:induction false} TouchAgain(frames: seq<Frame>, x: string)
    requires frames != []
    ensures var (fr, l) := Touch(frames, x); Touch(fr, x) == (fr, l)
  {
    var (fr, l) := Touch(frames, x);
    if Level(frames, x, |frames|) == |frames| { assert x in fr[|fr| - 1].vars; }
  }

  /**
   The operator cannot tell the value of `x` before `e`, in `fr`, from the one after it.  If `e` exits, what
   `op=` leaves in `x` is the exit code.
   */
  ghost predicate SameReading(P: Prims, op: BinOp, fr: seq<Frame>, l: Loc, q: S.EvalResult) {
    match q
    case Dry => true
    case Ok(fr1, v) => P.bin(op, Read(fr1, l), v) == P.bin(op, Read(fr, l), v)
    case Exited(_, v, code) => code == P.bin(op, Read(fr, l), v)
  }

  /** For every operator, store and `e`: the two agree exactly when the operator cannot tell the two readings apart. */
  lemma {:induction false} CompoundExactly(fuel: nat, P: Prims, op: BinOp, x: string, e: Expr, frames: seq<Frame>)
    requires frames != []
    ensures var (fr, l) := Touch(frames, x);
            S.Eval(fuel + 1, P, OpAssign(op, x, e), frames) == S.Eval(fuel + 2, P, Plain(op, x, e), frames)
            <==> SameReading(P, op, fr, l, S.Eval(fuel, P, e, fr))
  {
    var (fr, l) := Touch(frames, x);
    TouchAgain(frames, x);
    if fuel == 0 {
      assert S.Eval(1, P, Bin(op, Var(x), e), fr) == S.Dry by { assert S.EvalBoth(0, P, Var(x), e, fr).0 == S.Dry; }
    } else {
      assert S.Eval(fuel, P, Var(x), fr) == S.Ok(fr, Read(fr, l));
      var q := S.Eval(fuel, P, e, fr);
      assert S.EvalBoth(fuel, P, Var(x), e, fr) == (S.Ok(fr, Read(fr, l)), q);
      assert S.Eval(fuel + 1, P, Bin(op, Var(x), e), fr) == if q.Dry? then q else q.(v := P.bin(op, Read(fr, l), q.v));
    }
  }

  /** The same of the interpreter as it is written, for every `e`, calls and exits included. */
  lemma {:induction false} CompoundInInterpreter(fuel: nat, P: Prims, op: BinOp, x: string, e: Expr, s: F.State)
    requires R.Ready(s)
    ensures var (fr, l) := Touch(s.frames, x);
            F.Eval(fuel + 1, P, OpAssign(op, x, e), s) == F.Eval(fuel + 2, P, Plain(op, x, e), s)
            <==> SameReading(P, op, fr, l, S.Eval(fuel, P, e, fr))
  {
    CompoundExactly(fuel, P, op, x, e, s.frames);
    R.EvalRefines(fuel + 1, P, OpAssign(op, x, e), s);
    R.EvalRefines(fuel + 2, P, Plain(op, x, e), s);
    SameIffSame(s, F.Eval(fuel + 1, P, OpAssign(op, x, e), s), F.Eval(fuel + 2, P, Plain(op, x, e), s),
                S.Eval(fuel + 1, P, OpAssign(op, x, e), s.frames), S.Eval(fuel + 2, P, Plain(op, x, e), s.frames));
  }

  lemma {:induction false} SameIffSame(s: F.State, r1: F.EvalResult, r2: F.EvalResult, q1: S.EvalResult,
                                       q2: S.EvalResult)
    requires R.Ready(s) && R.SameEval(s, r1, q1) && R.SameEval(s, r2, q2)
    ensures r1 == r2 <==> q1 == q2
  {
  }

  /** `e` contains no assignment to `x`, no call and no exit. */
  predicate WritesNot(e: Expr, x: string) {
    match e
    case Const(_) => true
    case Var(_) => true
    case Assign(y, e1) => y != x && WritesNot(e1, x)
    case OpAssign(_, y, e1) => y != x && WritesNot(e1, x)
    case Incr(y, _, _) => y != x
    case Bin(_, a, b) => WritesNot(a, x) && WritesNot(b, x)
    case And(a, b) => WritesNot(a, x) && WritesNot(b, x)
    case Or(a, b) => WritesNot(a, x) && WritesNot(b, x)
    case Not(a) => WritesNot(a, x)
    case Call(_, _) => false
    case Exit(_) => false
  }

  /** Reading a variable, existing or not, leaves the others as they were. */
  lemma {:induction false} ReadingLeavesAlone(frames: seq<Frame>, y: string, l: Loc)
    requires frames != [] && l.level < |frames| && l.name in frames[l.level].vars
    ensures var (fr, m) := Touch(frames, y); l.name in fr[l.level].vars && Read(fr, l) == Read(frames, l)
  {
    if Level(frames, y, |frames|) == |frames| { LevelNone(frames, y, |frames|, l.level); }
  }

  lemma {:induction false} LevelNone(frames: seq<Frame>, y: string, k: nat, i: nat)
    requires k <= |frames| && Level(frames, y, k) == k && i < k
    ensures y !in frames[i].vars
  {
    if i < k - 1 { LevelNone(frames, y, k - 1, i); }
  }

  /** An expression that does not write `x`, and calls nothing, ends normally and leaves its value alone. */
  lemma {:induction false} WritesNotKeeps(fuel: nat, P: Prims, e: Expr, frames: seq<Frame>, l: Loc)
    requires frames != [] && WritesNot(e, l.name)
    requires l.level < |frames| && l.name in frames[l.level].vars
    ensures var q := S.Eval(fuel, P, e, frames);
            !q.Exited? && (q.Ok? ==> l.name in q.frames[l.level].vars && Read(q.frames, l) == Read(frames, l))
    decreases fuel
  {
    if fuel > 0 {
      match e {
        case Const(_) =>
        case Var(y) => ReadingLeavesAlone(frames, y, l);
        case Assign(y, e1) =>
          ReadingLeavesAlone(frames, y, l);
          WritesNotKeeps(fuel - 1, P, e1, Touch(frames, y).0, l);
        case OpAssign(_, y, e1) =>
          ReadingLeavesAlone(frames, y, l);
          WritesNotKeeps(fuel - 1, P, e1, Touch(frames, y).0, l);
        case Incr(y, _, _) => ReadingLeavesAlone(frames, y, l);
        case Bin(_, a, b) => PairKeeps(fuel, P, a, b, frames, l);
        case And(a, b) => PairKeeps(fuel, P, a, b, frames, l);
        case Or(a, b) => PairKeeps(fuel, P, a, b, frames, l);
        case Not(a) => WritesNotKeeps(fuel - 1, P, a, frames, l);
      }
    }
  }

  lemma {:induction false} PairKeeps(fuel: nat, P: Prims, a: Expr, b: Expr, frames: seq<Frame>, l: Loc)
    requires fuel > 0 && frames != [] && WritesNot(a, l.name) && WritesNot(b, l.name)
    requires l.level < |frames| && l.name in frames[l.level].vars
    ensures var (q, q2) := S.EvalBoth(fuel - 1, P, a, b, frames);
            && !q.Exited? && (q.Ok? ==> l.name in q.frames[l.level].vars && Read(q.frames, l) == Read(frames, l))
            && !q2.Exited? && (q2.Ok? ==> l.name in q2.frames[l.level].vars && Read(q2.frames, l) == Read(frames, l))
    decreases fuel, 0
  {
    WritesNotKeeps(fuel - 1, P, a, frames, l);
    var q := S.Eval(fuel - 1, P, a, frames);
    if q.Ok? { WritesNotKeeps(fuel - 1, P, b, q.frames, l); }
  }

  /** So the two agree for every `e` that can be seen not to write the variable. */
  lemma {:induction false} CompoundAgrees(fuel: nat, P: Prims, op: BinOp, x: string, e: Expr, s: F.State)
    requires R.Ready(s) && WritesNot(e, x)
    ensures F.Eval(fuel + 1, P, OpAssign(op, x, e), s) == F.Eval(fuel + 2, P, Plain(op, x, e), s)
  {
    var (fr, l) := Touch(s.frames, x);
    WritesNotKeeps(fuel, P, e, fr, l);
    CompoundInInterpreter(fuel, P, op, x, e, s);
  }

  /** `a += (a = 5)` makes a 1 a 10; `a = a + (a = 5)` makes it a 6. */
  lemma {:induction false} CompoundDiffers(P: Prims)
    requires forall m, n :: P.bin(Plus, Int(m), Int(n)) == Int(m + n)
    ensures var e := Assign("a", Const(Int(5)));
            var frames := [Frame(map["a" := Int(1)], [], map[])];
            && S.Eval(3, P, OpAssign(Plus, "a", e), frames).v == Int(10)
            && S.Eval(4, P, Plain(Plus, "a", e), frames).v == Int(6)
  {
    var e := Assign("a", Const(Int(5)));
    var frames := [Frame(map["a" := Int(1)], [], map[])];
    assert Touch(frames, "a") == (frames, Loc(0, "a")) by { assert Level(frames, "a", 1) == 0; }
    var after := Write(frames, Loc(0, "a"), Int(5));
    assert S.Eval(2, P, e, frames) == S.Ok(after, Int(5)) by { assert S.Eval(1, P, Const(Int(5)), frames).Ok?; }
    assert P.bin(Plus, Int(5), Int(5)) == Int(10) && P.bin(Plus, Int(1), Int(5)) == Int(6);
    assert S.Eval(2, P, Var("a"), frames) == S.Ok(frames, Int(1));
    assert S.EvalBoth(2, P, Var("a"), e, frames) == (S.Ok(frames, Int(1)), S.Ok(after, Int(5)));
    assert S.Eval(3, P, Bin(Plus, Var("a"), e), frames) == S.Ok(after, Int(6));
  }
}
