/**
 What programs do, said in terms of the programs: which branch an if takes, where an assignment goes, what a
 call leaves behind.  The two semantics share their variable store and their idea of truth, so that they agree
 says nothing about either; these laws do.
 */
module NaslLaws {
  import opened Common
  import opened NaslSyntax
  import F = NaslFlags

  /** A state in which something is run, and not skipped. */
  predicate Running(s: F.State) {
    F.Chained(s) && !F.Guarded(s.top)
  }

  /** The values that count as false: undefined, zero, the empty string and the empty data. */
  const FALSE_VALUES: set<Value> := {Undef, Int(0), Str(""), Data("")}

  lemma {:induction false} ConstantIs(fuel: nat, P: Prims, v: Value, s: F.State)
    requires Running(s) && fuel > 0
    ensures F.Eval(fuel, P, Const(v), s) == F.Ok(s, v) && F.Operand(fuel, P, Const(v), s) == F.Ok(s, v)
  {
  }

  // ----- conditions -----

  lemma {:induction false} IfChooses(fuel: nat, P: Prims, c: Expr, thn: Stmt, els: Stmt, s: F.State)
    requires Running(s)
    ensures var d := F.Eval(fuel, P, c, s);
            F.Exec(fuel + 1, P, If(c, thn, els), s)
            == if d.Dry? then F.Dried else F.Exec(fuel, P, if d.v in FALSE_VALUES then els else thn, d.s)
  {
  }

  lemma {:induction false} IfConstant(fuel: nat, P: Prims, thn: Stmt, els: Stmt, s: F.State, n: int, t: string,
                                      elems: seq<Value>)
    requires Running(s) && fuel > 0
    ensures F.Exec(fuel + 1, P, If(Const(Int(n)), thn, els), s) == F.Exec(fuel, P, if n != 0 then thn else els, s)
    ensures F.Exec(fuel + 1, P, If(Const(Str(t)), thn, els), s) == F.Exec(fuel, P, if |t| > 0 then thn else els, s)
    ensures F.Exec(fuel + 1, P, If(Const(Data(t)), thn, els), s) == F.Exec(fuel, P, if |t| > 0 then thn else els, s)
    ensures F.Exec(fuel + 1, P, If(Const(Arr(elems)), thn, els), s) == F.Exec(fuel, P, thn, s)
    ensures F.Exec(fuel + 1, P, If(Const(Undef), thn, els), s) == F.Exec(fuel, P, els, s)
  {
    IfIs(fuel, P, Int(n), thn, els, s);
    IfIs(fuel, P, Str(t), thn, els, s);
    IfIs(fuel, P, Data(t), thn, els, s);
    IfIs(fuel, P, Arr(elems), thn, els, s);
    IfIs(fuel, P, Undef, thn, els, s);
  }

  lemma {:induction false} IfIs(fuel: nat, P: Prims, v: Value, thn: Stmt, els: Stmt, s: F.State)
    requires Running(s) && fuel > 0
    ensures F.Exec(fuel + 1, P, If(Const(v), thn, els), s)
            == F.Exec(fuel, P, if v in FALSE_VALUES then els else thn, s)
  {
    ConstantIs(fuel, P, v, s);
    IfChooses(fuel, P, Const(v), thn, els, s);
  }

  /** A while loop ends at once if its condition is false, and otherwise runs its body first. */
  lemma {:induction false} WhileTests(fuel: nat, P: Prims, v: Value, body: Stmt, s: F.State)
    requires Running(s)
    ensures var r := F.Exec(fuel + 3, P, While(Const(v), body), s);
            && (v in FALSE_VALUES ==> r == F.Done(s))
            && (v !in FALSE_VALUES ==> r.Done? ==> F.Exec(fuel + 1, P, body, s).Done?)
  {
    ConstantIs(fuel + 1, P, v, s);
    assert F.ForLoop(fuel + 2, P, Const(v), Const(Undef), body, s)
        == F.ForTest(fuel + 1, P, Const(v), Const(Undef), body, F.Ok(s, v));
    assert F.ExecNode(fuel + 3, P, While(Const(v), body), s)
        == F.ForLoop(fuel + 2, P, Const(v), Const(Undef), body, s);
  }

  /** A while loop whose condition is true and whose body does nothing never ends. */
  lemma {:induction false} WhileTrue(fuel: nat, P: Prims, v: Value, s: F.State)
    requires Running(s) && v !in FALSE_VALUES
    ensures F.ForLoop(fuel, P, Const(v), Const(Undef), Nop, s) == F.Dried
  {
    if fuel > 1 {
      assert F.Eval(fuel - 1, P, Const(v), s) == F.Ok(s, v);
      assert F.Exec(fuel - 1, P, Nop, s) == F.Done(s);
      assert s.(top := s.top.(cont := false)) == s;
      assert F.Eval(fuel - 1, P, Const(Undef), s) == F.Ok(s, Undef);
      assert F.ForStep(fuel - 1, P, Const(v), Const(Undef), Nop, s)
          == F.ForNext(fuel - 1, P, Const(v), Const(Undef), Nop, F.Ok(s, Undef));
      assert F.ForTest(fuel - 1, P, Const(v), Const(Undef), Nop, F.Ok(s, v))
          == F.ForAfter(fuel - 1, P, Const(v), Const(Undef), Nop, F.Done(s));
      WhileTrue(fuel - 1, P, v, s);
    }
  }

  /** A repeat loop runs its body, and ends after it exactly if the condition is true. */
  lemma {:induction false} RepeatTests(fuel: nat, P: Prims, v: Value, s: F.State)
    requires Running(s)
    ensures F.Exec(fuel + 3, P, Repeat(Nop, Const(v)), s) == if v in FALSE_VALUES then F.Dried else F.Done(s)
  {
    RepeatTurns(fuel + 2, P, v, s);
  }

  lemma {:induction false} RepeatTurns(fuel: nat, P: Prims, v: Value, s: F.State)
    requires Running(s)
    ensures F.RepeatLoop(fuel, P, Nop, Const(v), s) == if v in FALSE_VALUES || fuel < 2 then F.Dried else F.Done(s)
  {
    if fuel > 1 {
      assert F.Exec(fuel - 1, P, Nop, s) == F.Done(s);
      assert s.(top := s.top.(cont := false)) == s;
      assert F.Eval(fuel - 1, P, Const(v), s) == F.Ok(s, v);
      assert F.RepeatTest(fuel - 1, P, Nop, Const(v), s) == F.RepeatNext(fuel - 1, P, Nop, Const(v), F.Ok(s, v));
      assert F.RepeatAfter(fuel - 1, P, Nop, Const(v), F.Done(s)) == F.RepeatTest(fuel - 1, P, Nop, Const(v), s);
      RepeatTurns(fuel - 1, P, v, s);
    }
  }

  /** `!`, `&&` and `||` give 0 or 1, and the second operand is evaluated only if it matters. */
  lemma {:induction false} Connectives(fuel: nat, P: Prims, v: Value, w: Value, e: Expr, s: F.State)
    requires Running(s)
    ensures F.Eval(fuel + 2, P, Not(Const(v)), s) == F.Ok(s, Int(if v in FALSE_VALUES then 1 else 0))
    ensures v in FALSE_VALUES ==> F.Eval(fuel + 2, P, And(Const(v), e), s) == F.Ok(s, Int(0))
    ensures v !in FALSE_VALUES ==> F.Eval(fuel + 2, P, Or(Const(v), e), s) == F.Ok(s, Int(1))
    ensures v !in FALSE_VALUES ==>
              F.Eval(fuel + 2, P, And(Const(v), Const(w)), s) == F.Ok(s, Int(if w in FALSE_VALUES then 0 else 1))
    ensures v in FALSE_VALUES ==>
              F.Eval(fuel + 2, P, Or(Const(v), Const(w)), s) == F.Ok(s, Int(if w in FALSE_VALUES then 0 else 1))
  {
    NotIs(fuel, P, v, s);
    AndIs(fuel, P, v, e, s);
    AndIs(fuel, P, v, Const(w), s);
    OrIs(fuel, P, v, e, s);
    OrIs(fuel, P, v, Const(w), s);
    ConstantIs(fuel + 1, P, w, s);
  }

  lemma {:induction false} NotIs(fuel: nat, P: Prims, v: Value, s: F.State)
    requires Running(s)
    ensures F.Eval(fuel + 2, P, Not(Const(v)), s) == F.Ok(s, Int(if v in FALSE_VALUES then 1 else 0))
  {
    ConstantIs(fuel + 1, P, v, s);
  }

  /** The value of the second operand, as 0 or 1. */
  function Decided(d: F.EvalResult): (r: F.EvalResult) {
    if d.Dry? then F.Dry else F.Ok(d.s, Int(if d.v in FALSE_VALUES then 0 else 1))
  }

  lemma {:induction false} AndIs(fuel: nat, P: Prims, v: Value, e: Expr, s: F.State)
    requires Running(s)
    ensures F.Eval(fuel + 2, P, And(Const(v), e), s)
            == if v in FALSE_VALUES then F.Ok(s, Int(0)) else Decided(F.Eval(fuel + 1, P, e, s))
  {
    ConstantIs(fuel + 1, P, v, s);
    assert F.Operand(fuel + 1, P, e, s) == F.Eval(fuel + 1, P, e, s);
  }

  lemma {:induction false} OrIs(fuel: nat, P: Prims, v: Value, e: Expr, s: F.State)
    requires Running(s)
    ensures F.Eval(fuel + 2, P, Or(Const(v), e), s)
            == if v in FALSE_VALUES then Decided(F.Eval(fuel + 1, P, e, s)) else F.Ok(s, Int(1))
  {
    ConstantIs(fuel + 1, P, v, s);
    assert F.Operand(fuel + 1, P, e, s) == F.Eval(fuel + 1, P, e, s);
  }

  // ----- variables -----

  /** `x` belongs to frame `i`: the innermost that has it, or the current one if none has. */
  predicate Lives(frames: seq<Frame>, x: string, i: nat) {
    && i < |frames| && (forall j :: i < j < |frames| ==> x !in frames[j].vars)
    && (x !in frames[i].vars ==> i == |frames| - 1 && forall j :: 0 <= j < |frames| ==> x !in frames[j].vars)
  }

  /** The store with `x` set to `v` in frame `i`, and nothing else changed. */
  function With(frames: seq<Frame>, i: nat, x: string, v: Value): (r: seq<Frame>)
    requires i < |frames|
  {
    frames[i := frames[i].(vars := frames[i].vars[x := v])]
  }

  function ValueIn(fr: Frame, x: string): (v: Value) {
    if x in fr.vars then fr.vars[x] else Undef
  }

  lemma {:induction false} LevelIs(frames: seq<Frame>, x: string, k: nat, i: nat)
    requires i < k <= |frames| && x in frames[i].vars && forall j :: i < j < k ==> x !in frames[j].vars
    ensures Level(frames, x, k) == i
  {
    if i < k - 1 { LevelIs(frames, x, k - 1, i); }
  }

  lemma {:induction false} NoLevel(frames: seq<Frame>, x: string, k: nat)
    requires k <= |frames| && forall j :: 0 <= j < k ==> x !in frames[j].vars
    ensures Level(frames, x, k) == k
  {
    if k > 0 { NoLevel(frames, x, k - 1); }
  }

  lemma {:induction false} TouchIs(frames: seq<Frame>, x: string, i: nat)
    requires Lives(frames, x, i)
    ensures Touch(frames, x) == (With(frames, i, x, ValueIn(frames[i], x)), Loc(i, x))
  {
    if x in frames[i].vars {
      LevelIs(frames, x, |frames|, i);
      assert With(frames, i, x, ValueIn(frames[i], x)) == frames by {
        assert frames[i].vars[x := frames[i].vars[x]] == frames[i].vars;
      }
    } else {
      NoLevel(frames, x, |frames|);
    }
  }

  lemma {:induction false} WithTwice(frames: seq<Frame>, i: nat, x: string, v: Value, w: Value)
    requires i < |frames|
    ensures With(With(frames, i, x, v), i, x, w) == With(frames, i, x, w)
  {
    assert frames[i].vars[x := v][x := w] == frames[i].vars[x := w];
  }

  /** A variable is read where it belongs; reading one that nobody has creates it, undefined. */
  lemma {:induction false} VarReads(fuel: nat, P: Prims, x: string, s: F.State, i: nat)
    requires Running(s) && Lives(s.frames, x, i)
    ensures var v := ValueIn(s.frames[i], x);
            F.Eval(fuel + 1, P, Var(x), s) == F.Ok(s.(frames := With(s.frames, i, x, v)), v)
  {
    TouchIs(s.frames, x, i);
  }

  /** An assignment writes the variable where it belongs and nothing else. */
  lemma {:induction false} AssignWrites(fuel: nat, P: Prims, x: string, v: Value, s: F.State, i: nat)
    requires Running(s) && Lives(s.frames, x, i)
    ensures F.Eval(fuel + 2, P, Assign(x, Const(v)), s) == F.Ok(s.(frames := With(s.frames, i, x, v)), v)
  {
    TouchIs(s.frames, x, i);
    WithTwice(s.frames, i, x, ValueIn(s.frames[i], x), v);
    ConstantIs(fuel + 1, P, v, s.(frames := With(s.frames, i, x, ValueIn(s.frames[i], x))));
  }

  /** What was assigned is what is read. */
  lemma {:induction false} AssignThenRead(fuel: nat, P: Prims, x: string, v: Value, s: F.State, i: nat)
    requires Running(s) && Lives(s.frames, x, i)
    ensures F.Exec(fuel + 4, P, Seq(Do(Assign(x, Const(v))), Return(Var(x))), s)
            == F.Done(F.SetRet(s.(frames := With(s.frames, i, x, v)), v))
  {
    AssignWrites(fuel, P, x, v, s, i);
    var t := s.(frames := With(s.frames, i, x, v));
    assert F.Exec(fuel + 3, P, Do(Assign(x, Const(v))), s) == F.Done(t);
    assert Lives(t.frames, x, i);
    VarReads(fuel + 1, P, x, t, i);
    WithTwice(s.frames, i, x, v, v);
    assert F.Exec(fuel + 3, P, Return(Var(x)), t) == F.Done(F.SetRet(t, v));
  }

  /** `++` and `--`, before and after: an integer in the end, refused of an array. */
  lemma {:induction false} IncrCounts(fuel: nat, P: Prims, x: string, pre: bool, delta: int, s: F.State, i: nat)
    requires Running(s) && Lives(s.frames, x, i)
    ensures var was := ValueIn(s.frames[i], x);
            F.Eval(fuel + 1, P, Incr(x, pre, delta), s)
            == if was.Arr? then F.Ok(s, Undef)
               else F.Ok(s.(frames := With(s.frames, i, x, Int(P.toInt(was) + delta))),
                         Int(if pre then P.toInt(was) + delta else P.toInt(was)))
  {
    var was := ValueIn(s.frames[i], x);
    TouchIs(s.frames, x, i);
    WithTwice(s.frames, i, x, was, Int(P.toInt(was) + delta));
    if was.Arr? { assert s.frames[i].vars[x := was] == s.frames[i].vars; }
  }

  /** Declaring names gives those that the frame lacks the value Undef, and touches nothing else. */
  lemma {:induction false} DeclareIs(frames: seq<Frame>, level: nat, names: seq<string>, j: nat, y: string)
    requires level < |frames| && j < |frames|
    ensures var fr := Declare(frames, level, names)[j];
            && fr.anon == frames[j].anon && fr.funs == frames[j].funs
            && (y in fr.vars <==> y in frames[j].vars || (j == level && y in names))
            && ValueIn(fr, y) == ValueIn(frames[j], y)
    decreases |names|
  {
    if names != [] {
      var f := frames[level];
      var f' := if names[0] in f.vars then f else f.(vars := f.vars[names[0] := Undef]);
      DeclareIs(frames[level := f'], level, names[1..], j, y);
    }
  }

  /** local_var hides what the callers have under that name; global_var goes to the script's own context. */
  lemma {:induction false} LocalHides(fuel: nat, P: Prims, x: string, s: F.State)
    requires Running(s)
    ensures var n := |s.frames| - 1;
            var r := F.Exec(fuel + 1, P, Local([x]), s);
            && r == F.Done(s.(frames := With(s.frames, n, x, ValueIn(s.frames[n], x)))) && Lives(r.s.frames, x, n)
    ensures F.Exec(fuel + 1, P, Global([x]), s)
            == F.Done(s.(frames := With(s.frames, 0, x, ValueIn(s.frames[0], x))))
  {
    DeclareOne(s.frames, |s.frames| - 1, x);
    DeclareOne(s.frames, 0, x);
  }

  lemma {:induction false} DeclareOne(frames: seq<Frame>, level: nat, x: string)
    requires level < |frames|
    ensures Declare(frames, level, [x]) == With(frames, level, x, ValueIn(frames[level], x))
  {
    var f := frames[level];
    assert Declare(frames, level, [x]) == frames[level := if x in f.vars then f else f.(vars := f.vars[x := Undef])];
    if x in f.vars { assert f.vars[x := f.vars[x]] == f.vars; }
  }

  // ----- foreach -----

  /** The defined elements, each once and in order. */
  lemma {:induction false} DefinedParts(a: seq<Value>, b: seq<Value>, v: Value)
    ensures Defined(a + b) == Defined(a) + Defined(b)
    ensures Defined([v]) == if v == Undef then [] else [v]
  {
    DefinedSum(a, b);
    assert [v][1..] == [];
  }

  lemma {:induction false} DefinedSum(a: seq<Value>, b: seq<Value>)
    ensures Defined(a + b) == Defined(a) + Defined(b)
    decreases |a|
  {
    if a == [] {
      assert a + b == b;
    } else {
      DefinedSum(a[1..], b);
      DefinedFirst(a + b, a[1..] + b);
      DefinedFirst(a, a[1..]);
      Associates(if a[0].Undef? then [] else [a[0]], Defined(a[1..]), Defined(b));
    }
  }

  lemma {:induction false} DefinedFirst(vs: seq<Value>, rest: seq<Value>)
    requires vs != [] && rest == vs[1..]
    ensures Defined(vs) == (if vs[0].Undef? then [] else [vs[0]]) + Defined(rest)
  {
  }

  lemma {:induction false} Associates(a: seq<Value>, b: seq<Value>, c: seq<Value>)
    ensures a + (b + c) == (a + b) + c
  {
  }

  /** Of a value that is no array, foreach visits nothing. */
  lemma {:induction false} ForeachOfNoArray(fuel: nat, P: Prims, x: string, v: Value, body: Stmt, s: F.State, i: nat)
    requires Running(s) && Lives(s.frames, x, i) && !v.Arr?
    ensures F.Exec(fuel + 2, P, Foreach(x, Const(v), body), s)
            == F.Done(s.(frames := With(s.frames, i, x, ValueIn(s.frames[i], x))))
  {
    var t := s.(frames := With(s.frames, i, x, ValueIn(s.frames[i], x)));
    TouchIs(s.frames, x, i);
    ConstantIs(fuel + 1, P, v, t);
    assert F.ForeachLoop(fuel + 1, P, Loc(i, x), Visits(v), body, t) == F.Done(t);
  }

  /** Appending the loop variable to a log; `P.bin(Plus, ..)` decides what that means. */
  function Logged(P: Prims, acc: Value, vs: seq<Value>): (r: Value)
    decreases |vs|
  {
    if vs == [] then acc else Logged(P, P.bin(Plus, acc, vs[0]), vs[1..])
  }

  /** `foreach x (array) log += x;` adds every defined element, in the array's order, and leaves the last in `x`. */
  lemma {:induction false} ForeachVisits(fuel: nat, P: Prims, x: string, log: string, elems: seq<Value>, s: F.State)
    requires Running(s) && x != log && |s.frames| == 1 && fuel >= |elems| + 5
    requires x in s.frames[0].vars && log in s.frames[0].vars
    ensures var vs := Defined(elems);
            var v := if vs == [] then s.frames[0].vars[x] else vs[|vs| - 1];
            F.Exec(fuel, P, Foreach(x, Const(Arr(elems)), Do(OpAssign(Plus, log, Var(x)))), s)
            == F.Done(s.(frames := With(With(s.frames, 0, x, v), 0, log, Logged(P, s.frames[0].vars[log], vs))))
  {
    assert Lives(s.frames, x, 0);
    TouchIs(s.frames, x, 0);
    assert s.frames[0].vars[x := s.frames[0].vars[x]] == s.frames[0].vars;
    assert F.Eval(fuel - 1, P, Const(Arr(elems)), s) == F.Ok(s, Arr(elems));
    FewerDefined(elems);
    ForeachLogs(fuel - 1, P, x, log, Defined(elems), s);
  }

  lemma {:induction false} FewerDefined(vs: seq<Value>)
    ensures |Defined(vs)| <= |vs|
  {
    if vs != [] { FewerDefined(vs[1..]); }
  }

  lemma {:induction false} ForeachLogs(fuel: nat, P: Prims, x: string, log: string, vs: seq<Value>, s: F.State)
    requires Running(s) && x != log && |s.frames| == 1 && fuel >= |vs| + 4
    requires x in s.frames[0].vars && log in s.frames[0].vars
    ensures var v := if vs == [] then s.frames[0].vars[x] else vs[|vs| - 1];
            F.ForeachLoop(fuel, P, Loc(0, x), vs, Do(OpAssign(Plus, log, Var(x))), s)
            == F.Done(s.(frames := With(With(s.frames, 0, x, v), 0, log, Logged(P, s.frames[0].vars[log], vs))))
    decreases |vs|
  {
    if vs == [] {
      SameStore(s.frames, x, log);
    } else {
      var body := Do(OpAssign(Plus, log, Var(x)));
      var s1 := s.(frames := With(s.frames, 0, x, vs[0]));
      LogOne(fuel - 2, P, x, log, vs[0], s1);
      var t := s1.(frames := With(s1.frames, 0, log, P.bin(Plus, s.frames[0].vars[log], vs[0])));
      assert F.Exec(fuel - 1, P, body, s1) == F.Done(t);
      assert t.(top := t.top.(cont := false)) == t;
      assert F.ForeachLoop(fuel, P, Loc(0, x), vs, body, s) == F.ForeachLoop(fuel - 1, P, Loc(0, x), vs[1..], body, t);
      ForeachLogs(fuel - 1, P, x, log, vs[1..], t);
      SameLogs(s.frames, x, log, vs[0], t.frames[0].vars[log], if |vs| == 1 then vs[0] else vs[|vs| - 1],
               Logged(P, s.frames[0].vars[log], vs));
    }
  }

  lemma {:induction false} SameStore(frames: seq<Frame>, x: string, log: string)
    requires |frames| == 1 && x in frames[0].vars && log in frames[0].vars
    ensures With(With(frames, 0, x, frames[0].vars[x]), 0, log, frames[0].vars[log]) == frames
  {
    assert frames[0].vars[x := frames[0].vars[x]][log := frames[0].vars[log]] == frames[0].vars;
  }

  lemma {:induction false} SameLogs(frames: seq<Frame>, x: string, log: string, a: Value, b: Value, c: Value, d: Value)
    requires |frames| == 1 && x != log
    ensures With(With(With(With(frames, 0, x, a), 0, log, b), 0, x, c), 0, log, d)
            == With(With(frames, 0, x, c), 0, log, d)
  {
    assert frames[0].vars[x := a][log := b][x := c][log := d] == frames[0].vars[x := c][log := d];
  }

  lemma {:induction false} LogOne(fuel: nat, P: Prims, x: string, log: string, v: Value, s: F.State)
    requires Running(s) && x != log && |s.frames| == 1 && fuel >= 2
    requires x in s.frames[0].vars && s.frames[0].vars[x] == v && log in s.frames[0].vars
    ensures F.Eval(fuel, P, OpAssign(Plus, log, Var(x)), s)
            == F.Ok(s.(frames := With(s.frames, 0, log, P.bin(Plus, s.frames[0].vars[log], v))),
                    P.bin(Plus, s.frames[0].vars[log], v))
  {
    assert Lives(s.frames, x, 0) && Lives(s.frames, log, 0);
    TouchIs(s.frames, log, 0);
    assert s.frames[0].vars[log := s.frames[0].vars[log]] == s.frames[0].vars;
    VarReads(fuel - 2, P, x, s, 0);
    assert s.frames[0].vars[x := v] == s.frames[0].vars;
  }

  // ----- functions -----

  /** The function that a call finds: the innermost one of that name. */
  lemma {:induction false} FindFunIs(frames: seq<Frame>, f: string, k: nat, i: nat)
    requires i < k <= |frames| && f in frames[i].funs && forall j :: i < j < k ==> f !in frames[j].funs
    ensures FindFun(frames, f, k) == Some(frames[i].funs[f])
  {
    if i < k - 1 { FindFunIs(frames, f, k - 1, i); }
  }

  lemma {:induction false} NoFun(frames: seq<Frame>, f: string, k: nat)
    requires k <= |frames|
    ensures FindFun(frames, f, k) == None <==> forall j :: 0 <= j < k ==> f !in frames[j].funs
  {
    if k > 0 { NoFun(frames, f, k - 1); }
  }

  /** The first definition of a function counts, and goes to the current context. */
  lemma {:induction false} FirstDefinitionCounts(fuel: nat, P: Prims, f: string, body: Stmt, other: Stmt, s: F.State)
    requires Running(s) && forall j :: 0 <= j < |s.frames| ==> f !in s.frames[j].funs
    ensures var n := |s.frames| - 1;
            var fr := s.frames[n := s.frames[n].(funs := s.frames[n].funs[f := body])];
            && F.Exec(fuel + 2, P, Seq(FunDef(f, body), FunDef(f, other)), s) == F.Done(s.(frames := fr))
            && FindFun(fr, f, |fr|) == Some(body)
  {
    NoFun(s.frames, f, |s.frames|);
    var n := |s.frames| - 1;
    var fr := s.frames[n := s.frames[n].(funs := s.frames[n].funs[f := body])];
    FindFunIs(fr, f, |fr|, n);
    assert F.Exec(fuel + 1, P, FunDef(f, body), s) == F.Done(s.(frames := fr));
    assert F.Exec(fuel + 1, P, FunDef(f, other), s.(frames := fr)) == F.Done(s.(frames := fr));
  }

  /** What a call with one named argument comes to, if its body runs to `r`. */
  lemma {:induction false} CallRuns(fuel: nat, P: Prims, f: string, x: string, v: Value, body: Stmt, s: F.State)
    requires Running(s) && FindFun(s.frames, f, |s.frames|) == Some(body)
    ensures var r := F.Exec(fuel + 2, P, body, F.Enter(s, Frame(map[x := v], [], map[])));
            F.Eval(fuel + 4, P, Call(f, [Arg(Some(x), Const(v))]), s)
            == if r.Dried? then F.Dry else F.Ok(F.Leave(r.s), F.GuardValue(r.s.top))
  {
    var args := [Arg(Some(x), Const(v))];
    var fr := Frame(map[x := v], [], map[]);
    ConstantIs(fuel + 1, P, v, s);
    assert BindArg(EMPTY_FRAME, Some(x), v) == Some(fr);
    assert F.EvalArgs(fuel + 1, P, args[1..], s, fr) == F.Bound(s, Some(fr));
    assert F.EvalArgs(fuel + 2, P, args, s, EMPTY_FRAME) == F.Bound(s, Some(fr));
    assert F.EvalNode(fuel + 4, P, Call(f, args), s) == F.Invoke(fuel + 3, P, f, args, s);
  }

  /** A parameter hides the caller's variable of that name: its value is the argument's, and the caller sees nothing. */
  lemma {:induction false} CallReturns(fuel: nat, P: Prims, f: string, x: string, v: Value, s: F.State)
    requires Running(s) && FindFun(s.frames, f, |s.frames|) == Some(Return(Var(x)))
    ensures F.Eval(fuel + 4, P, Call(f, [Arg(Some(x), Const(v))]), s) == F.Ok(s, v)
  {
    var fr := Frame(map[x := v], [], map[]);
    var t := F.Enter(s, fr);
    var n := |s.frames|;
    CallRuns(fuel, P, f, x, v, Return(Var(x)), s);
    assert t.frames[n] == fr && Lives(t.frames, x, n);
    VarReads(fuel, P, x, t, n);
    assert With(t.frames, n, x, v) == t.frames by { assert fr.vars[x := v] == fr.vars; }
    Left(s, t.frames, t.top.(ret := Some(v)));
  }

  /** ... and an assignment to it stays in the call. */
  lemma {:induction false} ParameterIsLocal(fuel: nat, P: Prims, f: string, x: string, v: Value, w: Value, s: F.State)
    requires Running(s) && FindFun(s.frames, f, |s.frames|) == Some(Do(Assign(x, Const(w))))
    ensures F.Eval(fuel + 5, P, Call(f, [Arg(Some(x), Const(v))]), s) == F.Ok(s, Undef)
  {
    var fr := Frame(map[x := v], [], map[]);
    var t := F.Enter(s, fr);
    var n := |s.frames|;
    CallRuns(fuel + 1, P, f, x, v, Do(Assign(x, Const(w))), s);
    assert t.frames[n] == fr && Lives(t.frames, x, n);
    AssignWrites(fuel, P, x, w, t, n);
    Left(s, With(t.frames, n, x, w), t.top);
  }

  /** But an assignment to another name that a caller has goes to that caller. */
  lemma {:induction false} CallWritesThrough(fuel: nat, P: Prims, f: string, x: string, v: Value, y: string, w: Value,
                                             s: F.State, i: nat)
    requires Running(s) && FindFun(s.frames, f, |s.frames|) == Some(Do(Assign(y, Const(w))))
    requires x != y && Lives(s.frames, y, i) && y in s.frames[i].vars
    ensures F.Eval(fuel + 5, P, Call(f, [Arg(Some(x), Const(v))]), s)
            == F.Ok(s.(frames := With(s.frames, i, y, w)), Undef)
  {
    var fr := Frame(map[x := v], [], map[]);
    var t := F.Enter(s, fr);
    CallRuns(fuel + 1, P, f, x, v, Do(Assign(y, Const(w))), s);
    assert t.frames[|s.frames|] == fr && t.frames[i] == s.frames[i];
    assert Lives(t.frames, y, i);
    AssignWrites(fuel, P, y, w, t, i);
    Left(s.(frames := With(s.frames, i, y, w)), With(t.frames, i, y, w), t.top);
  }

  /** Leaving a call restores the context above it. */
  lemma {:induction false} Left(s: F.State, frames: seq<Frame>, top: F.Flags)
    requires F.Chained(s) && |frames| == |s.frames| + 1 && frames[..|s.frames|] == s.frames
    ensures F.Leave(F.State(frames, s.above + [s.top], top)) == s
  {
    assert (s.above + [s.top])[..|s.above|] == s.above;
  }

  /** The same name twice among the arguments: no call is made. */
  lemma {:induction false} SameNameTwice(fuel: nat, P: Prims, f: string, x: string, v: Value, w: Value, s: F.State)
    requires Running(s)
    ensures F.Eval(fuel + 5, P, Call(f, [Arg(Some(x), Const(v)), Arg(Some(x), Const(w))]), s) == F.Ok(s, Undef)
  {
    var args := [Arg(Some(x), Const(v)), Arg(Some(x), Const(w))];
    if FindFun(s.frames, f, |s.frames|).Some? {
      var fr := Frame(map[x := v], [], map[]);
      ConstantIs(fuel + 2, P, v, s);
      ConstantIs(fuel + 1, P, w, s);
      assert BindArg(EMPTY_FRAME, Some(x), v) == Some(fr);
      assert args[1..][0] == Arg(Some(x), Const(w)) && BindArg(fr, Some(x), w) == None;
      assert F.EvalArgs(fuel + 2, P, args[1..], s, fr) == F.Bound(s, None);
      assert F.EvalArgs(fuel + 3, P, args, s, EMPTY_FRAME) == F.Bound(s, None);
    }
    assert F.EvalNode(fuel + 5, P, Call(f, args), s) == F.Invoke(fuel + 4, P, f, args, s);
  }
}
