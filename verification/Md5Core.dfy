/**
 The MD5 compression function: the sixty-four steps of nasl/md5.c as written out there, against the
 schedule of section 3.4 of RFC 1321.
 */
module Md5Core {
  import opened MdHash

  // ----- the auxiliary functions -----

  /** F, G, H and I of RFC 1321. */
  function Standard(r: nat, x: bv32, y: bv32, z: bv32): bv32 {
    if r == 0 then (x & y) | (!x & z)
    else if r == 1 then (x & z) | (y & !z)
    else if r == 2 then x ^ y ^ z
    else y ^ (x | !z)
  }

  function F1(x: bv32, y: bv32, z: bv32): bv32 {
    z ^ (x & (y ^ z))
  }

  /** F1 to F4 of the code. */
  function Optimised(r: nat, x: bv32, y: bv32, z: bv32): bv32 {
    if r == 0 then F1(x, y, z)
    else if r == 1 then F1(z, x, y)
    else if r == 2 then x ^ y ^ z
    else y ^ (x | !z)
  }

  lemma {:induction false} OptimisedIsStandard(r: nat, x: bv32, y: bv32, z: bv32)
    ensures Optimised(r, x, y, z) == Standard(r, x, y, z)
  {
    assert F1(x, y, z) == (x & y) | (!x & z);
    assert F1(z, x, y) == (x & z) | (y & !z);
  }

  /** A step on a register: round, the four registers, message word, constant and shift. */
  type Operation = (nat, Word, Word, Word, Word, Word, Word, Amount) -> Word

  ghost predicate SameOperation(op1: Operation, op2: Operation) {
    forall r, w, x, y, z, m, t, s :: op1(r, w, x, y, z, m, t, s) == op2(r, w, x, y, z, m, t, s)
  }

  function Mixed(mix: Word, w: Word, x: Word, m: Word, t: Word, s: Amount): Word {
    Plus(Rotate(Plus(Plus(w, mix), Plus(m, t)), s), x)
  }

  /** On numbers: b = ((a + f + m + t) <<< s) + b, modulo 2^32. */
  lemma {:induction false} MixedIs(mix: Word, w: Word, x: Word, m: Word, t: Word, s: Amount)
    ensures var sum: nat := w + mix + m + t;
            var turned: nat := Rotate(sum % M32, s);
            Mixed(mix, w, x, m, t, s) == (turned + x) % M32
  {
    PlusSum(w, mix, m, t);
  }

  function StandardStep(r: nat, w: Word, x: Word, y: Word, z: Word, m: Word, t: Word, s: Amount): Word {
    Mixed(Standard(r, x as bv32, y as bv32, z as bv32) as Word, w, x, m, t, s)
  }

  /** MD5STEP */
  function CodeStep(r: nat, w: Word, x: Word, y: Word, z: Word, m: Word, t: Word, s: Amount): Word {
    Mixed(Optimised(r, x as bv32, y as bv32, z as bv32) as Word, w, x, m, t, s)
  }

  lemma {:induction false} CodeStepIsStandard()
    ensures SameOperation(CodeStep, StandardStep)
  {
    forall r, w: Word, x: Word, y: Word, z: Word, m: Word, t: Word, s: Amount
      ensures CodeStep(r, w, x, y, z, m, t, s) == StandardStep(r, w, x, y, z, m, t, s)
    {
      OptimisedIsStandard(r, x as bv32, y as bv32, z as bv32);
    }
  }

  // ----- the schedule of the standard -----

  /** The message word, shift and constant of step `j` of round `r`. */
  function Index(r: nat, j: nat): (k: nat)
    ensures k < 16
  {
    (if r == 0 then j else if r == 1 then 5 * j + 1 else if r == 2 then 3 * j + 5 else 7 * j) % 16
  }

  function Shift(r: nat, j: nat): Amount {
    if r == 0 then (if j % 4 == 0 then 7 else if j % 4 == 1 then 12 else if j % 4 == 2 then 17 else 22)
    else if r == 1 then (if j % 4 == 0 then 5 else if j % 4 == 1 then 9 else if j % 4 == 2 then 14 else 20)
    else if r == 2 then (if j % 4 == 0 then 4 else if j % 4 == 1 then 11 else if j % 4 == 2 then 16 else 23)
    else (if j % 4 == 0 then 6 else if j % 4 == 1 then 10 else if j % 4 == 2 then 15 else 21)
  }

  function Sine1(j: nat): Word {
    if j == 0 then 0xd76aa478 else if j == 1 then 0xe8c7b756 else if j == 2 then 0x242070db
    else if j == 3 then 0xc1bdceee else if j == 4 then 0xf57c0faf else if j == 5 then 0x4787c62a
    else if j == 6 then 0xa8304613 else if j == 7 then 0xfd469501 else if j == 8 then 0x698098d8
    else if j == 9 then 0x8b44f7af else if j == 10 then 0xffff5bb1 else if j == 11 then 0x895cd7be
    else if j == 12 then 0x6b901122 else if j == 13 then 0xfd987193 else if j == 14 then 0xa679438e
    else 0x49b40821
  }

  function Sine2(j: nat): Word {
    if j == 0 then 0xf61e2562 else if j == 1 then 0xc040b340 else if j == 2 then 0x265e5a51
    else if j == 3 then 0xe9b6c7aa else if j == 4 then 0xd62f105d else if j == 5 then 0x02441453
    else if j == 6 then 0xd8a1e681 else if j == 7 then 0xe7d3fbc8 else if j == 8 then 0x21e1cde6
    else if j == 9 then 0xc33707d6 else if j == 10 then 0xf4d50d87 else if j == 11 then 0x455a14ed
    else if j == 12 then 0xa9e3e905 else if j == 13 then 0xfcefa3f8 else if j == 14 then 0x676f02d9
    else 0x8d2a4c8a
  }

  function Sine3(j: nat): Word {
    if j == 0 then 0xfffa3942 else if j == 1 then 0x8771f681 else if j == 2 then 0x6d9d6122
    else if j == 3 then 0xfde5380c else if j == 4 then 0xa4beea44 else if j == 5 then 0x4bdecfa9
    else if j == 6 then 0xf6bb4b60 else if j == 7 then 0xbebfbc70 else if j == 8 then 0x289b7ec6
    else if j == 9 then 0xeaa127fa else if j == 10 then 0xd4ef3085 else if j == 11 then 0x04881d05
    else if j == 12 then 0xd9d4d039 else if j == 13 then 0xe6db99e5 else if j == 14 then 0x1fa27cf8
    else 0xc4ac5665
  }

  function Sine4(j: nat): Word {
    if j == 0 then 0xf4292244 else if j == 1 then 0x432aff97 else if j == 2 then 0xab9423a7
    else if j == 3 then 0xfc93a039 else if j == 4 then 0x655b59c3 else if j == 5 then 0x8f0ccc92
    else if j == 6 then 0xffeff47d else if j == 7 then 0x85845dd1 else if j == 8 then 0x6fa87e4f
    else if j == 9 then 0xfe2ce6e0 else if j == 10 then 0xa3014314 else if j == 11 then 0x4e0811a1
    else if j == 12 then 0xf7537e82 else if j == 13 then 0xbd3af235 else if j == 14 then 0x2ad7d2bb
    else 0xeb86d391
  }

  function Sine(r: nat, j: nat): Word {
    if r == 0 then Sine1(j) else if r == 1 then Sine2(j) else if r == 2 then Sine3(j) else Sine4(j)
  }

  /** One step; the register just written moves to second place. */
  function Next(op: Operation, x: seq<Word>, r: nat, j: nat, q: Regs): Regs
    requires |x| == 16
  {
    Regs(q.d, op(r, q.a, q.b, q.c, q.d, x[Index(r, j)], Sine(r, j), Shift(r, j)), q.b, q.c)
  }

  /** The first `n` rows of four steps of a round. */
  function Rows(op: Operation, x: seq<Word>, r: nat, n: nat, p: Regs): Regs
    requires |x| == 16
    decreases n
  {
    if n == 0 then p
    else
      var j, q := 4 * (n - 1), Rows(op, x, r, n - 1, p);
      Next(op, x, r, j + 3, Next(op, x, r, j + 2, Next(op, x, r, j + 1, Next(op, x, r, j, q))))
  }

  // ----- the steps of the code -----

  method Round1(op: Operation, x: seq<Word>, p: Regs) returns (q: Regs)
    requires |x| == 16
    ensures q == Rows(op, x, 0, 4, p)
  {
    var a, b, c, d := p.a, p.b, p.c, p.d;
    a := op(0, a, b, c, d, x[0], 0xd76aa478, 7);
    d := op(0, d, a, b, c, x[1], 0xe8c7b756, 12);
    c := op(0, c, d, a, b, x[2], 0x242070db, 17);
    b := op(0, b, c, d, a, x[3], 0xc1bdceee, 22);
    assert Regs(a, b, c, d) == Rows(op, x, 0, 1, p);
    a := op(0, a, b, c, d, x[4], 0xf57c0faf, 7);
    d := op(0, d, a, b, c, x[5], 0x4787c62a, 12);
    c := op(0, c, d, a, b, x[6], 0xa8304613, 17);
    b := op(0, b, c, d, a, x[7], 0xfd469501, 22);
    assert Regs(a, b, c, d) == Rows(op, x, 0, 2, p);
    a := op(0, a, b, c, d, x[8], 0x698098d8, 7);
    d := op(0, d, a, b, c, x[9], 0x8b44f7af, 12);
    c := op(0, c, d, a, b, x[10], 0xffff5bb1, 17);
    b := op(0, b, c, d, a, x[11], 0x895cd7be, 22);
    assert Regs(a, b, c, d) == Rows(op, x, 0, 3, p);
    a := op(0, a, b, c, d, x[12], 0x6b901122, 7);
    d := op(0, d, a, b, c, x[13], 0xfd987193, 12);
    c := op(0, c, d, a, b, x[14], 0xa679438e, 17);
    b := op(0, b, c, d, a, x[15], 0x49b40821, 22);
    q := Regs(a, b, c, d);
  }

  method Round2(op: Operation, x: seq<Word>, p: Regs) returns (q: Regs)
    requires |x| == 16
    ensures q == Rows(op, x, 1, 4, p)
  {
    var a, b, c, d := p.a, p.b, p.c, p.d;
    a := op(1, a, b, c, d, x[1], 0xf61e2562, 5);
    d := op(1, d, a, b, c, x[6], 0xc040b340, 9);
    c := op(1, c, d, a, b, x[11], 0x265e5a51, 14);
    b := op(1, b, c, d, a, x[0], 0xe9b6c7aa, 20);
    assert Regs(a, b, c, d) == Rows(op, x, 1, 1, p);
    a := op(1, a, b, c, d, x[5], 0xd62f105d, 5);
    d := op(1, d, a, b, c, x[10], 0x02441453, 9);
    c := op(1, c, d, a, b, x[15], 0xd8a1e681, 14);
    b := op(1, b, c, d, a, x[4], 0xe7d3fbc8, 20);
    assert Regs(a, b, c, d) == Rows(op, x, 1, 2, p);
    a := op(1, a, b, c, d, x[9], 0x21e1cde6, 5);
    d := op(1, d, a, b, c, x[14], 0xc33707d6, 9);
    c := op(1, c, d, a, b, x[3], 0xf4d50d87, 14);
    b := op(1, b, c, d, a, x[8], 0x455a14ed, 20);
    assert Regs(a, b, c, d) == Rows(op, x, 1, 3, p);
    a := op(1, a, b, c, d, x[13], 0xa9e3e905, 5);
    d := op(1, d, a, b, c, x[2], 0xfcefa3f8, 9);
    c := op(1, c, d, a, b, x[7], 0x676f02d9, 14);
    b := op(1, b, c, d, a, x[12], 0x8d2a4c8a, 20);
    q := Regs(a, b, c, d);
  }

  method Round3(op: Operation, x: seq<Word>, p: Regs) returns (q: Regs)
    requires |x| == 16
    ensures q == Rows(op, x, 2, 4, p)
  {
    var a, b, c, d := p.a, p.b, p.c, p.d;
    a := op(2, a, b, c, d, x[5], 0xfffa3942, 4);
    d := op(2, d, a, b, c, x[8], 0x8771f681, 11);
    c := op(2, c, d, a, b, x[11], 0x6d9d6122, 16);
    b := op(2, b, c, d, a, x[14], 0xfde5380c, 23);
    assert Regs(a, b, c, d) == Rows(op, x, 2, 1, p);
    a := op(2, a, b, c, d, x[1], 0xa4beea44, 4);
    d := op(2, d, a, b, c, x[4], 0x4bdecfa9, 11);
    c := op(2, c, d, a, b, x[7], 0xf6bb4b60, 16);
    b := op(2, b, c, d, a, x[10], 0xbebfbc70, 23);
    assert Regs(a, b, c, d) == Rows(op, x, 2, 2, p);
    a := op(2, a, b, c, d, x[13], 0x289b7ec6, 4);
    d := op(2, d, a, b, c, x[0], 0xeaa127fa, 11);
    c := op(2, c, d, a, b, x[3], 0xd4ef3085, 16);
    b := op(2, b, c, d, a, x[6], 0x04881d05, 23);
    assert Regs(a, b, c, d) == Rows(op, x, 2, 3, p);
    a := op(2, a, b, c, d, x[9], 0xd9d4d039, 4);
    d := op(2, d, a, b, c, x[12], 0xe6db99e5, 11);
    c := op(2, c, d, a, b, x[15], 0x1fa27cf8, 16);
    b := op(2, b, c, d, a, x[2], 0xc4ac5665, 23);
    q := Regs(a, b, c, d);
  }

  method Round4(op: Operation, x: seq<Word>, p: Regs) returns (q: Regs)
    requires |x| == 16
    ensures q == Rows(op, x, 3, 4, p)
  {
    var a, b, c, d := p.a, p.b, p.c, p.d;
    a := op(3, a, b, c, d, x[0], 0xf4292244, 6);
    d := op(3, d, a, b, c, x[7], 0x432aff97, 10);
    c := op(3, c, d, a, b, x[14], 0xab9423a7, 15);
    b := op(3, b, c, d, a, x[5], 0xfc93a039, 21);
    assert Regs(a, b, c, d) == Rows(op, x, 3, 1, p);
    a := op(3, a, b, c, d, x[12], 0x655b59c3, 6);
    d := op(3, d, a, b, c, x[3], 0x8f0ccc92, 10);
    c := op(3, c, d, a, b, x[10], 0xffeff47d, 15);
    b := op(3, b, c, d, a, x[1], 0x85845dd1, 21);
    assert Regs(a, b, c, d) == Rows(op, x, 3, 2, p);
    a := op(3, a, b, c, d, x[8], 0x6fa87e4f, 6);
    d := op(3, d, a, b, c, x[15], 0xfe2ce6e0, 10);
    c := op(3, c, d, a, b, x[6], 0xa3014314, 15);
    b := op(3, b, c, d, a, x[13], 0x4e0811a1, 21);
    assert Regs(a, b, c, d) == Rows(op, x, 3, 3, p);
    a := op(3, a, b, c, d, x[4], 0xf7537e82, 6);
    d := op(3, d, a, b, c, x[11], 0xbd3af235, 10);
    c := op(3, c, d, a, b, x[2], 0x2ad7d2bb, 15);
    b := op(3, b, c, d, a, x[9], 0xeb86d391, 21);
    q := Regs(a, b, c, d);
  }

  // ----- the compression function -----

  function Rounds(op: Operation, x: seq<Word>, p: Regs): Regs
    requires |x| == 16
  {
    var n := |x| / 4;
    Rows(op, x, 3, n, Rows(op, x, 2, n, Rows(op, x, 1, n, Rows(op, x, 0, n, p))))
  }

  function Feed(p: Regs, q: Regs): Regs {
    Regs(Plus(p.a, q.a), Plus(p.b, q.b), Plus(p.c, q.c), Plus(p.d, q.d))
  }

  function Compress(p: Regs, b: Block): Regs {
    Feed(p, Rounds(StandardStep, Words(b), p))
  }

  lemma {:induction false} RowsAgree(op1: Operation, op2: Operation, x: seq<Word>, r: nat, n: nat, p: Regs)
    requires |x| == 16 && SameOperation(op1, op2)
    ensures Rows(op1, x, r, n, p) == Rows(op2, x, r, n, p)
  {
    if n > 0 {
      RowsAgree(op1, op2, x, r, n - 1, p);
      forall j, q ensures Next(op1, x, r, j, q) == Next(op2, x, r, j, q) {}
    }
  }

  lemma {:induction false} RoundsAgree(op1: Operation, op2: Operation, x: seq<Word>, p: Regs)
    requires |x| == 16 && SameOperation(op1, op2)
    ensures Rounds(op1, x, p) == Rounds(op2, x, p)
  {
    var n := |x| / 4;
    RowsAgree(op1, op2, x, 0, n, p);
    var q1 := Rows(op1, x, 0, n, p);
    RowsAgree(op1, op2, x, 1, n, q1);
    var q2 := Rows(op1, x, 1, n, q1);
    RowsAgree(op1, op2, x, 2, n, q2);
    RowsAgree(op1, op2, x, 3, n, Rows(op1, x, 2, n, q2));
  }

  method AllRounds(op: Operation, x: seq<Word>, p: Regs) returns (q: Regs)
    requires |x| == 16
    ensures q == Rounds(op, x, p)
  {
    q := Round1(op, x, p);
    q := Round2(op, x, q);
    q := Round3(op, x, q);
    q := Round4(op, x, q);
  }

  /** MD5Transform, on a block that byteReverse has turned into words. */
  method Transform(p: Regs, b: Block) returns (q: Regs)
    ensures q == Compress(p, b)
  {
    q := AllRounds(CodeStep, Words(b), p);
    q := Feed(p, q);
    CodeStepIsStandard();
    RoundsAgree(CodeStep, StandardStep, Words(b), p);
  }
}
