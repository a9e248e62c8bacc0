/**
 The one-shot MD4 of nasl/md4.c: its loop over more than 64 bytes and its tail of one or two blocks process
 exactly the blocks of the padded message (sections 3.1 to 3.5 of RFC 1320).
 */
module Md4 {
  import opened Bytes
  import opened MdHash

  // ----- the schedule of the standard -----

  /** A step on a register: round, the four registers, message word and shift. */
  type Operation = (nat, Word, Word, Word, Word, Word, Amount) -> Word

  function Mix(r: nat, x: bv32, y: bv32, z: bv32): bv32 {
    if r == 0 then (x & y) | (!x & z) else if r == 1 then (x & y) | (x & z) | (y & z) else x ^ y ^ z
  }

  function Mixed(r: nat, mix: Word, a: Word, m: Word, s: Amount): Word {
    Rotate(Plus(Plus(Plus(a, mix), m), if r == 0 then 0 else if r == 1 then 0x5A827999 else 0x6ED9EBA1), s)
  }

  function Step(r: nat, a: Word, b: Word, c: Word, d: Word, m: Word, s: Amount): Word {
    Mixed(r, Mix(r, b as bv32, c as bv32, d as bv32) as Word, a, m, s)
  }

  /** On numbers: a = (a + f + m + k) <<< s, modulo 2^32, with 0 and the roots of 2 and 3 for k. */
  lemma {:induction false} MixedIs(r: nat, mix: Word, a: Word, m: Word, s: Amount)
    requires r < 3
    ensures var sum: nat := a + mix + m + [0, 0x5A827999, 0x6ED9EBA1][r];
            Mixed(r, mix, a, m, s) == Rotate(sum % M32, s)
  {
    PlusSum(a, mix, m, [0, 0x5A827999, 0x6ED9EBA1][r]);
  }

  /** The mixing functions: a choice by x, the majority, and the parity of the bits. */
  lemma {:induction false} MixChooses(x: bv32, y: bv32, z: bv32)
    ensures Mix(0, x, y, z) == z ^ (x & (y ^ z))
  {
  }

  lemma {:induction false} MixIsMajority(x: bv32, y: bv32, z: bv32)
    ensures Mix(1, x, y, z) == (x & y) ^ (x & z) ^ (y & z)
  {
  }

  lemma {:induction false} MixIsParity(x: bv32, y: bv32, z: bv32)
    ensures Mix(2, x, y, z) == x ^ (y ^ z) && Mix(2, x, y, y) == x && Mix(2, x, x, z) == z
  {
  }

  /** Round 1 takes the words in order, round 2 by columns, and round 3 with the bits of their index reversed. */
  function Index(r: nat, j: nat): (k: nat)
    ensures k < 16
  {
    if r == 0 then j % 16
    else if r == 1 then 4 * (j % 4) + j / 4 % 4
    else (if j % 4 == 0 then 0 else if j % 4 == 1 then 8 else if j % 4 == 2 then 4 else 12)
         + (if j < 4 then 0 else if j < 8 then 2 else if j < 12 then 1 else 3)
  }

  function Shift(r: nat, j: nat): Amount {
    if j % 4 == 0 then 3
    else if j % 4 == 1 then (if r == 0 then 7 else if r == 1 then 5 else 9)
    else if j % 4 == 2 then (if r == 1 then 9 else 11)
    else (if r == 0 then 19 else if r == 1 then 13 else 15)
  }

  /** One step; the register just written moves to second place. */
  function Next(op: Operation, x: seq<Word>, r: nat, j: nat, q: Regs): Regs
    requires |x| == 16
  {
    Regs(q.d, op(r, q.a, q.b, q.c, q.d, x[Index(r, j)], Shift(r, j)), q.b, q.c)
  }

  /** The first `n` rows of four steps of a round. */
  function Rows(op: Operation, x: seq<Word>, r: nat, n: nat, p: Regs): Regs
    requires |x| == 16
    decreases n
  {
    if n == 0 then p
    else
      var j, q := 4 * (n - 1), Rows(op, x, r, n - 1, p);
      Next(op, x, r, j + 3, Next(op, x, r, j + 2, Next(op, x, r, j + 1, Next(op, x, r, j, q))))
  }

  function Rounds(op: Operation, x: seq<Word>, p: Regs): Regs
    requires |x| == 16
  {
    var n := |x| / 4;
    Rows(op, x, 2, n, Rows(op, x, 1, n, Rows(op, x, 0, n, p)))
  }

  function Compress(p: Regs, b: Block): Regs {
    var q := Rounds(Step, Words(b), p);
    Regs(Plus(p.a, q.a), Plus(p.b, q.b), Plus(p.c, q.c), Plus(p.d, q.d))
  }

  // ----- the steps of the code -----

  method Round1(op: Operation, x: seq<Word>, p: Regs) returns (q: Regs)
    requires |x| == 16
    ensures q == Rows(op, x, 0, 4, p)
  {
    var a, b, c, d := p.a, p.b, p.c, p.d;
    a := op(0, a, b, c, d, x[0], 3);
    d := op(0, d, a, b, c, x[1], 7);
    c := op(0, c, d, a, b, x[2], 11);
    b := op(0, b, c, d, a, x[3], 19);
    assert Regs(a, b, c, d) == Rows(op, x, 0, 1, p);
    a := op(0, a, b, c, d, x[4], 3);
    d := op(0, d, a, b, c, x[5], 7);
    c := op(0, c, d, a, b, x[6], 11);
    b := op(0, b, c, d, a, x[7], 19);
    assert Regs(a, b, c, d) == Rows(op, x, 0, 2, p);
    a := op(0, a, b, c, d, x[8], 3);
    d := op(0, d, a, b, c, x[9], 7);
    c := op(0, c, d, a, b, x[10], 11);
    b := op(0, b, c, d, a, x[11], 19);
    assert Regs(a, b, c, d) == Rows(op, x, 0, 3, p);
    a := op(0, a, b, c, d, x[12], 3);
    d := op(0, d, a, b, c, x[13], 7);
    c := op(0, c, d, a, b, x[14], 11);
    b := op(0, b, c, d, a, x[15], 19);
    q := Regs(a, b, c, d);
  }

  method Round2(op: Operation, x: seq<Word>, p: Regs) returns (q: Regs)
    requires |x| == 16
    ensures q == Rows(op, x, 1, 4, p)
  {
    var a, b, c, d := p.a, p.b, p.c, p.d;
    a := op(1, a, b, c, d, x[0], 3);
    d := op(1, d, a, b, c, x[4], 5);
    c := op(1, c, d, a, b, x[8], 9);
    b := op(1, b, c, d, a, x[12], 13);
    assert Regs(a, b, c, d) == Rows(op, x, 1, 1, p);
    a := op(1, a, b, c, d, x[1], 3);
    d := op(1, d, a, b, c, x[5], 5);
    c := op(1, c, d, a, b, x[9], 9);
    b := op(1, b, c, d, a, x[13], 13);
    assert Regs(a, b, c, d) == Rows(op, x, 1, 2, p);
    a := op(1, a, b, c, d, x[2], 3);
    d := op(1, d, a, b, c, x[6], 5);
    c := op(1, c, d, a, b, x[10], 9);
    b := op(1, b, c, d, a, x[14], 13);
    assert Regs(a, b, c, d) == Rows(op, x, 1, 3, p);
    a := op(1, a, b, c, d, x[3], 3);
    d := op(1, d, a, b, c, x[7], 5);
    c := op(1, c, d, a, b, x[11], 9);
    b := op(1, b, c, d, a, x[15], 13);
    q := Regs(a, b, c, d);
  }

  method Round3(op: Operation, x: seq<Word>, p: Regs) returns (q: Regs)
    requires |x| == 16
    ensures q == Rows(op, x, 2, 4, p)
  {
    var a, b, c, d := p.a, p.b, p.c, p.d;
    a := op(2, a, b, c, d, x[0], 3);
    d := op(2, d, a, b, c, x[8], 9);
    c := op(2, c, d, a, b, x[4], 11);
    b := op(2, b, c, d, a, x[12], 15);
    assert Regs(a, b, c, d) == Rows(op, x, 2, 1, p);
    a := op(2, a, b, c, d, x[2], 3);
    d := op(2, d, a, b, c, x[10], 9);
    c := op(2, c, d, a, b, x[6], 11);
    b := op(2, b, c, d, a, x[14], 15);
    assert Regs(a, b, c, d) == Rows(op, x, 2, 2, p);
    a := op(2, a, b, c, d, x[1], 3);
    d := op(2, d, a, b, c, x[9], 9);
    c := op(2, c, d, a, b, x[5], 11);
    b := op(2, b, c, d, a, x[13], 15);
    assert Regs(a, b, c, d) == Rows(op, x, 2, 3, p);
    a := op(2, a, b, c, d, x[3], 3);
    d := op(2, d, a, b, c, x[11], 9);
    c := op(2, c, d, a, b, x[7], 11);
    b := op(2, b, c, d, a, x[15], 15);
    q := Regs(a, b, c, d);
  }

  method AllRounds(op: Operation, x: seq<Word>, p: Regs) returns (q: Regs)
    requires |x| == 16
    ensures q == Rounds(op, x, p)
  {
    q := Round1(op, x, p);
    q := Round2(op, x, q);
    q := Round3(op, x, q);
  }

  /** mdfour64_ntlmssp */
  method Transform(ghost f: (Regs, Block) -> Regs, p: Regs, b: Block) returns (q: Regs)
    requires SameCompression(f, Compress)
    ensures q == f(p, b)
  {
    q := AllRounds(Step, Words(b), p);
    q := Regs(Plus(p.a, q.a), Plus(p.b, q.b), Plus(p.c, q.c), Plus(p.d, q.d));
    assert q == Compress(p, b);
  }

  // ----- the message -----

  /** With up to 64 bytes left over, the padded message ends in one block, or in two. */
  ghost predicate EndsIn(padded: seq<Byte>, whole: seq<Byte>, rest: seq<Byte>, n: nat) {
    && |rest| <= 64
    && padded == if |rest| <= 55 then whole + (rest + [0x80] + Zeros(55 - |rest|) + LeBytes(n, 4) + Zeros(4))
                 else whole + (rest + [0x80] + Zeros(119 - |rest|) + LeBytes(n, 4) + Zeros(4))
  }

  lemma {:induction false} LongLength(n: nat)
    requires n < M32
    ensures n % (M32 * M32) == n && LeBytes(n, 8) == LeBytes(n, 4) + Zeros(4)
  {
    assert Pow256(4) == M32;
    LeSplit(n, 0, 4, 4);
    assert LeBytes(0, 4) == [0, 0, 0, 0] == Zeros(4);
  }

  lemma {:induction false} PaddedEnd(whole: seq<Byte>, blocks: nat, rest: seq<Byte>)
    requires |whole| == 64 * blocks && |rest| <= 64 && 8 * (64 * blocks + |rest|) < M32
    ensures EndsIn(Padded(whole + rest), whole, rest, 8 * (64 * blocks + |rest|))
  {
    var n := 64 * blocks + |rest|;
    var k := if |rest| <= 55 then 55 - |rest| else 119 - |rest|;
    PadLengthAt(blocks, |rest|, k);
    LongLength(8 * n);
    Regroup(whole, rest, [0x80], Zeros(k), LeBytes(8 * n, 4), Zeros(4));
  }

  lemma {:induction false} PadLengthAt(blocks: nat, r: nat, k: nat)
    requires r <= 64 && k == if r <= 55 then 55 - r else 119 - r
    ensures PadLength(64 * blocks + r) == k
  {
    if r == 64 { assert 64 * blocks + r == 64 * (blocks + 1); }
  }

  lemma {:induction false} Regroup(a: seq<Byte>, b: seq<Byte>, c: seq<Byte>, d: seq<Byte>, e: seq<Byte>, z: seq<Byte>)
    ensures a + b + c + d + (e + z) == a + (b + c + d + e + z)
  {
  }

  /** The tail: up to 64 bytes and their padding, laid out in a buffer of two blocks. */
  method Layout(rest: seq<Byte>, n: nat) returns (buf: array<Byte>)
    requires |rest| <= 64
    ensures buf.Length == 128 && fresh(buf)
    ensures if |rest| <= 55 then buf[..64] == rest + [0x80] + Zeros(55 - |rest|) + LeBytes(n, 4) + Zeros(4)
            else buf[..] == rest + [0x80] + Zeros(119 - |rest|) + LeBytes(n, 4) + Zeros(4)
  {
    buf := new Byte[128](_ => 0);
    forall i | 0 <= i < |rest| { buf[i] := rest[i]; }
    buf[|rest|] := 0x80;
    var at, b := if |rest| <= 55 then 56 else 120, LeBytes(n, 4);
    forall i | 0 <= i < 4 { buf[at + i] := b[i]; }
  }

  method Tail(ghost f: (Regs, Block) -> Regs, p: Regs, ghost whole: seq<Byte>, rest: seq<Byte>, n: nat,
              ghost padded: seq<Byte>)
    returns (q: Regs)
    requires SameCompression(f, Compress) && p == Fold(f, whole) && EndsIn(padded, whole, rest, n)
    ensures q == Fold(f, padded)
  {
    var buf := Layout(rest, n);
    if |rest| <= 55 {
      FoldMore(f, whole, buf[..64]);
      q := Transform(f, p, buf[..64]);
    } else {
      FoldMore(f, whole, buf[..64]);
      FoldMore(f, whole + buf[..64], buf[64..]);
      assert whole + buf[..64] + buf[64..] == whole + buf[..];
      q := Transform(f, p, buf[..64]);
      q := Transform(f, q, buf[64..]);
    }
  }

  /** mdfour_ntlmssp, with the length in bits in one word. */
  method DigestAs(ghost f: (Regs, Block) -> Regs, data: seq<Byte>) returns (digest: seq<Byte>)
    requires SameCompression(f, Compress) && |data| < 0x1000_0000
    ensures digest == Hash(f, data)
  {
    var r, pos := INIT, 0;
    ghost var blocks := 0;
    while |data| - pos > 64
      invariant pos == 64 * blocks <= |data| && r == Fold(f, data[..pos])
    {
      assert data[..pos + 64] == data[..pos] + data[pos..pos + 64];
      FoldMore(f, data[..pos], data[pos..pos + 64]);
      r := Transform(f, r, data[pos..pos + 64]);
      pos, blocks := pos + 64, blocks + 1;
    }
    assert data == data[..pos] + data[pos..];
    PaddedEnd(data[..pos], blocks, data[pos..]);
    r := Tail(f, r, data[..pos], data[pos..], 8 * |data|, Padded(data));
    digest := Digest(r);
  }

  method DigestOf(data: seq<Byte>) returns (digest: seq<Byte>)
    requires |data| < 0x1000_0000
    ensures digest == Hash(Compress, data)
  {
    digest := DigestAs(Compress, data);
  }
}
