/**
 What MD4 and MD5 share (sections 3.1 to 3.3 of RFC 1320 and of RFC 1321): padding, the length field and
 the fold of a compression function over 64-byte blocks.
 */
module MdHash {
  import opened Bytes

  const M32 := 0x1_0000_0000

  type Word = w: nat | w < M32

  type Block = b: seq<Byte> | |b| == 64 witness seq(64, _ => 0)

  datatype Regs = Regs(a: Word, b: Word, c: Word, d: Word)

  const INIT := Regs(0x67452301, 0xefcdab89, 0x98badcfe, 0x10325476)

  function Plus(a: Word, b: Word): Word {
    var n: nat := a + b;
    n % M32
  }

  lemma {:induction false} PlusSum(a: Word, b: Word, c: Word, d: Word)
    ensures var sum: nat := a + b + c + d;
            Plus(Plus(a, b), Plus(c, d)) == Plus(Plus(Plus(a, b), c), d) == sum % M32
  {
    PlusMod(a + b, c);
    PlusMod(a + b + c, d);
    PlusMod(a + b, Plus(c, d));
    PlusMod(c + d, a + b);
  }

  lemma {:induction false} PlusMod(n: nat, m: nat)
    ensures (n % M32 + m) % M32 == (n + m) % M32
  {
  }

  type Amount = s: nat | 0 < s < 32 witness 1

  /** The circular shift to the left: all bits but the top one move up, and that one follows below. */
  function RotateOne(w: Word): Word {
    var low: nat := w % 0x8000_0000;
    2 * low + w / 0x8000_0000
  }

  function Rotate(w: Word, s: nat): Word {
    if s == 0 then w else RotateOne(Rotate(w, s - 1))
  }

  lemma {:induction false} TopPower()
    ensures Pow2(31) == 0x8000_0000
  {
    assert Pow2(8) == 256;
    Pow2Sum(8, 8);
    Pow2Sum(8, 7);
    Pow2Sum(16, 15);
  }

  lemma {:induction false} RotateOneBits(w: Word, k: nat)
    requires k < 32
    ensures Bit(RotateOne(w), k) <==> Bit(w, if k == 0 then 31 else k - 1)
  {
    var h, l := w / 0x8000_0000, w % 0x8000_0000;
    TopPower();
    BitsOfParts(h, l, 31, if k == 0 then 31 else k - 1);
    var n: nat := 2 * l + h;
    assert n / 2 == l && n % 2 == h;
  }

  /** Bit by bit: bit k of the result is bit k - s of the word, counted around. */
  lemma {:induction false} RotateBits(w: Word, s: nat, k: nat)
    requires s <= 32 && k < 32
    ensures Bit(Rotate(w, s), k) <==> Bit(w, if k < s then k + 32 - s else k - s)
    decreases s
  {
    if s > 0 {
      RotateOneBits(Rotate(w, s - 1), k);
      RotateBits(w, s - 1, if k == 0 then 31 else k - 1);
    }
  }

  /** `k` bytes, the least significant first. */
  function LeBytes(n: nat, k: nat): (s: seq<Byte>)
    ensures |s| == k
  {
    if k == 0 then [] else [n % 256] + LeBytes(n / 256, k - 1)
  }

  function Pow256(k: nat): nat {
    if k == 0 then 1 else 256 * Pow256(k - 1)
  }

  lemma {:induction false} Scaled(x: nat, p: nat, y: nat)
    ensures var n := x + 256 * p * y;
            n / 256 == x / 256 + p * y && n % 256 == x % 256
  {
    var z := p * y;
    assert 256 * p * y == 256 * z;
  }

  /** Bytes of a number in two parts, the lower one `k` bytes wide. */
  lemma {:induction false} LeSplit(x: nat, y: nat, k: nat, j: nat)
    requires x < Pow256(k)
    ensures LeBytes(x + Pow256(k) * y, k + j) == LeBytes(x, k) + LeBytes(y, j)
  {
    if k > 0 {
      var p := Pow256(k - 1);
      Scaled(x, p, y);
      LeSplit(x / 256, y, k - 1, j);
    } else {
      assert x == 0 && Pow256(0) * y == y;
    }
  }

  function Zeros(k: nat): (s: seq<Byte>)
    ensures |s| == k && forall i :: 0 <= i < k ==> s[i] == 0
  {
    seq(k, _ => 0)
  }

  /** Zero bytes after the 0x80, up to 56 modulo 64. */
  function PadLength(n: nat): (k: nat)
    ensures (n + 1 + k) % 64 == 56 && k < 64
  {
    (119 - n % 64) % 64
  }

  /** The message, a one bit, zeros, and the length in bits modulo 2^64. */
  function Padded(msg: seq<Byte>): seq<Byte> {
    msg + [0x80] + Zeros(PadLength(|msg|)) + LeBytes(8 * |msg| % (M32 * M32), 8)
  }

  /** What follows the whole blocks: one block if there is room for the length, or else two. */
  ghost predicate PaddedFrom(padded: seq<Byte>, whole: seq<Byte>, tail: seq<Byte>, length: seq<Byte>) {
    && |tail| < 64
    && padded == if |tail| <= 55 then whole + (tail + [0x80] + Zeros(55 - |tail|) + length)
                 else whole + (tail + [0x80] + Zeros(63 - |tail|)) + (Zeros(56) + length)
  }

  lemma {:induction false} PaddedBlocks(whole: seq<Byte>, blocks: nat, tail: seq<Byte>)
    requires |whole| == 64 * blocks && |tail| < 64
    ensures PaddedFrom(Padded(whole + tail), whole, tail, LeBytes(8 * (64 * blocks + |tail|) % (M32 * M32), 8))
  {
    if |tail| <= 55 {
      assert PadLength(|whole + tail|) == 55 - |tail|;
    } else {
      assert PadLength(|whole + tail|) == 119 - |tail|;
      assert Zeros(119 - |tail|) == Zeros(63 - |tail|) + Zeros(56);
    }
  }

  /** The registers after the blocks of `s`, which are 64 bytes each. */
  function Fold(f: (Regs, Block) -> Regs, s: seq<Byte>): Regs {
    if |s| < 64 then INIT else f(Fold(f, s[..|s| - 64]), s[|s| - 64..])
  }

  lemma {:induction false} FoldMore(f: (Regs, Block) -> Regs, s: seq<Byte>, b: Block)
    ensures Fold(f, s + b) == f(Fold(f, s), b)
  {
    assert (s + b)[..|s|] == s && (s + b)[|s|..] == b;
  }

  ghost predicate SameCompression(f: (Regs, Block) -> Regs, g: (Regs, Block) -> Regs) {
    forall p, b {:trigger g(p, b)} :: f(p, b) == g(p, b)
  }

  lemma {:induction false} SameAsSame(f: (Regs, Block) -> Regs, g: (Regs, Block) -> Regs, h: (Regs, Block) -> Regs)
    requires SameCompression(f, h) && SameCompression(g, h)
    ensures SameCompression(f, g)
  {
    forall p, b ensures f(p, b) == g(p, b) {
      assert f(p, b) == h(p, b);
    }
  }

  lemma {:induction false} FoldAgrees(f: (Regs, Block) -> Regs, g: (Regs, Block) -> Regs, s: seq<Byte>)
    requires SameCompression(f, g)
    ensures Fold(f, s) == Fold(g, s)
  {
    if |s| >= 64 { FoldAgrees(f, g, s[..|s| - 64]); }
  }

  function WordBytes(w: Word): seq<Byte> {
    LeBytes(w, 4)
  }

  function Digest(r: Regs): (s: seq<Byte>) {
    WordBytes(r.a) + WordBytes(r.b) + WordBytes(r.c) + WordBytes(r.d)
  }

  /** The hash of a message: compress its padded blocks in order. */
  function Hash(f: (Regs, Block) -> Regs, msg: seq<Byte>): seq<Byte> {
    Digest(Fold(f, Padded(msg)))
  }

  lemma {:induction false} HashAgrees(f: (Regs, Block) -> Regs, g: (Regs, Block) -> Regs, msg: seq<Byte>)
    requires SameCompression(f, g)
    ensures Hash(f, msg) == Hash(g, msg)
  {
    FoldAgrees(f, g, Padded(msg));
  }

  function LeWord(b: Block, i: nat): Word
    requires i < 16
  {
    var b0: nat, b1: nat, b2: nat, b3: nat := b[4 * i], b[4 * i + 1], b[4 * i + 2], b[4 * i + 3];
    b0 + 0x100 * b1 + 0x1_0000 * b2 + 0x100_0000 * b3
  }

  /** The sixteen words of a block. */
  lemma {:induction false} LeByte(n: nat, b: Byte, m: nat, k: nat)
    requires n == b as nat + 256 * m
    ensures LeBytes(n, k + 1) == [b] + LeBytes(m, k)
  {
    assert n % 256 == b && n / 256 == m;
  }

  lemma {:induction false} FourBytes(w: nat, b0: Byte, b1: Byte, b2: Byte, b3: Byte)
    requires w == b0 as nat + 0x100 * b1 as nat + 0x1_0000 * b2 as nat + 0x100_0000 * b3 as nat
    ensures LeBytes(w, 4) == [b0, b1, b2, b3]
  {
    var x, y, z: nat := b1 as nat + 0x100 * b2 as nat + 0x1_0000 * b3 as nat, b2 as nat + 0x100 * b3 as nat, b3;
    LeByte(w, b0, x, 3);
    LeByte(x, b1, y, 2);
    LeByte(y, b2, z, 1);
    LeByte(z, b3, 0, 0);
  }

  /** A word of a block, read and written again. */
  lemma {:induction false} LeWordBack(b: Block, i: nat)
    requires i < 16
    ensures WordBytes(LeWord(b, i)) == [b[4 * i], b[4 * i + 1], b[4 * i + 2], b[4 * i + 3]]
  {
    FourBytes(LeWord(b, i), b[4 * i], b[4 * i + 1], b[4 * i + 2], b[4 * i + 3]);
  }

  /** Section 3.3 of both standards: the registers begin as the bytes 01 23 ... ef fe ... 32 10. */
  lemma {:induction false} InitBytes()
    ensures WordBytes(INIT.a) == [0x01, 0x23, 0x45, 0x67] && WordBytes(INIT.b) == [0x89, 0xab, 0xcd, 0xef]
    ensures WordBytes(INIT.c) == [0xfe, 0xdc, 0xba, 0x98] && WordBytes(INIT.d) == [0x76, 0x54, 0x32, 0x10]
  {
    FourBytes(INIT.a, 0x01, 0x23, 0x45, 0x67);
    FourBytes(INIT.b, 0x89, 0xab, 0xcd, 0xef);
    FourBytes(INIT.c, 0xfe, 0xdc, 0xba, 0x98);
    FourBytes(INIT.d, 0x76, 0x54, 0x32, 0x10);
  }

  function Words(b: Block): (w: seq<Word>)
    ensures |w| == 16
  {
    seq(16, i requires 0 <= i < 16 => LeWord(b, i))
  }
}
