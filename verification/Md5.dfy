/**
 The streaming MD5 of nasl/md5.c: for every way of cutting a message into chunks, MD5Init, MD5Update and
 MD5Final compute the digest of the whole padded message.
 */
module Md5 {
  import opened Bytes
  import opened MdHash
  import opened Md5Core

  const M64 := M32 * M32

  // ----- the bit count -----

  lemma {:induction false} TwoWords(t: Word, high: nat, n: nat, len: nat, q: nat)
    requires t + M32 * high == 8 * n - M64 * q + 8 * len
    ensures t + M32 * (high % M32) == 8 * (n + len) % M64
  {
    var r, k := t + M32 * (high % M32), high / M32;
    assert 8 * (n + len) == r + M64 * (k + q);
    assert 0 <= r < M64;
  }

  /** The two words hold 8 times the length modulo 2^64, also when the low one carries. */
  lemma {:induction false} BitCount(b0: Word, b1: Word, n: nat, len: nat)
    requires b0 + M32 * b1 == 8 * n % M64 && len < M32
    ensures var t := (b0 + 8 * len % M32) % M32;
            t + M32 * ((b1 + (if t < b0 then 1 else 0) + len / 0x2000_0000) % M32) == 8 * (n + len) % M64
  {
    var low, hi := 8 * len % M32, len / 0x2000_0000;
    var t := (b0 + low) % M32;
    var carry := if t < b0 then 1 else 0;
    assert 8 * len == M32 * hi + low;
    var high := b1 + carry + hi;
    assert b0 + M32 * b1 + 8 * len == t + M32 * high by {
      assert b0 + low == t + M32 * carry;
    }
    TwoWords(t, high, n, len, 8 * n / M64);
  }

  /** The number of buffered bytes can be read off the low word. */
  lemma {:induction false} BufferedBytes(b0: Word, b1: Word, blocks: nat, k: nat)
    requires b0 + M32 * b1 == 8 * (64 * blocks + k) % M64 && k < 64
    ensures b0 / 8 % 64 == k
  {
    var n := 64 * blocks + k;
    var q := b1 + M32 * (8 * n / M64);
    assert 8 * n == b0 + M32 * q;
  }

  lemma {:induction false} CarryThenHigh(b1: Word, carry: nat, h: nat)
    ensures ((b1 + carry) % M32 + h) % M32 == (b1 + carry + h) % M32
  {
  }

  lemma {:induction false} LengthField(b0: Word, b1: Word, n: nat)
    requires b0 + M32 * b1 == n
    ensures LeBytes(n, 8) == LeBytes(b0, 4) + LeBytes(b1, 4)
  {
    assert Pow256(4) == M32;
    LeSplit(b0, b1, 4, 4);
  }

  /** What is left to pad, as MD5Final reads it off the bit count. */
  lemma {:induction false} ToFinish(b0: Word, b1: Word, whole: seq<Byte>, blocks: nat, tail: seq<Byte>)
    requires |whole| == 64 * blocks && |tail| < 64 && b0 + M32 * b1 == 8 * (64 * blocks + |tail|) % M64
    ensures b0 / 8 % 64 == |tail|
    ensures PaddedFrom(Padded(whole + tail), whole, tail, LeBytes(b0, 4) + LeBytes(b1, 4))
  {
    LengthField(b0, b1, 8 * (64 * blocks + |tail|) % M64);
    PaddedBlocks(whole, blocks, tail);
    BufferedBytes(b0, b1, blocks, |tail|);
  }

  method TransformAs(ghost f: (Regs, Block) -> Regs, p: Regs, b: Block) returns (q: Regs)
    requires SameCompression(f, Compress)
    ensures q == f(p, b)
  {
    q := Transform(p, b);
  }

  lemma {:induction false} Regrouped(x: seq<Byte>, y: seq<Byte>, z: seq<Byte>)
    ensures x + (y + z) == (x + y) + z && z[..|z|] == z
  {
  }

  // ----- the context -----

  class Context {
    var buf: Regs
    var bits0: Word
    var bits1: Word
    const inb: array<Byte>
    ghost const f: (Regs, Block) -> Regs      // agrees with Compress everywhere
    ghost var whole: seq<Byte>                // the bytes folded into buf
    ghost var blocks: nat
    ghost var tail: seq<Byte>                 // the bytes waiting in inb

    ghost function Message(): seq<Byte>
      reads this
    {
      whole + tail
    }

    ghost predicate Counted(n: nat)
      reads this
    {
      bits0 + M32 * bits1 == 8 * n % M64
    }

    ghost predicate Shape() {
      inb.Length == 64 && SameCompression(f, Compress)
    }

    ghost predicate Folded()
      reads this, inb
    {
      Shape() && |whole| == 64 * blocks && buf == Fold(f, whole) && |tail| < 64 && inb[..|tail|] == tail
    }

    ghost predicate Valid()
      reads this, inb
    {
      Folded() && Counted(64 * blocks + |tail|)
    }

    /** MD5Init */
    constructor ()
      ensures Valid() && fresh(inb) && Message() == []
    {
      buf, bits0, bits1, f := INIT, 0, 0, Compress;
      whole, blocks, tail := [], 0, [];
      inb := new Byte[64](_ => 0);
    }

    /** Compress the full buffer, which completes the block `b`. */
    method TransformIn(ghost b: Block)
      requires Shape() && inb[..] == b && |whole| == 64 * blocks && buf == Fold(f, whole)
      modifies `buf, `whole, `blocks, `tail
      ensures Folded() && whole == old(whole) + b && tail == []
    {
      FoldMore(f, whole, b);
      buf := TransformAs(f, buf, inb[..]);
      whole, blocks, tail := whole + b, blocks + 1, [];
    }

    /** memmove of data[from .. from + n] into the buffer at `at`. */
    method Copy(at: nat, data: seq<Byte>, from: nat, n: nat)
      requires inb.Length == 64 && at + n <= 64 && from + n <= |data|
      modifies inb
      ensures inb[..at + n] == old(inb[..at]) + data[from..from + n]
    {
      forall i | 0 <= i < n { inb[at + i] := data[from + i]; }
    }

    /** The leading part of MD5Update: fill the buffer up, and compress it if it is full. */
    method FillUp(data: seq<Byte>, t: nat) returns (pos: nat)
      requires Folded() && t == |tail| > 0
      modifies `buf, `whole, `blocks, `tail, inb
      ensures Folded() && pos <= |data| && Message() == old(Message()) + data[..pos]
      ensures if |data| < 64 - t then pos == |data| else tail == []
    {
      if |data| < 64 - t {
        Copy(t, data, 0, |data|);
        Regrouped(whole, tail, data);
        tail := tail + data;
        return |data|;
      }
      pos := 64 - t;
      Copy(t, data, 0, pos);
      Regrouped(whole, tail, data[..pos]);
      TransformIn(tail + data[..pos]);
    }

    /** The 64-byte chunks, and the rest into the buffer. */
    method Chunks(data: seq<Byte>, start: nat)
      requires Folded() && start <= |data| && tail == []
      modifies `buf, `whole, `blocks, `tail, inb
      ensures Folded() && Message() == old(whole) + data[start..]
    {
      var pos := start;
      while |data| - pos >= 64
        invariant start <= pos <= |data| && Folded() && tail == [] && whole == old(whole) + data[start..pos]
      {
        Copy(0, data, pos, 64);
        TransformIn(data[pos..pos + 64]);
        pos := pos + 64;
      }
      Copy(0, data, pos, |data| - pos);
      tail := data[pos..];
    }

    /** MD5Update */
    method Update(data: seq<Byte>)
      requires Valid() && |data| < M32
      modifies this, inb
      ensures Valid() && Message() == old(Message()) + data
    {
      BufferedBytes(bits0, bits1, blocks, |tail|);
      var t := bits0 / 8 % 64;
      CountBits(64 * blocks + |tail|, |data|);
      Absorb(data, t);
    }

    method Absorb(data: seq<Byte>, t: nat)
      requires Folded() && t == |tail|
      modifies `buf, `whole, `blocks, `tail, inb
      ensures Folded() && Message() == old(Message()) + data
    {
      var pos := 0;
      if t != 0 {
        pos := FillUp(data, t);
        if |data| < 64 - t { return; }
      }
      assert whole + tail == whole && data[..pos] + data[pos..] == data;
      Chunks(data, pos);
    }

    method CountBits(ghost n: nat, len: nat)
      requires Counted(n) && len < M32
      modifies `bits0, `bits1
      ensures Counted(n + len)
    {
      BitCount(bits0, bits1, n, len);
      CarryThenHigh(bits1, 1, len / 0x2000_0000);
      var t: nat := bits0;
      bits0 := (t + 8 * len % M32) % M32;
      if bits0 < t { bits1 := (bits1 as nat + 1) % M32; }
      bits1 := (bits1 as nat + len / 0x2000_0000) % M32;
    }

    /** memset of inb[from .. to] to zero. */
    method Wipe(from: nat, to: nat)
      requires inb.Length == 64 && from <= to <= 64
      modifies inb
      ensures inb[..to] == old(inb[..from]) + Zeros(to - from)
    {
      forall i | from <= i < to { inb[i] := 0; }
    }

    method AppendLength()
      requires inb.Length == 64
      modifies inb
      ensures inb[..] == old(inb[..56]) + (LeBytes(bits0, 4) + LeBytes(bits1, 4))
    {
      var b := LeBytes(bits0, 4) + LeBytes(bits1, 4);
      forall i | 0 <= i < 8 { inb[56 + i] := b[i]; }
    }

    /** Pad the buffer up to its last 8 bytes, compressing it if they are not free. */
    method Pad(count: nat, ghost padded: seq<Byte>, ghost length: seq<Byte>)
      requires Folded() && count == |tail| && PaddedFrom(padded, whole, tail, length)
      modifies `buf, `whole, `blocks, `tail, inb
      ensures Shape() && |whole| == 64 * blocks && buf == Fold(f, whole)
      ensures whole + (inb[..56] + length) == padded
    {
      if 63 - count < 8 { PadTwice(count); } else { PadTo(count, 56); }
    }

    method PadTo(count: nat, to: nat)
      requires inb.Length == 64 && count < to <= 64 && inb[..count] == tail
      modifies inb
      ensures inb[..to] == tail + [0x80] + Zeros(to - 1 - count)
    {
      inb[count] := 0x80;
      Wipe(count + 1, to);
    }

    method PadTwice(count: nat)
      requires Folded() && count == |tail|
      modifies `buf, `whole, `blocks, `tail, inb
      ensures Folded() && inb[..56] == Zeros(56)
      ensures whole == old(whole) + (old(tail) + [0x80] + Zeros(63 - count))
    {
      PadTo(count, 64);
      assert inb[..] == inb[..64];
      TransformIn(tail + [0x80] + Zeros(63 - count));
      Wipe(0, 56);
      assert [] + Zeros(56) == Zeros(56);
    }

    /** Append the length and compress the last block. */
    method LastBlock(ghost padded: seq<Byte>)
      requires Shape() && |whole| == 64 * blocks && buf == Fold(f, whole)
      requires whole + (inb[..56] + (LeBytes(bits0, 4) + LeBytes(bits1, 4))) == padded
      modifies `buf, `whole, `blocks, `tail, inb
      ensures buf == Fold(f, padded)
    {
      AppendLength();
      TransformIn(inb[..]);
    }

    method Finish(count: nat, ghost padded: seq<Byte>)
      requires Folded() && count == |tail|
      requires PaddedFrom(padded, whole, tail, LeBytes(bits0, 4) + LeBytes(bits1, 4))
      modifies `buf, `whole, `blocks, `tail, inb
      ensures buf == Fold(f, padded)
    {
      Pad(count, padded, LeBytes(bits0, 4) + LeBytes(bits1, 4));
      LastBlock(padded);
    }

    /** MD5Final */
    method Final() returns (digest: seq<Byte>)
      requires Valid()
      modifies this, inb
      ensures digest == Hash(f, old(Message()))
    {
      ToFinish(bits0, bits1, whole, blocks, tail);
      Finish(bits0 / 8 % 64, Padded(Message()));
      digest := Digest(buf);
      // memset of the context
      buf, bits0, bits1 := Regs(0, 0, 0, 0), 0, 0;
      Wipe(0, 64);
    }
  }

  function Concat(chunks: seq<seq<Byte>>): seq<Byte> {
    if chunks == [] then [] else Concat(chunks[..|chunks| - 1]) + chunks[|chunks| - 1]
  }

  /** However a message is cut up, its digest is the same. */
  method DigestOf(chunks: seq<seq<Byte>>) returns (digest: seq<Byte>)
    requires forall c :: c in chunks ==> |c| < M32
    ensures digest == Hash(Compress, Concat(chunks))
  {
    var ctx := new Context();
    for i := 0 to |chunks|
      invariant ctx.Valid() && fresh(ctx) && fresh(ctx.inb) && ctx.Message() == Concat(chunks[..i])
    {
      assert chunks[..i + 1][..i] == chunks[..i];
      ctx.Update(chunks[i]);
    }
    assert chunks[..|chunks|] == chunks;
    digest := ctx.Final();
    HashAgrees(ctx.f, Compress, Concat(chunks));
  }
}
