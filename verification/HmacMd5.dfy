/** HMAC-MD5 as nasl/hmacmd5.c computes it, against section 2 of RFC 2104. */
module HmacMd5 {
  import opened Bytes
  import opened MdHash
  import opened Md5
  import Md5Core

  function XorAll(s: seq<Byte>, b: Byte): (r: seq<Byte>)
    ensures |r| == |s|
  {
    seq(|s|, i requires 0 <= i < |s| => Xor(s[i], b))
  }

  /** The key cut to 64 bytes, and filled up with zeros. */
  function KeyBlock(key: seq<Byte>): (k: seq<Byte>)
    ensures |k| == 64
  {
    if |key| > 64 then key[..64] else key + Zeros(64 - |key|)
  }

  /** H(K xor opad, H(K xor ipad, text)) */
  function Mac(f: (Regs, Block) -> Regs, k: seq<Byte>, text: seq<Byte>): seq<Byte> {
    Hash(f, XorAll(k, 0x5c) + Hash(f, XorAll(k, 0x36) + text))
  }

  /** RFC 2104 hashes a key that is longer than a block. */
  function Rfc2104(f: (Regs, Block) -> Regs, key: seq<Byte>, text: seq<Byte>): seq<Byte> {
    Mac(f, KeyBlock(if |key| > 64 then Hash(f, key) else key), text)
  }

  /** The key in a block of zeros. */
  method KeyPad(key: seq<Byte>) returns (pad: array<Byte>)
    ensures fresh(pad) && pad[..] == KeyBlock(key)
  {
    var n := if |key| > 64 then 64 else |key|;
    pad := new Byte[64](_ => 0);
    forall i | 0 <= i < n { pad[i] := key[i]; }
  }

  /** An empty key, of which nothing but the pads is left. */
  lemma {:induction false} EmptyKeyPads(i: nat)
    requires i < 64
    ensures XorAll(KeyBlock([]), 0x36)[i] == 0x36 && XorAll(KeyBlock([]), 0x5c)[i] == 0x5c
  {
    XorLaws(0x36, 0);
    XorLaws(0x5c, 0);
  }

  /** The key in both pads, each byte of them then exclusive-ored. */
  method Pads(key: seq<Byte>) returns (ip: array<Byte>, op: array<Byte>)
    ensures fresh(ip) && fresh(op)
    ensures ip[..] == XorAll(KeyBlock(key), 0x36) && op[..] == XorAll(KeyBlock(key), 0x5c)
  {
    ip := KeyPad(key);
    op := KeyPad(key);
    ghost var k := KeyBlock(key);
    for i := 0 to 64
      invariant forall j :: 0 <= j < i ==> ip[j] == Xor(k[j], 0x36) && op[j] == Xor(k[j], 0x5c)
      invariant forall j :: i <= j < 64 ==> ip[j] == k[j] && op[j] == k[j]
    {
      ip[i], op[i] := Xor(ip[i], 0x36), Xor(op[i], 0x5c);
    }
  }

  lemma {:induction false} NothingBefore(a: seq<Byte>, b: seq<Byte>)
    ensures [] + a + b == a + b
  {
  }

  lemma {:induction false} SameHash(f: (Regs, Block) -> Regs, g: (Regs, Block) -> Regs, msg: seq<Byte>)
    requires SameCompression(f, Md5Core.Compress) && SameCompression(g, Md5Core.Compress)
    ensures Hash(f, msg) == Hash(g, msg)
  {
    SameAsSame(f, g, Md5Core.Compress);
    HashAgrees(f, g, msg);
  }

  /** A hash of two pieces, in a context of its own. */
  method HashPair(ghost f: (Regs, Block) -> Regs, a: seq<Byte>, b: seq<Byte>) returns (digest: seq<Byte>)
    requires SameCompression(f, Md5Core.Compress) && |a| < M32 && |b| < M32
    ensures digest == Hash(f, a + b)
  {
    var o := new Context();
    o.Update(a);
    o.Update(b);
    NothingBefore(a, b);
    SameHash(o.f, f, a + b);
    digest := o.Final();
  }

  class HmacContext {
    const ipad: array<Byte>
    const opad: array<Byte>
    const ctx: Context
    ghost const key: seq<Byte>

    ghost predicate Valid()
      reads this, ctx, ctx.inb, opad
    {
      && opad != ctx.inb && ctx.Valid() && XorAll(KeyBlock(key), 0x36) <= ctx.Message()
      && opad[..] == XorAll(KeyBlock(key), 0x5c)
    }

    /** The text so far. */
    ghost function Text(): seq<Byte>
      reads this, ctx, ctx.inb, opad
      requires Valid()
    {
      ctx.Message()[64..]
    }

    /** hmac_md5_init_limK_to_64 */
    constructor (key: seq<Byte>)
      ensures Valid() && this.key == key && Text() == [] && fresh(ctx) && fresh(ctx.inb) && fresh(opad)
    {
      var ip, op := Pads(key);
      var c := new Context();
      c.Update(ip[..]);
      this.key, ipad, opad, ctx := key, ip, op, c;
    }

    /** hmac_md5_update */
    method Update(text: seq<Byte>)
      requires Valid() && |text| < M32
      modifies ctx, ctx.inb
      ensures Valid() && Text() == old(Text()) + text
    {
      ctx.Update(text);
    }

    /** hmac_md5_final */
    method Final() returns (digest: seq<Byte>)
      requires Valid()
      modifies ctx, ctx.inb
      ensures digest == Mac(ctx.f, KeyBlock(key), old(Text()))
    {
      assert ctx.Message() == XorAll(KeyBlock(key), 0x36) + Text();
      digest := ctx.Final();
      digest := HashPair(ctx.f, opad[..], digest);
    }
  }

  lemma {:induction false} MacAgrees(f: (Regs, Block) -> Regs, g: (Regs, Block) -> Regs, k: seq<Byte>, text: seq<Byte>)
    requires SameCompression(f, g)
    ensures Mac(f, k, text) == Mac(g, k, text)
  {
    HashAgrees(f, g, XorAll(k, 0x36) + text);
    HashAgrees(f, g, XorAll(k, 0x5c) + Hash(f, XorAll(k, 0x36) + text));
  }

  method UpdateAll(c: HmacContext, texts: seq<seq<Byte>>)
    requires c.Valid() && c.Text() == [] && forall t :: t in texts ==> |t| < M32
    modifies c.ctx, c.ctx.inb
    ensures c.Valid() && c.Text() == Concat(texts)
  {
    for i := 0 to |texts|
      invariant c.Valid() && c.Text() == Concat(texts[..i])
    {
      assert texts[..i + 1][..i] == texts[..i];
      c.Update(texts[i]);
    }
    assert texts[..|texts|] == texts;
  }

  lemma {:induction false} CutKey(f: (Regs, Block) -> Regs, key: seq<Byte>, text: seq<Byte>)
    ensures Mac(f, KeyBlock(key), text) == Rfc2104(f, if |key| > 64 then key[..64] else key, text)
  {
    if |key| > 64 { assert KeyBlock(key[..64]) == key[..64]; }
  }

  /** Any sequence of updates: the standard's HMAC if the key fits in a block, and of its first 64 bytes if not. */
  method MacOf(key: seq<Byte>, texts: seq<seq<Byte>>) returns (digest: seq<Byte>)
    requires forall t :: t in texts ==> |t| < M32
    ensures digest == Rfc2104(Md5Core.Compress, if |key| > 64 then key[..64] else key, Concat(texts))
  {
    var c := new HmacContext(key);
    MacAgrees(c.ctx.f, Md5Core.Compress, KeyBlock(key), Concat(texts));
    CutKey(Md5Core.Compress, key, Concat(texts));
    UpdateAll(c, texts);
    digest := c.Final();
  }
}
