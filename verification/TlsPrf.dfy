/** The TLS pseudo-random function of nasl/nasl_crypto.c, against section 5 of RFC 2246. */
module TlsPrf {
  import opened Common
  import opened Bytes

  /** A keyed hash: key, then data. */
  type Hmac = (seq<Byte>, seq<Byte>) -> seq<Byte>

  ghost predicate HasSize(h: Hmac, size: nat) {
    size > 0 && forall k, d :: |h(k, d)| == size
  }

  // ----- the stream of the standard -----

  /** A(0) = seed, A(i) = HMAC(secret, A(i - 1)) */
  function A(h: Hmac, secret: seq<Byte>, seed: seq<Byte>, i: nat): seq<Byte> {
    if i == 0 then seed else h(secret, A(h, secret, seed, i - 1))
  }

  /** Byte `p` of HMAC(secret, A(1) + seed) + HMAC(secret, A(2) + seed) + ... */
  function Stream(h: Hmac, size: nat, secret: seq<Byte>, seed: seq<Byte>, p: nat): Byte
    requires size > 0
  {
    var block := h(secret, A(h, secret, seed, p / size + 1) + seed);
    if p % size < |block| then block[p % size] else 0
  }

  function Take(h: Hmac, size: nat, secret: seq<Byte>, seed: seq<Byte>, n: nat): (s: seq<Byte>)
    requires size > 0
    ensures |s| == n
  {
    seq(n, (p: nat) => Stream(h, size, secret, seed, p))
  }

  // ----- the code -----

  lemma {:induction false} BlockBytes(size: nat, i: nat, q: nat)
    requires q < size
    ensures (size * i + q) / size == i && (size * i + q) % size == q
  {
    var n := size * i + q;
    assert n == size * (n / size) + n % size;
    if n / size < i { TimesGrows(size, n / size + 1, i); }
    if n / size > i { TimesGrows(size, i + 1, n / size); }
  }

  lemma {:induction false} TimesGrows(c: nat, a: nat, b: nat)
    requires a <= b
    ensures c * a <= c * b
  {
  }

  /** Block `i` of the stream goes to result[size * i ..], as far as there is room. */
  method PutBlock(result: array<Byte>, h: Hmac, size: nat, ghost secret: seq<Byte>, ghost seed: seq<Byte>,
                  ghost i: nat, pos: nat, block: seq<Byte>)
    returns (clen: nat)
    requires HasSize(h, size) && pos == size * i <= result.Length
    requires block == h(secret, A(h, secret, seed, i + 1) + seed)
    requires forall p :: 0 <= p < pos ==> result[p] == Stream(h, size, secret, seed, p)
    modifies result
    ensures clen == if result.Length - pos > size then size else result.Length - pos
    ensures forall p :: 0 <= p < pos + clen ==> result[p] == Stream(h, size, secret, seed, p)
  {
    clen := if result.Length - pos > size then size else result.Length - pos;
    forall q | 0 <= q < clen { result[pos + q] := block[q]; }
    forall p | pos <= p < pos + clen ensures result[p] == Stream(h, size, secret, seed, p) {
      BlockBytes(size, i, p - pos);
      assert p == size * i + (p - pos) && result[p] == block[p - pos];
    }
  }

  /** tls_prf; `works` unless the hash is not to be had. */
  method Prf(h: Hmac, size: nat, works: bool, secret: seq<Byte>, seed: seq<Byte>, name: seq<Byte>, outlen: nat)
    returns (out: Option<seq<Byte>>)
    requires HasSize(h, size)
    ensures out == if works then Some(Take(h, size, secret, name + seed, outlen)) else None
  {
    var lseed := name + seed;
    if !works { return None; }
    var ai := h(secret, lseed);
    var result := new Byte[outlen](_ => 0);
    var pos := 0;
    ghost var i := 0;
    while pos < outlen
      invariant pos <= outlen && (pos == size * i || pos == outlen) && ai == A(h, secret, lseed, i + 1)
      invariant forall p :: 0 <= p < pos ==> result[p] == Stream(h, size, secret, lseed, p)
    {
      var block := h(secret, ai + lseed);
      var clen := PutBlock(result, h, size, secret, lseed, i, pos, block);
      pos := pos + clen;
      ai := h(secret, ai);
      i := i + 1;
    }
    out := Some(result[..]);
    assert result[..] == Take(h, size, secret, lseed, outlen);
  }

  /** Shorter outputs are prefixes of longer ones. */
  lemma {:induction false} ShorterIsPrefix(h: Hmac, size: nat, secret: seq<Byte>, seed: seq<Byte>, m: nat, n: nat)
    requires size > 0 && m <= n
    ensures Take(h, size, secret, seed, m) == Take(h, size, secret, seed, n)[..m]
  {
  }

  // ----- the combination of TLS 1.0 and 1.1 -----

  /** The length of either half of the secret; they share the middle byte if it is odd. */
  function Half(n: nat): nat {
    (n + 1) / 2
  }

  method XorAll(a: seq<Byte>, b: seq<Byte>) returns (r: seq<Byte>)
    requires |a| == |b|
    ensures |r| == |a| && forall p :: 0 <= p < |a| ==> r[p] == Xor(a[p], b[p])
  {
    var result := new Byte[|a|](_ => 0);
    for i := 0 to |a|
      invariant forall p :: 0 <= p < i ==> result[p] == Xor(a[p], b[p])
    {
      result[i] := Xor(a[i], b[i]);
    }
    r := result[..];
  }

  /** tls1_prf: P_MD5 over the first half of the secret, exclusive-or P_SHA1 over the second. */
  method Prf1(md5: Hmac, sha1: Hmac, md5Works: bool, sha1Works: bool, secret: seq<Byte>, seed: seq<Byte>,
              name: seq<Byte>, outlen: nat)
    returns (out: Option<seq<Byte>>)
    requires HasSize(md5, 16) && HasSize(sha1, 20)
    ensures out.Some? <==> md5Works && sha1Works
    ensures out.Some? ==> |out.value| == outlen
    ensures out.Some? ==> forall p :: 0 <= p < outlen ==>
              out.value[p] == Xor(Stream(md5, 16, secret[..Half(|secret|)], name + seed, p),
                                  Stream(sha1, 20, secret[|secret| - Half(|secret|)..], name + seed, p))
  {
    var half, odd := |secret| / 2, 0;
    if |secret| % 2 != 0 {
      half, odd := (|secret| + 1) / 2, 1;
    }
    var a := Prf(md5, 16, md5Works, secret[..half], seed, name, outlen);
    if a.None? { return None; }
    var b := Prf(sha1, 20, sha1Works, secret[half - odd..half - odd + half], seed, name, outlen);
    if b.None? { return None; }
    var result := XorAll(a.value, b.value);
    out := Some(result);
    assert secret[half - odd..half - odd + half] == secret[|secret| - Half(|secret|)..];
  }

  /** The halves cover the secret, and overlap in one byte exactly if its length is odd. */
  lemma {:induction false} HalvesCover(secret: seq<Byte>)
    ensures var h, n := Half(|secret|), |secret|;
            secret == secret[..h] + secret[n - h..][2 * h - n..] && 2 * h - n == n % 2
  {
  }
}
