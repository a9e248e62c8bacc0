/** The ARC4 stream cipher of nasl/arc4.c and the generator loop of nasl/genrand.c that runs on it. */
module Arc4 {
  import opened Bytes
  import Md4
  import MdHash

  function Add(a: Byte, b: Byte): Byte {
    var n: nat := a + b;
    n % 256
  }

  // ----- keystream ciphers in general -----

  function Iterate<S>(next: S -> S, s: S, n: nat): S {
    if n == 0 then s else Iterate(next, next(s), n - 1)
  }

  lemma {:induction false} IterateMore<S>(next: S -> S, s: S, k: nat, n: nat)
    ensures Iterate(next, s, k + n) == Iterate(next, Iterate(next, s, k), n)
  {
    if k > 0 { IterateMore(next, next(s), k - 1, n); }
  }

  /** Exclusive-or data with the keys of the states after `s`. */
  function Mask<S>(next: S -> S, key: S -> Byte, s: S, data: seq<Byte>): (r: seq<Byte>)
    ensures |r| == |data|
  {
    if data == [] then [] else [Xor(data[0], key(next(s)))] + Mask(next, key, next(s), data[1..])
  }

  /** Masking twice from the same state is the identity. */
  lemma {:induction false} MaskTwice<S>(next: S -> S, key: S -> Byte, s: S, data: seq<Byte>)
    ensures Mask(next, key, s, Mask(next, key, s, data)) == data
  {
    if data != [] {
      MaskTwice(next, key, next(s), data[1..]);
      XorTwice(data[0], key(next(s)));
      assert Mask(next, key, s, data)[1..] == Mask(next, key, next(s), data[1..]);
    }
  }

  lemma {:induction false} Associates(x: seq<Byte>, y: seq<Byte>, z: seq<Byte>)
    ensures x + (y + z) == (x + y) + z
  {
  }

  /** Masking a + b is masking a, and then b from where that ended. */
  lemma {:induction false} MaskSplits<S>(next: S -> S, key: S -> Byte, s: S, a: seq<Byte>, b: seq<Byte>)
    ensures Mask(next, key, s, a + b) == Mask(next, key, s, a) + Mask(next, key, Iterate(next, s, |a|), b)
  {
    if a == [] {
      assert a + b == b;
    } else {
      MaskSplits(next, key, next(s), a[1..], b);
      assert (a + b)[1..] == a[1..] + b;
      Associates([Xor(a[0], key(next(s)))], Mask(next, key, next(s), a[1..]),
        Mask(next, key, Iterate(next, s, |a|), b));
    }
  }

  /** The first `done` bytes of `all` are masked in `data`, and the state is now `now`. */
  ghost predicate Halfway<S(!new)>(next: S -> S, key: S -> Byte, s: S, all: seq<Byte>, now: S, data: seq<Byte>,
                                   done: nat) {
    && done <= |all| == |data| && data[done..] == all[done..]
    && Mask(next, key, s, all) == data[..done] + Mask(next, key, now, all[done..])
    && Iterate(next, s, |all|) == Iterate(next, now, |all| - done)
  }

  lemma {:induction false} OneMore<S(!new)>(next: S -> S, key: S -> Byte, s: S, all: seq<Byte>, now: S,
                                            data: seq<Byte>, done: nat)
    requires Halfway(next, key, s, all, now, data, done) && done < |all|
    ensures Halfway(next, key, s, all, next(now), data[done := Xor(data[done], key(next(now)))], done + 1)
  {
    var data' := data[done := Xor(data[done], key(next(now)))];
    assert all[done..][1..] == all[done + 1..];
    assert data[done] == all[done] by { assert data[done..][0] == all[done..][0]; }
    assert data'[..done + 1] == data[..done] + [data'[done]];
    assert data'[done + 1..] == data[done..][1..];
  }

  // ----- ARC4 on values -----

  type Table = t: seq<Byte> | |t| == 256 witness seq(256, _ => 0)

  /** 0, 1, 2, ... */
  function Identity(): (t: Table)
    ensures forall i :: 0 <= i < 256 ==> t[i] == i
  {
    seq(256, (i: nat) => if i < 256 then i else 0)
  }

  /** Every byte occurs exactly once. */
  ghost predicate Permutation(t: Table) {
    multiset(t) == multiset(Identity())
  }

  function Swap(t: Table, i: Byte, j: Byte): (t': Table)
    ensures multiset(t') == multiset(t)
  {
    t[i := t[j]][j := t[i]]
  }

  datatype State = State(t: Table, i: Byte, j: Byte)

  function Next(s: State): State {
    var i := Add(s.i, 1);
    var j := Add(s.j, s.t[i]);
    State(Swap(s.t, i, j), i, j)
  }

  /** The key byte a state has just made. */
  function Key(s: State): Byte {
    s.t[Add(s.t[s.i], s.t[s.j])]
  }

  lemma {:induction false} SwapAt(t: Table, i: Byte, j: Byte)
    ensures var u := Swap(t, i, j);
            && u[i] == t[j] && u[j] == t[i]
            && forall k :: 0 <= k < 256 && k != i && k != j ==> u[k] == t[k]
  {
  }

  /**
   A step on numbers: the first index moves by one, the second by the entry found there, the two entries
   change places, and the key byte is the one their sum points to.
   */
  lemma {:induction false} NextIs(s: State, i: nat, j: nat, sum: nat)
    requires i == (s.i as nat + 1) % 256 && j == (s.j as nat + s.t[i] as nat) % 256
    requires sum == (s.t[i] as nat + s.t[j] as nat) % 256
    ensures Next(s) == State(Swap(s.t, i, j), i, j) && Key(Next(s)) == Next(s).t[sum]
  {
    SwapAt(s.t, i, j);
  }

  /** `next` and `key` are those of ARC4, at every state. */
  ghost predicate IsArc4(next: State -> State, key: State -> Byte) {
    && (forall s {:trigger Next(s)} :: next(s) == Next(s))
    && (forall s {:trigger Key(s)} :: key(s) == Key(s))
  }

  lemma {:induction false} NextIsPermutation(s: State)
    requires Permutation(s.t)
    ensures Permutation(Next(s).t)
  {
  }

  lemma {:induction false} StaysPermutation(next: State -> State, key: State -> Byte, s: State, n: nat)
    requires IsArc4(next, key) && Permutation(s.t)
    ensures Permutation(Iterate(next, s, n).t)
    decreases n
  {
    if n > 0 {
      NextIsPermutation(s);
      StaysPermutation(next, key, next(s), n - 1);
    }
  }

  /** One step of the key setup, with byte `k` of the key. */
  function SetupStep(t: Table, j: Byte, n: Byte, k: Byte): (r: (Table, Byte))
    ensures multiset(r.0) == multiset(t)
  {
    var j' := Add(j, Add(t[n], k));
    (Swap(t, n, j'), j')
  }

  lemma {:induction false} SetupStepIs(t: Table, j: Byte, n: Byte, k: Byte)
    ensures var sum: nat := j as nat + t[n] as nat + k as nat;
            SetupStep(t, j, n, k) == (Swap(t, n, sum % 256), sum % 256)
  {
    AddThree(j, t[n], k);
  }

  lemma {:induction false} AddThree(a: Byte, b: Byte, c: Byte)
    ensures var sum: nat := a as nat + b as nat + c as nat; Add(a, Add(b, c)) == sum % 256
  {
  }

  /** The table after `n` steps of the key setup, and its index. */
  function Scheduled(key: seq<Byte>, n: nat): (r: (Table, Byte))
    requires key != [] && n <= 256
    ensures Permutation(r.0)
  {
    if n == 0 then (Identity(), 0)
    else
      var (t, j) := Scheduled(key, n - 1);
      SetupStep(t, j, n - 1, key[(n - 1) % |key|])
  }

  /** The state the key setup leaves. */
  function Setup(key: seq<Byte>): (s: State)
    requires key != []
    ensures Permutation(s.t)
  {
    State(Scheduled(key, |Identity()|).0, 0, 0)
  }

  // ----- ARC4 in place -----

  method Exchange(state: array<Byte>, i: Byte, j: Byte)
    requires state.Length == 258
    modifies state
    ensures state[..256] == Swap(old(state[..256]), i, j) && state[256..] == old(state[256..])
  {
    var tc := state[i];
    state[i] := state[j];
    state[j] := tc;
  }

  class Cipher {
    const state: array<Byte>   // the table, and the two indices
    ghost const next: State -> State
    ghost const key: State -> Byte

    ghost predicate Valid()
      reads state
    {
      state.Length == 258 && Permutation(state[..256]) && IsArc4(next, key)
    }

    ghost function Value(): State
      reads state
      requires state.Length == 258
    {
      State(state[..256], state[256], state[257])
    }

    /** smb_arc4_init_ntlmssp */
    constructor (key: seq<Byte>)
      requires key != []
      ensures Valid() && fresh(state) && Value() == Setup(key)
    {
      state := new Byte[258](_ => 0);
      next, this.key := Next, Key;
      new;
      Count();
      Schedule(key);
      state[256], state[257] := 0, 0;
    }

    method Count()
      requires state.Length == 258
      modifies state
      ensures state[..256] == Identity()
    {
      for ind := 0 to 256
        invariant forall k :: 0 <= k < ind ==> state[k] == k
      {
        state[ind] := ind;
      }
    }

    method Schedule(key: seq<Byte>)
      requires state.Length == 258 && key != [] && state[..256] == Identity()
      modifies state
      ensures state[..256] == Setup(key).t
    {
      var j: Byte := 0;
      for ind := 0 to 256
        invariant (state[..256], j) == Scheduled(key, ind)
      {
        j := Add(j, Add(state[ind], key[ind % |key|]));
        Exchange(state, ind, j);
      }
    }

    /** One step of smb_arc4_crypt_ntlmssp. */
    method Step(i0: Byte, j0: Byte, ghost s: State) returns (i: Byte, j: Byte, k: Byte)
      requires state.Length == 258 && s == State(state[..256], i0, j0) && IsArc4(next, key)
      modifies state
      ensures State(state[..256], i, j) == next(s) && k == key(next(s))
    {
      i := Add(i0, 1);
      j := Add(j0, state[i]);
      Exchange(state, i, j);
      k := state[Add(state[i], state[j])];
      assert State(state[..256], i, j) == Next(s) && k == Key(Next(s));
    }

    /** smb_arc4_crypt_ntlmssp */
    method CryptInPlace(data: array<Byte>)
      requires Valid() && data != state
      modifies state, data
      ensures Valid() && data[..] == Mask(next, key, old(Value()), old(data[..]))
      ensures Value() == Iterate(next, old(Value()), data.Length)
    {
      ghost var s, all := Value(), data[..];
      var i, j := state[256], state[257];
      ghost var now := s;
      for ind := 0 to data.Length
        invariant now == State(state[..256], i, j) && Halfway(next, key, s, all, now, data[..], ind)
      {
        OneMore(next, key, s, all, now, data[..], ind);
        var k;
        i, j, k := Step(i, j, now);
        data[ind] := Xor(data[ind], k);
        now := next(now);
      }
      state[256], state[257] := i, j;
      StaysPermutation(next, key, s, data.Length);
    }

    /** The output loop of generate_random_buffer_ntlmssp. */
    method Generate(ghost hash: seq<Byte> -> seq<Byte>, len: nat) returns (out: seq<Byte>)
      requires Valid() && IsMd4(hash)
      modifies state
      ensures Valid() && out == Generated(Skip(next), PieceOf(next, key, hash), old(Value()), len)
      ensures Value() == Iterate(Skip(next), old(Value()), Pieces(len))
    {
      out := [];
      ghost var s, now, skip, piece := Value(), Value(), Skip(next), PieceOf(next, key, hash);
      var left := len;
      while left > 0
        invariant Valid() && now == Value()
        invariant Underway(skip, piece, s, len, out, now, left)
      {
        PieceMore(skip, piece, s, len, out, now, left);
        var bytes := NextPiece(hash);
        var n := if left > 16 then 16 else left;
        out := out + Start(bytes, n);
        left := left - n;
        now := skip(now);
      }
    }

    /** Two calls, the first for whole pieces, give the bytes of one, and leave the same state. */
    method GenerateTwice(ghost hash: seq<Byte> -> seq<Byte>, k: nat, m: nat) returns (a: seq<Byte>, b: seq<Byte>)
      requires Valid() && IsMd4(hash)
      modifies state
      ensures Valid() && a + b == Generated(Skip(next), PieceOf(next, key, hash), old(Value()), 16 * k + m)
      ensures Value() == Iterate(Skip(next), old(Value()), Pieces(16 * k + m))
    {
      ghost var s := Value();
      a := Generate(hash, 16 * k);
      ghost var t := Value();
      b := Generate(hash, m);
      TwoCalls(Skip(next), PieceOf(next, key, hash), s, t, Value(), a, b, k, m);
    }

    /** Hash the next 64 bytes of keystream. */
    method NextPiece(ghost hash: seq<Byte> -> seq<Byte>) returns (piece: seq<Byte>)
      requires Valid() && IsMd4(hash)
      modifies state
      ensures Valid() && piece == PieceOf(next, key, hash)(old(Value())) && Value() == Skip(next)(old(Value()))
    {
      var buf := new Byte[64](_ => 0);
      assert buf[..] == Blank();
      CryptInPlace(buf);
      piece := Md4As(hash, buf[..]);
    }
  }

  function Blank(): (s: seq<Byte>)
    ensures |s| == 64
  {
    seq(64, _ => 0)
  }

  function Skip(next: State -> State): State -> State {
    s => Iterate(next, s, |Blank()|)
  }

  function PieceOf(next: State -> State, key: State -> Byte, hash: seq<Byte> -> seq<Byte>): State -> seq<Byte> {
    s => hash(Mask(next, key, s, Blank()))
  }

  ghost predicate IsMd4(hash: seq<Byte> -> seq<Byte>) {
    forall d {:trigger MdHash.Hash(Md4.Compress, d)} :: hash(d) == MdHash.Hash(Md4.Compress, d)
  }

  method Md4As(ghost hash: seq<Byte> -> seq<Byte>, data: seq<Byte>) returns (digest: seq<Byte>)
    requires IsMd4(hash) && |data| < 0x1000_0000
    ensures digest == hash(data)
  {
    digest := Md4.DigestOf(data);
  }

  // ----- the generator -----

  /** Pieces of up to 16 bytes: `piece` gives the hash of a chunk of keystream and `step` moves past it. */
  function Generated<S>(step: S -> S, piece: S -> seq<Byte>, s: S, len: nat): seq<Byte>
    decreases len
  {
    if len == 0 then []
    else
      var n := if len > 16 then 16 else len;
      Start(piece(s), n) + Generated(step, piece, step(s), len - n)
  }

  function Start(s: seq<Byte>, n: nat): seq<Byte> {
    if n <= |s| then s[..n] else s
  }

  /** How many pieces `len` bytes take. */
  function Pieces(len: nat): (n: nat)
    ensures n == (len + 15) / 16
    decreases len
  {
    if len == 0 then 0 else 1 + Pieces(if len > 16 then len - 16 else 0)
  }

  lemma {:induction false} PiecesSplit(k: nat, m: nat)
    ensures Pieces(16 * k + m) == k + Pieces(m)
  {
  }

  /** Asking for 16k + m bytes is asking for 16k, and then for m. */
  lemma {:induction false} GeneratorSplits<S>(step: S -> S, piece: S -> seq<Byte>, s: S, k: nat, m: nat)
    ensures Generated(step, piece, s, 16 * k + m) ==
            Generated(step, piece, s, 16 * k) + Generated(step, piece, Iterate(step, s, k), m)
    decreases k
  {
    if k > 0 {
      GeneratorSplits(step, piece, step(s), k - 1, m);
      assert 16 * k == 16 + 16 * (k - 1);
      var first, rest := Start(piece(s), 16), Generated(step, piece, step(s), 16 * (k - 1));
      assert Generated(step, piece, s, 16 * k) == first + rest;
      if 16 * k + m == 16 { assert Generated(step, piece, step(s), m) == []; }
    }
  }

  /** `out` has been produced from `s`, and `left` of the `len` bytes are still to come from `now`. */
  ghost predicate Underway<S(!new)>(step: S -> S, piece: S -> seq<Byte>, s: S, len: nat, out: seq<Byte>, now: S,
                                    left: nat) {
    && Generated(step, piece, s, len) == out + Generated(step, piece, now, left)
    && Iterate(step, s, Pieces(len)) == Iterate(step, now, Pieces(left))
  }

  lemma {:induction false} PieceMore<S(!new)>(step: S -> S, piece: S -> seq<Byte>, s: S, len: nat, out: seq<Byte>,
                                              now: S, left: nat)
    requires left > 0 && Underway(step, piece, s, len, out, now, left)
    ensures var n := if left > 16 then 16 else left;
            Underway(step, piece, s, len, out + Start(piece(now), n), step(now), left - n)
  {
    var n := if left > 16 then 16 else left;
    Associates(out, Start(piece(now), n), Generated(step, piece, step(now), left - n));
  }

  lemma {:induction false} TwoCalls<S>(step: S -> S, piece: S -> seq<Byte>, s: S, t: S, u: S, a: seq<Byte>,
                                       b: seq<Byte>, k: nat, m: nat)
    requires a == Generated(step, piece, s, 16 * k) && t == Iterate(step, s, Pieces(16 * k))
    requires b == Generated(step, piece, t, m) && u == Iterate(step, t, Pieces(m))
    ensures a + b == Generated(step, piece, s, 16 * k + m) && u == Iterate(step, s, Pieces(16 * k + m))
  {
    PiecesSplit(k, 0);
    PiecesSplit(k, m);
    IterateMore(step, s, k, Pieces(m));
    GeneratorSplits(step, piece, s, k, m);
  }
}
