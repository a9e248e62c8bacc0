/**
 Route selection in misc/pcap.c: the best match over any route table is the longest matching prefix, and
 of those the one with the least metric.
 */
module Routes {

  type Octet = bv8

  /** Bit `q` of an octet, counted from the top. */
  predicate Bit(b: Octet, q: nat) {
    if q == 0 then b & 0x80 != 0 else if q == 1 then b & 0x40 != 0
    else if q == 2 then b & 0x20 != 0 else if q == 3 then b & 0x10 != 0
    else if q == 4 then b & 0x08 != 0 else if q == 5 then b & 0x04 != 0
    else if q == 6 then b & 0x02 != 0 else b & 0x01 != 0
  }

  /** The octet with the first `k` bits set. */
  function Ones(k: nat): Octet {
    if k == 0 then 0x00 else if k == 1 then 0x80 else if k == 2 then 0xc0 else if k == 3 then 0xe0
    else if k == 4 then 0xf0 else if k == 5 then 0xf8 else if k == 6 then 0xfc else if k == 7 then 0xfe
    else 0xff
  }

  lemma {:induction false} OnesBits(k: nat, q: nat)
    requires q < 8
    ensures Bit(Ones(k), q) <==> q < k
  {
  }

  lemma {:induction false} AndBits(a: Octet, b: Octet, q: nat)
    requires q < 8
    ensures Bit(a & b, q) <==> Bit(a, q) && Bit(b, q)
  {
  }

  lemma {:induction false} SameBits(a: Octet, b: Octet)
    requires forall q :: 0 <= q < 8 ==> (Bit(a, q) <==> Bit(b, q))
    ensures a == b
  {
    assert Bit(a, 0) <==> Bit(b, 0);
    assert Bit(a, 1) <==> Bit(b, 1);
    assert Bit(a, 2) <==> Bit(b, 2);
    assert Bit(a, 3) <==> Bit(b, 3);
    assert Bit(a, 4) <==> Bit(b, 4);
    assert Bit(a, 5) <==> Bit(b, 5);
    assert Bit(a, 6) <==> Bit(b, 6);
    assert Bit(a, 7) <==> Bit(b, 7);
  }

  // ----- masks and matches -----

  /** Bit `p` of an address. */
  predicate BitOf(addr: seq<Octet>, p: nat)
    requires p < 8 * |addr|
  {
    Bit(addr[p / 8], p % 8)
  }

  /** How many of the `prefix` bits fall into octet `j`. */
  function BitsIn(prefix: nat, j: nat): nat {
    if prefix <= 8 * j then 0 else if prefix >= 8 * j + 8 then 8 else prefix - 8 * j
  }

  function MaskOf(prefix: nat, size: nat): (m: seq<Octet>)
    ensures |m| == size && forall j :: 0 <= j < size ==> m[j] == Ones(BitsIn(prefix, j))
  {
    if size == 0 then [] else MaskOf(prefix, size - 1) + [Ones(BitsIn(prefix, size - 1))]
  }

  /** The mask has exactly the first `prefix` bits set. */
  lemma {:induction false} MaskBits(prefix: nat, size: nat, p: nat)
    requires p < 8 * size
    ensures BitOf(MaskOf(prefix, size), p) <==> p < prefix
  {
    OnesBits(BitsIn(prefix, p / 8), p % 8);
  }

  /** The octet that the loop of ipv6_prefix_to_mask stores when `i` bits are left. */
  function LoopOctet(i: nat): (b: Octet)
    requires i > 0
    ensures b == Ones(i)
  {
    if i >= 8 then 0xff
    else if i == 1 then 0xff << 7 else if i == 2 then 0xff << 6 else if i == 3 then 0xff << 5
    else if i == 4 then 0xff << 4 else if i == 5 then 0xff << 3 else if i == 6 then 0xff << 2 else 0xff << 1
  }

  /** ipv6_prefix_to_mask; -1 for a prefix that is too long. */
  method PrefixToMask(prefix: nat, mask: array<Octet>) returns (r: int)
    requires mask.Length == 16
    modifies mask
    ensures if prefix > 128 then r == -1 && mask[..] == old(mask[..]) else r == 0 && mask[..] == MaskOf(prefix, 16)
  {
    if prefix > 128 { return -1; }
    var in6 := new Octet[16](_ => 0);
    var i, j := prefix as int, 0;
    while i > 0
      invariant 0 <= j <= 16 && i == prefix - 8 * j
      invariant forall k :: 0 <= k < j ==> in6[k] == Ones(BitsIn(prefix, k))
      invariant forall k :: j <= k < 16 ==> in6[k] == 0
      decreases i
    {
      in6[j] := LoopOctet(i);
      i, j := i - 8, j + 1;
    }
    forall k | 0 <= k < 16 { mask[k] := in6[k]; }
    r := 0;
  }

  /** The destination, masked, is the route's network. */
  predicate Matches(dest: seq<Octet>, mask: seq<Octet>, net: seq<Octet>)
    requires |dest| == |mask| == |net|
  {
    forall j :: 0 <= j < |dest| ==> dest[j] & mask[j] == net[j]
  }

  lemma {:induction false} MaskedBit(d: Octet, k: nat, q: nat)
    requires q < 8
    ensures Bit(d & Ones(k), q) <==> q < k && Bit(d, q)
  {
    AndBits(d, Ones(k), q);
    OnesBits(k, q);
  }

  lemma {:induction false} OctetMatches(d: Octet, k: nat, n: Octet)
    ensures d & Ones(k) == n <==> forall q :: 0 <= q < 8 ==> (Bit(n, q) <==> q < k && Bit(d, q))
  {
    forall q | 0 <= q < 8 ensures Bit(d & Ones(k), q) <==> q < k && Bit(d, q) {
      MaskedBit(d, k, q);
    }
    if forall q :: 0 <= q < 8 ==> (Bit(n, q) <==> q < k && Bit(d, q)) {
      SameBits(d & Ones(k), n);
    }
  }

  /** The first `prefix` bits agree, and the network has no others. */
  ghost predicate SamePrefix(dest: seq<Octet>, prefix: nat, net: seq<Octet>)
    requires |dest| == |net|
  {
    forall p :: 0 <= p < 8 * |dest| ==> (BitOf(net, p) <==> p < prefix && BitOf(dest, p))
  }

  lemma {:induction false} OctetOfPrefix(dest: seq<Octet>, prefix: nat, net: seq<Octet>, j: nat)
    requires |dest| == |net| && j < |dest| && SamePrefix(dest, prefix, net)
    ensures dest[j] & Ones(BitsIn(prefix, j)) == net[j]
  {
    forall q | 0 <= q < 8 ensures Bit(net[j], q) <==> q < BitsIn(prefix, j) && Bit(dest[j], q) {
      var p := 8 * j + q;
      assert p / 8 == j && p % 8 == q;
      assert BitOf(net, p) <==> p < prefix && BitOf(dest, p);
    }
    OctetMatches(dest[j], BitsIn(prefix, j), net[j]);
  }

  lemma {:induction false} PrefixBit(prefix: nat, p: nat)
    ensures p % 8 < BitsIn(prefix, p / 8) <==> p < prefix
  {
  }

  lemma {:induction false} BitOfMatch(d: Octet, prefix: nat, n: Octet, p: nat)
    requires d & Ones(BitsIn(prefix, p / 8)) == n
    ensures Bit(n, p % 8) <==> p < prefix && Bit(d, p % 8)
  {
    PrefixBit(prefix, p);
    MaskedBit(d, BitsIn(prefix, p / 8), p % 8);
  }

  lemma {:induction false} OctetOfMatch(dest: seq<Octet>, prefix: nat, net: seq<Octet>, j: nat)
    requires |dest| == |net| && j < |dest| && Matches(dest, MaskOf(prefix, |dest|), net)
    ensures dest[j] & Ones(BitsIn(prefix, j)) == net[j]
  {
    var mask := MaskOf(prefix, |dest|);
    assert dest[j] & mask[j] == net[j];
  }

  /** What a match means for a mask made from a prefix length. */
  lemma {:induction false} MatchMeansPrefix(dest: seq<Octet>, prefix: nat, net: seq<Octet>)
    requires |dest| == |net|
    ensures Matches(dest, MaskOf(prefix, |dest|), net) <==> SamePrefix(dest, prefix, net)
  {
    if Matches(dest, MaskOf(prefix, |dest|), net) {
      forall p | 0 <= p < 8 * |dest| ensures BitOf(net, p) <==> p < prefix && BitOf(dest, p) {
        OctetOfMatch(dest, prefix, net, p / 8);
        BitOfMatch(dest[p / 8], prefix, net[p / 8], p);
      }
    }
    if SamePrefix(dest, prefix, net) {
      forall j | 0 <= j < |dest| ensures dest[j] & MaskOf(prefix, |dest|)[j] == net[j] {
        OctetOfPrefix(dest, prefix, net, j);
      }
    }
  }

  // ----- the best match -----

  /** `a` is to be preferred to `b`. */
  predicate Better(maskA: nat, metricA: int, maskB: nat, metricB: int) {
    maskA > maskB || (maskA == maskB && metricA < metricB)
  }

  /** An IPv6 route holds the length of its prefix. */
  datatype Route6 = Route6(net: seq<Octet>, prefix: nat, metric: int)

  ghost predicate Hit6(dest: seq<Octet>, r: Route6)
    requires |dest| == 16
  {
    |r.net| == 16 && SamePrefix(dest, r.prefix, r.net)
  }

  /** Among the first `n` routes `best` matches, no match is better and no earlier one as good; or none matches. */
  ghost predicate Best6(dest: seq<Octet>, routes: seq<Route6>, n: nat, best: int)
    requires |dest| == 16 && n <= |routes|
  {
    if best == -1 then forall i :: 0 <= i < n ==> !Hit6(dest, routes[i])
    else
      && 0 <= best < n && Hit6(dest, routes[best])
      && forall i :: 0 <= i < n && i != best && Hit6(dest, routes[i]) ==>
           && !Better(routes[i].prefix, routes[i].metric, routes[best].prefix, routes[best].metric)
           && (i < best ==> Better(routes[best].prefix, routes[best].metric, routes[i].prefix, routes[i].metric))
  }

  /** The loop of v6_routethrough; `ok` unless some prefix is too long. */
  method SelectRoute6(dest: seq<Octet>, routes: seq<Route6>) returns (ok: bool, best: int)
    requires |dest| == 16 && forall r :: r in routes ==> |r.net| == 16
    ensures ok <==> forall r :: r in routes ==> r.prefix <= 128
    ensures ok ==> Best6(dest, routes, |routes|, best)
  {
    best := -1;
    var mask := new Octet[16](_ => 0);
    for i := 0 to |routes|
      invariant Best6(dest, routes, i, best)
      invariant forall k :: 0 <= k < i ==> routes[k].prefix <= 128
    {
      var r := routes[i];
      var e := PrefixToMask(r.prefix, mask);
      if e == -1 {
        return false, best;
      }
      MatchMeansPrefix(dest, r.prefix, r.net);
      if Matches(dest, mask[..], r.net) {
        if best == -1 {
          best := i;
        } else if r.prefix > routes[best].prefix {
          best := i;
        } else if r.prefix == routes[best].prefix && r.metric < routes[best].metric {
          best := i;
        }
      }
    }
    ok := true;
  }

  // ----- IPv4 -----

  /** The number a little-endian machine reads from four octets in network order. */
  function Number(b: seq<Octet>): nat
    requires |b| == 4
  {
    b[0] as nat + 0x100 * (b[1] as nat) + 0x1_0000 * (b[2] as nat) + 0x100_0000 * (b[3] as nat)
  }

  function OnesNumber(k: nat): nat {
    if k == 0 then 0 else if k == 1 then 128 else if k == 2 then 192 else if k == 3 then 224
    else if k == 4 then 240 else if k == 5 then 248 else if k == 6 then 252 else if k == 7 then 254
    else 255
  }

  lemma {:induction false} OnesAsNumber(k: nat)
    ensures Ones(k) as nat == OnesNumber(k)
  {
  }

  /** The byte-swapped masks are ordered as their prefix lengths. */
  lemma {:induction false} LongerMaskIsLarger(p: nat, q: nat)
    requires p < q <= 32
    ensures Number(MaskOf(p, 4)) < Number(MaskOf(q, 4))
    decreases q - p
  {
    OneBitMore(p);
    if p + 1 < q { LongerMaskIsLarger(p + 1, q); }
  }

  lemma {:induction false} OnesGrow(k: nat)
    requires k < 8
    ensures OnesNumber(k) < OnesNumber(k + 1)
  {
  }

  lemma {:induction false} OneBitMore(p: nat)
    requires p < 32
    ensures Number(MaskOf(p, 4)) < Number(MaskOf(p + 1, 4))
  {
    var j := p / 8;
    assert BitsIn(p, j) == p % 8 && BitsIn(p + 1, j) == p % 8 + 1;
    OnesGrow(p % 8);
    MaskNumber(p);
    MaskNumber(p + 1);
    if j == 0 {
    } else if j == 1 {
    } else if j == 2 {
    } else {
    }
  }

  lemma {:induction false} MaskNumber(p: nat)
    ensures Number(MaskOf(p, 4)) == OnesNumber(BitsIn(p, 0)) + 0x100 * OnesNumber(BitsIn(p, 1))
                                    + 0x1_0000 * OnesNumber(BitsIn(p, 2)) + 0x100_0000 * OnesNumber(BitsIn(p, 3))
  {
    OnesAsNumber(BitsIn(p, 0));
    OnesAsNumber(BitsIn(p, 1));
    OnesAsNumber(BitsIn(p, 2));
    OnesAsNumber(BitsIn(p, 3));
  }

  /** An IPv4 route holds its mask. */
  datatype Route4 = Route4(net: seq<Octet>, mask: seq<Octet>, metric: int)

  /** The mask is that of a prefix of length `p`. */
  ghost predicate Contiguous(r: Route4, p: nat) {
    p <= 32 && r.mask == MaskOf(p, 4)
  }

  ghost predicate Hit4(dest: seq<Octet>, r: Route4, p: nat)
    requires |dest| == 4
  {
    |r.net| == 4 && SamePrefix(dest, p, r.net)
  }

  /** As Best6, for routes whose prefixes have lengths `ps`. */
  ghost predicate Best4(dest: seq<Octet>, routes: seq<Route4>, ps: seq<nat>, n: nat, best: int)
    requires |dest| == 4 && n <= |routes| == |ps|
  {
    if best == -1 then forall i :: 0 <= i < n ==> !Hit4(dest, routes[i], ps[i])
    else
      && 0 <= best < n && Hit4(dest, routes[best], ps[best])
      && forall i :: 0 <= i < n && i != best && Hit4(dest, routes[i], ps[i]) ==>
           && !Better(ps[i], routes[i].metric, ps[best], routes[best].metric)
           && (i < best ==> Better(ps[best], routes[best].metric, ps[i], routes[i].metric))
  }

  lemma {:induction false} MaskOrder(p: nat, q: nat)
    requires p <= 32 && q <= 32
    ensures Number(MaskOf(p, 4)) > Number(MaskOf(q, 4)) <==> p > q
    ensures Number(MaskOf(p, 4)) == Number(MaskOf(q, 4)) <==> p == q
  {
    if p < q { LongerMaskIsLarger(p, q); }
    if q < p { LongerMaskIsLarger(q, p); }
  }

  ghost predicate WellFormed(routes: seq<Route4>) {
    forall i :: 0 <= i < |routes| ==> |routes[i].net| == 4 && |routes[i].mask| == 4
  }

  predicate Hits(dest: seq<Octet>, r: Route4)
    requires |dest| == |r.net| == |r.mask| == 4
  {
    Matches(dest, r.mask, r.net)
  }

  /** Among the matches of the first `n` routes: the largest mask number, then the least metric, the first of equals. */
  ghost predicate BestNumber(dest: seq<Octet>, routes: seq<Route4>, n: nat, best: int)
    requires |dest| == 4 && n <= |routes| && WellFormed(routes)
  {
    if best == -1 then forall i :: 0 <= i < n ==> !Hits(dest, routes[i])
    else
      && 0 <= best < n && Hits(dest, routes[best])
      && forall i :: 0 <= i < n && i != best && Hits(dest, routes[i]) ==>
           var p, q := Number(routes[i].mask), Number(routes[best].mask);
           && !Better(p, routes[i].metric, q, routes[best].metric)
           && (i < best ==> Better(q, routes[best].metric, p, routes[i].metric))
  }

  /** The loop of routethrough, for any masks. */
  method SelectRoute4(dest: seq<Octet>, routes: seq<Route4>) returns (best: int)
    requires |dest| == 4 && WellFormed(routes)
    ensures BestNumber(dest, routes, |routes|, best)
  {
    best := -1;
    for i := 0 to |routes|
      invariant BestNumber(dest, routes, i, best)
    {
      var r := routes[i];
      if Hits(dest, r) {
        if best == -1 {
          best := i;
        } else if Number(r.mask) > Number(routes[best].mask) {
          best := i;
        } else if Number(r.mask) == Number(routes[best].mask) && r.metric < routes[best].metric {
          best := i;
        }
      }
    }
  }

  /** With contiguous masks the route so chosen is the one of the longest matching prefix. */
  lemma {:induction false} LongestPrefix(dest: seq<Octet>, routes: seq<Route4>, ps: seq<nat>, best: int)
    requires |dest| == 4 && WellFormed(routes) && |ps| == |routes|
    requires forall i :: 0 <= i < |routes| ==> Contiguous(routes[i], ps[i])
    requires BestNumber(dest, routes, |routes|, best)
    ensures Best4(dest, routes, ps, |routes|, best)
  {
    forall i | 0 <= i < |routes| ensures Hits(dest, routes[i]) <==> Hit4(dest, routes[i], ps[i]) {
      MatchMeansPrefix(dest, ps[i], routes[i].net);
    }
    if best != -1 {
      forall i | 0 <= i < |routes| && i != best && Hit4(dest, routes[i], ps[i])
        ensures && !Better(ps[i], routes[i].metric, ps[best], routes[best].metric)
                && (i < best ==> Better(ps[best], routes[best].metric, ps[i], routes[i].metric))
      {
        MaskOrder(ps[i], ps[best]);
        MaskOrder(ps[best], ps[i]);
      }
    }
  }

  /** Without contiguity it need not be: eight bits at the bottom beat twenty-four at the top. */
  lemma {:induction false} LooseMaskBeats(metric: int, best: int)
    requires var tight := Route4([10, 0, 0, 0], MaskOf(24, 4), metric);
             var loose := Route4([0, 0, 0, 1], [0, 0, 0, 0xff], metric);
             BestNumber([10, 0, 0, 1], [tight, loose], 2, best)
    ensures Hits([10, 0, 0, 1], Route4([10, 0, 0, 0], MaskOf(24, 4), metric)) && best == 1
  {
    var dest: seq<Octet> := [10, 0, 0, 1];
    var tight, loose := Route4([10, 0, 0, 0], MaskOf(24, 4), metric), Route4([0, 0, 0, 1], [0, 0, 0, 0xff], metric);
    MaskNumber(24);
    assert [tight, loose][1] == loose && Hits(dest, loose);
    assert Hits(dest, tight) by { MatchMeansPrefix(dest, 24, tight.net); }
  }
}
