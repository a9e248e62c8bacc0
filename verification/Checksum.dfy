/** The Internet checksum and the TCP packets of nasl/nasl_builtin_synscan.c (section 1 of RFC 1071). */
module Checksum {
  import opened Bytes

  /** The sum of the 16-bit words as a little-endian machine reads them; an odd byte is a low one. */
  function Sum(b: seq<Byte>): nat {
    if b == [] then 0
    else if |b| == 1 then b[0]
    else b[0] as nat + 0x100 * b[1] as nat + Sum(b[2..])
  }

  /** High half plus low half, and the carry of that. */
  function Folded(s: nat): nat {
    var t := s / 0x1_0000 + s % 0x1_0000;
    (t + t / 0x1_0000) % 0x1_0000
  }

  function Cksum(b: seq<Byte>): nat {
    0xffff - Folded(Sum(b))
  }

  lemma {:induction false} SumStep(b: seq<Byte>, p: nat)
    requires p + 2 <= |b|
    ensures Sum(b[p..]) == b[p] as nat + 0x100 * b[p + 1] as nat + Sum(b[p + 2..])
  {
    assert b[p..][2..] == b[p + 2..];
  }

  /** in_cksum */
  method InCksum(b: seq<Byte>) returns (answer: nat)
    ensures answer == Cksum(b)
  {
    var sum, p, n := 0, 0, |b|;
    while n > 1
      invariant 0 <= n && p + n == |b| && Sum(b) == sum + Sum(b[p..])
    {
      SumStep(b, p);
      sum := sum + b[p] as nat + 0x100 * b[p + 1] as nat;
      p, n := p + 2, n - 2;
    }
    if n == 1 { sum := sum + b[p] as nat; }
    assert sum == Sum(b);
    sum := sum / 0x1_0000 + sum % 0x1_0000;
    sum := sum + sum / 0x1_0000;
    answer := 0xffff - sum % 0x1_0000;
  }

  // ----- two folds -----

  /** For any sum that 2^31 bytes can have, two folds are enough exactly if the second leaves no carry. */
  lemma {:induction false} FoldsExactly(s: nat)
    requires s < 0x8000_0000_0000
    ensures var t := s / 0x1_0000 + s % 0x1_0000;
            Folded(s) % 0xffff == s % 0xffff <==> t / 0x1_0000 + t % 0x1_0000 < 0x1_0000
  {
    var t := s / 0x1_0000 + s % 0x1_0000;
    var q, r := t / 0x1_0000, t % 0x1_0000;
    assert s == 0xffff * (s / 0x1_0000 + q) + (q + r);
    SameResidue(s, s / 0x1_0000 + q, q + r);
    assert Folded(s) == if q + r < 0x1_0000 then q + r else q + r - 0x1_0000;
  }

  lemma {:induction false} SameResidue(s: nat, k: nat, r: nat)
    requires s == 0xffff * k + r
    ensures s % 0xffff == r % 0xffff
  {
  }

  /** So it is for every sum below 2^32. */
  lemma {:induction false} TwoFolds(s: nat)
    requires s < 0x1_0000_0000
    ensures Folded(s) % 0xffff == s % 0xffff && (Folded(s) == 0 <==> s == 0)
  {
    FoldsExactly(s);
  }

  lemma {:induction false} TwoFoldsFail()
    ensures Folded(0x1_0000_ffff) % 0xffff != 0x1_0000_ffff % 0xffff
  {
    assert 0x1_0000_ffff / 0x1_0000 == 0x1_0000 && 0x1_0000_ffff % 0x1_0000 == 0xffff;
    assert Folded(0x1_0000_ffff) == 0;
  }

  lemma {:induction false} SumBound(b: seq<Byte>)
    ensures 2 * Sum(b) <= 0xffff * (|b| + 1)
  {
    if |b| >= 2 { SumBound(b[2..]); }
  }

  /** The sum is that of its parts, if the first has even length. */
  lemma {:induction false} SumSplits(a: seq<Byte>, b: seq<Byte>)
    requires |a| % 2 == 0
    ensures Sum(a + b) == Sum(a) + Sum(b)
  {
    if a == [] {
      assert a + b == b;
    } else {
      assert (a + b)[2..] == a[2..] + b;
      SumSplits(a[2..], b);
    }
  }

  /** Write the checksum into a zero word, and the checksum of the result is 0. */
  lemma {:induction false} Verifies(a: seq<Byte>, b: seq<Byte>)
    requires |a| % 2 == 0 && |a| + 2 + |b| <= 131070
    ensures var c := Cksum(a + [0, 0] + b);
            Cksum(a + [c % 0x100, c / 0x100] + b) == 0
  {
    var c := Cksum(a + [0, 0] + b);
    var s := Sum(a) + Sum(b);
    SumWith(a, 0, 0, b);
    SumWith(a, c % 0x100, c / 0x100, b);
    SumBound(a);
    SumBound(b);
    TwoFolds(s);
    Complement(s, c);
  }

  lemma {:induction false} SumWith(a: seq<Byte>, x: Byte, y: Byte, b: seq<Byte>)
    requires |a| % 2 == 0
    ensures Sum(a + [x, y] + b) == Sum(a) + x + 0x100 * y + Sum(b)
  {
    SumSplits(a, [x, y] + b);
    assert a + [x, y] + b == a + ([x, y] + b);
    assert ([x, y] + b)[2..] == b;
  }

  lemma {:induction false} Complement(s: nat, c: nat)
    requires s + 0xffff < 0x1_0000_0000 && c == 0xffff - Folded(s)
    ensures Folded(s + c) == 0xffff
  {
    TwoFolds(s);
    TwoFolds(s + c);
    ComplementResidue(s, Folded(s));
  }

  lemma {:induction false} ComplementResidue(s: nat, v: nat)
    requires v <= 0xffff && v % 0xffff == s % 0xffff
    ensures (s + 0xffff - v) % 0xffff == 0
  {
    var k := s / 0xffff;
    assert s + 0xffff - v == 0xffff * if v == 0xffff then k else k + 1;
  }

  // ----- packets -----

  function Low(n: nat): Byte {
    n % 0x100
  }

  function High(n: nat): Byte {
    n / 0x100 % 0x100
  }

  /** Four bytes of a number, the least significant first. */
  function Four(n: nat): seq<Byte> {
    [Low(n), High(n), Low(n / 0x1_0000), High(n / 0x1_0000)]
  }

  /** The IP header up to its checksum, and the TCP header up to and after its own. */
  function IpStart(id: nat): seq<Byte> {
    [0x45, 0, 40, 0, Low(id), High(id), 0, 0, 64, 6]
  }

  function TcpStart(sport: nat, dport: nat, seqno: nat, flag: Byte): seq<Byte> {
    [High(sport), Low(sport), High(dport), Low(dport)] + Four(seqno) + [0, 0, 0, 0, 0x50, flag, 0x00, 0x10]
  }

  const TCP_END: seq<Byte> := [0, 0]

  function Pseudo(src: seq<Byte>, dst: seq<Byte>): seq<Byte> {
    src + dst + [0, 6, 0, 20]
  }

  function Word(c: nat): seq<Byte> {
    [Low(c), High(c)]
  }

  lemma {:induction false} VerifiesWord(a: seq<Byte>, b: seq<Byte>)
    requires |a| % 2 == 0 && |a| + 2 + |b| <= 131070
    ensures Cksum(a + Word(Cksum(a + [0, 0] + b)) + b) == 0
  {
    Verifies(a, b);
    var c := Cksum(a + [0, 0] + b);
    assert c / 0x100 % 0x100 == c / 0x100;
  }

  /** The packet in its parts. */
  method Assemble(src: seq<Byte>, dst: seq<Byte>, sport: nat, dport: nat, id: nat, seqno: nat, flag: Byte)
    returns (pkt: seq<Byte>)
    requires |src| == 4 && |dst| == 4
    ensures |pkt| == 40 && Cksum(pkt[..20]) == 0 && Cksum(Pseudo(src, dst) + pkt[20..]) == 0
    ensures pkt[..10] == IpStart(id) && pkt[12..20] == src + dst
    ensures pkt[20..36] == TcpStart(sport, dport, seqno, flag) && pkt[38..] == TCP_END
  {
    var ip0, tcp0 := IpStart(id), TcpStart(sport, dport, seqno, flag);
    var c := InCksum(ip0 + [0, 0] + (src + dst));
    VerifiesWord(ip0, src + dst);
    var ip := ip0 + Word(c) + (src + dst);
    var head := Pseudo(src, dst) + tcp0;
    var d := InCksum(head + [0, 0] + TCP_END);
    VerifiesWord(head, TCP_END);
    var tcp := tcp0 + Word(d) + TCP_END;
    assert Pseudo(src, dst) + tcp == head + Word(d) + TCP_END;
    pkt := ip + tcp;
    assert pkt[..20] == ip && pkt[20..] == tcp;
    assert pkt[..10] == ip[..10] && pkt[12..20] == ip[12..] && pkt[20..36] == tcp[..16] && pkt[38..] == tcp[18..];
  }

  /** The fields of the IP header, by offset; its length and identification are in the machine's own order. */
  ghost predicate IpFields(pkt: seq<Byte>, src: seq<Byte>, dst: seq<Byte>, id: nat)
    requires |pkt| == 40
  {
    && pkt[0] == 0x45 && pkt[1] == 0 && Number(pkt[3], pkt[2]) == 40 && Number(pkt[5], pkt[4]) == id % 0x1_0000
    && pkt[6] == 0 && pkt[7] == 0 && pkt[8] == 64 && pkt[9] == 6 && pkt[12..16] == src && pkt[16..20] == dst
  }

  /** The fields of the TCP header; its sequence number and window are in the machine's own order. */
  ghost predicate TcpFields(pkt: seq<Byte>, sport: nat, dport: nat, seqno: nat, flag: Byte)
    requires |pkt| == 40
  {
    && Number(pkt[20], pkt[21]) == sport % 0x1_0000 && Number(pkt[22], pkt[23]) == dport % 0x1_0000
    && Number(pkt[27], pkt[26]) * 0x1_0000 + Number(pkt[25], pkt[24]) == seqno % 0x1_0000_0000
    && pkt[28] == pkt[29] == pkt[30] == pkt[31] == 0 && pkt[32] == 0x50 && pkt[33] == flag
    && Number(pkt[35], pkt[34]) == 4096 && pkt[38] == pkt[39] == 0
  }

  /** mktcp: both checksums of the packet verify, the one of the segment over the pseudo header too. */
  method MkTcp(src: seq<Byte>, dst: seq<Byte>, sport: nat, dport: nat, id: nat, seqno: nat, flag: Byte)
    returns (pkt: seq<Byte>)
    requires |src| == 4 && |dst| == 4
    ensures |pkt| == 40 && Cksum(pkt[..20]) == 0 && Cksum(src + dst + [0, 6, 0, 20] + pkt[20..]) == 0
    ensures IpFields(pkt, src, dst, id) && TcpFields(pkt, sport, dport, seqno, flag)
  {
    pkt := Assemble(src, dst, sport, dport, id, seqno, flag);
    IpByOffset(pkt, src, dst, id);
    TcpByOffset(pkt, pkt[20..36], sport, dport, seqno, flag);
  }

  lemma {:induction false} IpByOffset(pkt: seq<Byte>, src: seq<Byte>, dst: seq<Byte>, id: nat)
    requires |pkt| == 40 && |src| == 4 && |dst| == 4 && pkt[..10] == IpStart(id) && pkt[12..20] == src + dst
    ensures IpFields(pkt, src, dst, id)
  {
    var h := IpStart(id);
    assert forall k :: 0 <= k < 10 ==> pkt[k] == h[k];
    assert pkt[12..16] == (src + dst)[..4] && pkt[16..20] == (src + dst)[4..];
    NumberOf(id);
  }

  lemma {:induction false} TcpByOffset(pkt: seq<Byte>, h: seq<Byte>, sport: nat, dport: nat, seqno: nat, flag: Byte)
    requires |pkt| == 40 && h == pkt[20..36] == TcpStart(sport, dport, seqno, flag) && pkt[38..] == TCP_END
    ensures TcpFields(pkt, sport, dport, seqno, flag)
  {
    assert forall k :: 0 <= k < 16 ==> pkt[20 + k] == h[k];
    assert pkt[38] == TCP_END[0] && pkt[39] == TCP_END[1];
    assert h[4..8] == Four(seqno);
    NumberOf(sport);
    NumberOf(dport);
    FourNumber(seqno);
  }

  /** The number of two bytes, the more significant one first. */
  function Number(hi: Byte, lo: Byte): nat {
    hi as nat * 0x100 + lo as nat
  }

  lemma {:induction false} NumberOf(n: nat)
    ensures Number(High(n), Low(n)) == n % 0x1_0000
  {
    TwoBytes(n, n / 0x100, n % 0x100);
  }

  lemma {:induction false} TwoBytes(n: nat, hi: nat, lo: nat)
    requires n == hi * 0x100 + lo && lo < 0x100
    ensures hi % 0x100 * 0x100 + lo == n % 0x1_0000
  {
    var top := hi / 0x100;
    assert n == top * 0x1_0000 + (hi % 0x100 * 0x100 + lo);
  }

  lemma {:induction false} FourNumber(n: nat)
    ensures var f := Four(n); Number(f[3], f[2]) * 0x1_0000 + Number(f[1], f[0]) == n % 0x1_0000_0000
  {
    NumberOf(n);
    NumberOf(n / 0x1_0000);
    LowAndHigh(n, n / 0x1_0000, n % 0x1_0000);
  }

  lemma {:induction false} LowAndHigh(n: nat, hi: nat, lo: nat)
    requires n == hi * 0x1_0000 + lo && lo < 0x1_0000
    ensures hi % 0x1_0000 * 0x1_0000 + lo == n % 0x1_0000_0000
  {
    var top := hi / 0x1_0000;
    assert n == top * 0x1_0000_0000 + (hi % 0x1_0000 * 0x1_0000 + lo);
  }
}
