/**
 The SYN scan (nasl/nasl_builtin_synscan.c:519-599, 727-765): how often a port can be probed, and why the
 retry loop makes progress.

 A ledger keeps, beside the pending packets, what was sent and what has left the list.
 */
module SynScan {
  import opened Common
  import opened SynPackets
  import opened SynList

  /** `first` as long as nothing was retried; `late` are the ports sent to after they had left the list. */
  datatype Ledger = Ledger(
    es: seq<Entry>, asked: seq<nat>, first: bool, sent: multiset<nat>, gone: set<nat>, late: set<nat>)

  function PortsOf(es: seq<Entry>): set<nat> {
    set i | 0 <= i < |es| :: es[i].dport
  }

  function Min(a: int, b: int): int {
    if a < b then a else b
  }

  /** A port is asked for: unless it is 0, a SYN goes out. */
  function Ask(g: Ledger, p: nat, when: int): Ledger {
    var g' := g.(asked := g.asked + [p]);
    if p == 0 then g' else SynOut(g', p, when)
  }

  function Again(g: Ledger, p: nat, when: int): Ledger {
    SynOut(g.(first := false), p, when)
  }

  function SynOut(g: Ledger, p: nat, when: int): Ledger {
    g.(es := Added(g.es, p, when), sent := g.sent + multiset{p}, late := if p in g.gone then g.late + {p} else g.late)
  }

  /** The list shrinks to `es`. */
  function Drop(g: Ledger, es: seq<Entry>): Ledger {
    g.(es := es, gone := g.gone + (PortsOf(g.es) - PortsOf(es)))
  }

  // ----- at most 1 + NUM_RETRIES packets per port, none late -----

  ghost predicate Fair(g: Ledger) {
    Listed(g) && Counted(g) && Punctual(g)
  }

  /** One entry a port, and only for ports that were asked for. */
  ghost predicate Listed(g: Ledger) {
    && DistinctPorts(g.es)
    && (forall i :: 0 <= i < |g.es| ==> g.es[i].dport != 0 && g.es[i].dport in g.asked)
    && (forall p :: p in g.gone ==> p in g.asked)
  }

  /** A port asked for m times was sent m packets at first, and with those retried at most NUM_RETRIES more. */
  ghost predicate Counted(g: Ledger) {
    && (forall p :: g.sent[p] <= multiset(g.asked)[p] + if g.first then 0 else NUM_RETRIES)
    && (forall i :: 0 <= i < |g.es| ==>
          g.sent[g.es[i].dport] <= multiset(g.asked)[g.es[i].dport] + Min(g.es[i].retries, NUM_RETRIES))
  }

  /** No packet is late, unless a port was asked for twice. */
  ghost predicate Punctual(g: Ledger) {
    NoDuplicates(g.asked) ==> g.late == {} && forall i :: 0 <= i < |g.es| ==> g.es[i].dport !in g.gone
  }

  const BLANK := Ledger([], [], true, multiset{}, {}, {})

  type Books = g: Ledger | Fair(g) witness BLANK

  lemma {:induction false} NewPort(ports: seq<nat>, p: nat)
    ensures NoDuplicates(ports + [p]) ==> NoDuplicates(ports) && p !in ports
  {
    var all := ports + [p];
    assert forall i :: 0 <= i < |ports| ==> all[i] == ports[i];
    assert all[|ports|] == p;
  }

  lemma {:induction false} AskIsFair(g: Ledger, p: nat, when: int)
    requires Fair(g) && g.first
    ensures Fair(Ask(g, p, when))
  {
    NewPort(g.asked, p);
    if p != 0 {
      AskListed(g, p, when);
      AskCounted(g, p, when);
      AskPunctual(g, p, when);
    }
  }

  lemma {:induction false} AskListed(g: Ledger, p: nat, when: int)
    requires Listed(g) && p != 0
    ensures Listed(Ask(g, p, when))
  {
    var es := Added(g.es, p, when);
    if Find(g.es, p) == |g.es| {
      assert forall i :: 1 <= i < |es| ==> es[i] == g.es[i - 1];
    }
  }

  lemma {:induction false} AskCounted(g: Ledger, p: nat, when: int)
    requires Listed(g) && Counted(g) && g.first && p != 0
    ensures Counted(Ask(g, p, when))
  {
    var es, all := Added(g.es, p, when), g.asked + [p];
    assert forall q :: multiset(all)[q] == multiset(g.asked)[q] + if q == p then 1 else 0;
    if Find(g.es, p) == |g.es| {
      assert forall i :: 1 <= i < |es| ==> es[i] == g.es[i - 1];
    }
  }

  lemma {:induction false} AskPunctual(g: Ledger, p: nat, when: int)
    requires Listed(g) && Punctual(g) && p != 0
    ensures Punctual(Ask(g, p, when))
  {
    NewPort(g.asked, p);
    if p !in g.asked {
      var es := Added(g.es, p, when);
      assert Find(g.es, p) == |g.es|;
      assert forall i :: 1 <= i < |es| ==> es[i] == g.es[i - 1];
    }
  }

  lemma {:induction false} AgainIsFair(g: Ledger, p: nat, when: int)
    requires Fair(g) && Find(g.es, p) < |g.es| && g.es[Find(g.es, p)].retries < NUM_RETRIES
    ensures Fair(Again(g, p, when))
  {
  }

  lemma {:induction false} DropIsFair(g: Ledger, es: seq<Entry>)
    requires Fair(g) && DistinctPorts(es) && forall i :: 0 <= i < |es| ==> es[i] in g.es
    ensures Fair(Drop(g, es))
  {
    forall i | 0 <= i < |es| ensures es[i].dport in PortsOf(es) {}
  }

  /** A port asked for four times gets more than 1 + NUM_RETRIES packets; asked for twice, it can get one late. */
  lemma {:induction false} DuplicatesOverrun(p: nat, q: nat)
    requires p != 0 && q != 0 && p != q
    ensures Ask(Ask(Ask(Ask(BLANK, p, 0), p, 1), p, 2), p, 3).sent[p] > 1 + NUM_RETRIES
    ensures var g := Drop(Ask(Ask(BLANK, q, 0), p, 1), []);
            var h := Ask(g, p, 2);
            multiset(h.asked)[p] == 2 && h.late == {p}
  {
    var g := Ask(Ask(BLANK, q, 0), p, 1);
    assert Find([Entry(q, 0, 0)], p) == 1;
    assert g.es[0].dport == p && p in PortsOf(g.es);
  }

  // ----- progress -----

  /** For entries within their retries this is the sum of NUM_RETRIES + 1 - retries. */
  function Potential(es: seq<Entry>): nat {
    if es == [] then 0
    else 1 + (if es[0].retries < NUM_RETRIES then NUM_RETRIES - es[0].retries else 0) + Potential(es[1..])
  }

  lemma {:induction false} BumpLowers(es: seq<Entry>, k: nat, when: int)
    requires k < |es| && es[k].retries < NUM_RETRIES
    ensures Potential(es[k := Bump(es[k], when)]) == Potential(es) - 1
  {
    if k == 0 {
      assert es[0 := Bump(es[0], when)][1..] == es[1..];
    } else {
      BumpLowers(es[1..], k - 1, when);
      assert es[k := Bump(es[k], when)][1..] == es[1..][k - 1 := Bump(es[k], when)];
    }
  }

  lemma {:induction false} CutLowers(es: seq<Entry>, k: nat)
    requires k < |es|
    ensures Potential(es[..k] + es[k + 1..]) < Potential(es)
  {
    if k == 0 {
      assert es[..0] + es[1..] == es[1..];
    } else {
      CutLowers(es[1..], k - 1);
      assert (es[..k] + es[k + 1..])[1..] == es[1..][..k - 1] + es[1..][k..];
    }
  }

  lemma {:induction false} RemoveLowers(es: seq<Entry>, p: nat)
    ensures Potential(Removed(es, p)) <= Potential(es)
  {
    if Find(es, p) < |es| { CutLowers(es, Find(es, p)); }
  }

  lemma {:induction false} SweepLowers(es: seq<Entry>, dead: set<nat>)
    ensures Potential(Swept(es, dead)) <= Potential(es)
    ensures (exists e :: e in es && Exhausted(e, dead)) ==> Potential(Swept(es, dead)) < Potential(es)
  {
    if es != [] {
      SweepLowers(es[1..], dead);
      assert es == [es[0]] + es[1..];
      var rest := Swept(es[1..], dead);
      assert ([es[0]] + rest)[1..] == rest && [] + rest == rest;
    }
  }

  lemma {:induction false} PotentialBound(es: seq<Entry>)
    ensures Potential(es) <= (1 + NUM_RETRIES) * |es|
  {
    if es != [] { PotentialBound(es[1..]); }
  }

  lemma {:induction false} DistinctSize(es: seq<Entry>, all: set<nat>)
    requires DistinctPorts(es) && forall i :: 0 <= i < |es| ==> es[i].dport in all
    ensures |es| <= |all|
  {
    if es != [] {
      DistinctSize(es[1..], all - {es[0].dport});
    }
  }

  function Members(ports: seq<nat>): (all: set<nat>)
    ensures |all| <= |ports| && forall p :: p in ports ==> p in all
  {
    if ports == [] then {} else {ports[0]} + Members(ports[1..])
  }

  lemma {:induction false} PotentialOfAsked(g: Ledger)
    requires Fair(g)
    ensures Potential(g.es) <= (1 + NUM_RETRIES) * |g.asked|
  {
    DistinctSize(g.es, Members(g.asked));
    PotentialBound(g.es);
  }

  /** What a sweep asks to retry is pending. */
  lemma {:induction false} SweepRetries(es: seq<Entry>, dead: set<nat>)
    requires DistinctPorts(es) && forall i :: 0 <= i < |es| ==> es[i].dport != 0
    ensures var retry, rest := RetryOf(es, dead, 0), Swept(es, dead);
            retry != 0 ==> && Find(rest, retry) < |rest| && rest[Find(rest, retry)].retries < NUM_RETRIES
                           && exists e :: e in es && e.dport in dead
  {
    var retry, rest := RetryOf(es, dead, 0), Swept(es, dead);
    SweptMembers(es, dead);
    RetryIsPending(es, dead, 0);
    if retry != 0 {
      var e :| e in es && e.dport == retry && Retriable(e, dead) && e in rest;
      var k :| 0 <= k < |rest| && rest[k] == e;
      assert Find(rest, retry) == k;
    }
  }

  lemma {:induction false} SweepIsFair(g: Ledger, dead: set<nat>)
    requires Fair(g)
    ensures Fair(Drop(g, Swept(g.es, dead)))
  {
    SweptMembers(g.es, dead);
    DropIsFair(g, Swept(g.es, dead));
  }

  /** A sweep that finds a dead packet retries it or lowers the potential. */
  lemma {:induction false} SweepProgress(es: seq<Entry>, dead: set<nat>)
    requires DistinctPorts(es) && forall i :: 0 <= i < |es| ==> es[i].dport != 0
    ensures Potential(Swept(es, dead)) <= Potential(es)
    ensures RetryOf(es, dead, 0) == 0 && (exists e :: e in es && e.dport in dead) ==>
              Potential(Swept(es, dead)) < Potential(es)
  {
    RetryIsPending(es, dead, 0);
    SweepLowers(es, dead);
  }

  lemma {:induction false} RemoveIsFair(g: Ledger, p: nat)
    requires Fair(g)
    ensures Fair(Drop(g, Removed(g.es, p))) && Potential(Removed(g.es, p)) <= Potential(g.es)
  {
    RemovedMembers(g.es, p);
    DropIsFair(g, Removed(g.es, p));
    RemoveLowers(g.es, p);
  }

  // ----- the scanner -----

  /** What the sniffer returns; `rstFails` if answering a SYN-ACK with a RST does not work. */
  datatype Reply = Reply(sport: nat, synack: bool, rstFails: bool)

  /** What a run of replies does to the list: each takes its sender off it, and a RST that fails gives all up. */
  function Heard(g: Ledger, rs: seq<Reply>): Ledger
    decreases |rs|
  {
    if rs == [] then g
    else if rs[0].synack && rs[0].rstFails then Drop(g, [])
    else Heard(Drop(g, Removed(g.es, rs[0].sport)), rs[1..])
  }

  /** ... and which ports it reports: the senders of SYN-ACKs. */
  function Reported(rs: seq<Reply>): seq<nat> {
    if rs == [] then []
    else if rs[0].synack then [rs[0].sport] + if rs[0].rstFails then [] else Reported(rs[1..])
    else Reported(rs[1..])
  }

  lemma {:induction false} HeardNext(g: Ledger, found: seq<nat>, rs: seq<Reply>, i: nat)
    requires i < |rs|
    ensures Heard(g, rs[i..]) ==
            if rs[i].synack && rs[i].rstFails then Drop(g, [])
            else Heard(Drop(g, Removed(g.es, rs[i].sport)), rs[i + 1..])
    ensures found + Reported(rs[i..]) ==
            found + (if rs[i].synack then [rs[i].sport] else [])
            + if rs[i].synack && rs[i].rstFails then [] else Reported(rs[i + 1..])
  {
    assert rs[i..][1..] == rs[i + 1..];
  }

  /** A port is reported only if it answered with a SYN-ACK, and then surely if no RST failed before. */
  lemma {:induction false} ReportedAnswered(rs: seq<Reply>, p: nat)
    ensures p in Reported(rs) ==> exists i :: 0 <= i < |rs| && rs[i].synack && rs[i].sport == p
    ensures (forall i :: 0 <= i < |rs| && rs[i].synack ==> !rs[i].rstFails) ==>
              (p in Reported(rs) <==> exists i :: 0 <= i < |rs| && rs[i].synack && rs[i].sport == p)
  {
    if rs != [] {
      ReportedAnswered(rs[1..], p);
      assert forall i :: 1 <= i < |rs| ==> rs[1..][i - 1] == rs[i];
    }
  }

  /** The ports that batches of replies report, in order. */
  function AllReported(bs: seq<seq<Reply>>): seq<nat> {
    if bs == [] then [] else AllReported(bs[..|bs| - 1]) + Reported(bs[|bs| - 1])
  }

  lemma {:induction false} AllReportedMore(bs: seq<seq<Reply>>, cs: seq<seq<Reply>>)
    ensures AllReported(bs + cs) == AllReported(bs) + AllReported(cs)
  {
    if cs == [] {
      assert bs + cs == bs;
    } else {
      var n := |cs| - 1;
      AllReportedMore(bs, cs[..n]);
      assert (bs + cs)[..|bs| + n] == bs + cs[..n] && (bs + cs)[|bs| + n] == cs[n];
      Grouped(AllReported(bs), AllReported(cs[..n]), Reported(cs[n]));
    }
  }

  lemma {:induction false} Grouped(x: seq<nat>, y: seq<nat>, z: seq<nat>)
    ensures x + y + z == x + (y + z)
  {
  }

  lemma {:induction false} BatchesMore(before: seq<nat>, bs: seq<seq<Reply>>, cs: seq<seq<Reply>>)
    ensures before + AllReported(bs) + AllReported(cs) == before + AllReported(bs + cs)
  {
    AllReportedMore(bs, cs);
    Grouped(before, AllReported(bs), AllReported(cs));
  }

  /** Two runs of batches, one after the other. */
  lemma {:induction false} ReportsOfBoth(before: seq<nat>, bs: seq<seq<Reply>>, cs: seq<seq<Reply>>, found: seq<nat>)
    requires found == before + AllReported(bs) + AllReported(cs)
    ensures found == before + AllReported(bs + cs)
    ensures before == [] && NoRstFailed(bs + cs) ==> forall p :: p in found <==> AnsweredIn(bs + cs, p)
  {
    BatchesMore(before, bs, cs);
    if before == [] && NoRstFailed(bs + cs) {
      assert found == AllReported(bs + cs);
      forall p ensures p in found <==> AnsweredIn(bs + cs, p) { AllReportedAnswered(bs + cs, p); }
    }
  }

  lemma {:induction false} HeardMore(found: seq<nat>, heard: seq<seq<Reply>>, replies: seq<Reply>)
    ensures found + AllReported(heard) + Reported(replies) == found + AllReported(heard + [replies])
  {
    assert (heard + [replies])[..|heard|] == heard;
  }

  ghost predicate AnsweredIn(bs: seq<seq<Reply>>, p: nat) {
    exists k, i :: 0 <= k < |bs| && 0 <= i < |bs[k]| && bs[k][i].synack && bs[k][i].sport == p
  }

  ghost predicate NoRstFailed(bs: seq<seq<Reply>>) {
    forall k, i :: 0 <= k < |bs| && 0 <= i < |bs[k]| && bs[k][i].synack ==> !bs[k][i].rstFails
  }

  /** Over all batches a port is reported exactly if it answered with a SYN-ACK, when every RST could be sent. */
  lemma {:induction false} AllReportedAnswered(bs: seq<seq<Reply>>, p: nat)
    ensures p in AllReported(bs) ==> AnsweredIn(bs, p)
    ensures NoRstFailed(bs) ==> (p in AllReported(bs) <==> AnsweredIn(bs, p))
  {
    if bs != [] {
      var n := |bs| - 1;
      AllReportedAnswered(bs[..n], p);
      ReportedAnswered(bs[n], p);
      LastBatch(bs, n, p);
      if NoRstFailed(bs) {
        assert NoRstFailed(bs[..n]) by {
          forall k, i | 0 <= k < n && 0 <= i < |bs[..n][k]| && bs[..n][k][i].synack ensures !bs[..n][k][i].rstFails {
            assert bs[..n][k] == bs[k];
          }
        }
      }
    }
  }

  lemma {:induction false} LastBatch(bs: seq<seq<Reply>>, n: nat, p: nat)
    requires |bs| == n + 1
    ensures AnsweredIn(bs, p) <==>
            AnsweredIn(bs[..n], p) || exists i :: 0 <= i < |bs[n]| && bs[n][i].synack && bs[n][i].sport == p
  {
    if AnsweredIn(bs[..n], p) {
      var k, i :| 0 <= k < n && 0 <= i < |bs[..n][k]| && bs[..n][k][i].synack && bs[..n][k][i].sport == p;
      assert bs[k][i].synack;
    }
    if AnsweredIn(bs, p) {
      var k, i :| 0 <= k < |bs| && 0 <= i < |bs[k]| && bs[k][i].synack && bs[k][i].sport == p;
      if k < n { assert bs[..n][k][i].synack; }
    }
  }

  method OsClock() returns (now: int) {
    now := *;
  }

  method OsSendFails() returns (fails: bool) {
    fails := *;
  }

  method OsSniff() returns (replies: seq<Reply>) {
    replies := *;
  }

  method OsDead() returns (dead: set<nat>) {
    dead := *;
  }

  class Scanner {
    const packets: PacketList
    var found: seq<nat>
    ghost var g: Books

    ghost predicate Valid()
      reads this, packets, packets.nodes
    {
      packets.Valid() && g.es == packets.es
    }

    ghost predicate Pending(retry: nat)
      reads this
    {
      var k := Find(g.es, retry);
      k < |g.es| && g.es[k].retries < NUM_RETRIES
    }

    constructor ()
      ensures Valid() && fresh(packets) && packets.owned == {} && g == BLANK && found == []
    {
      packets := new PacketList();
      found, g := [], BLANK;
    }

    /** The error path of sendpacket: the list is given up. */
    method GiveUp()
      requires Valid()
      modifies `g, packets
      ensures Valid() && packets.owned == old(packets.owned) && g == Drop(old(g), []) && Potential(g.es) == 0
    {
      packets.Clear();
      DropIsFair(g, []);
      g := Drop(g, []);
    }

    method Forget(sport: nat)
      requires Valid()
      modifies `g, packets, packets.owned
      ensures Valid() && g == Drop(old(g), Removed(old(g).es, sport)) && Potential(g.es) <= old(Potential(g.es))
      ensures packets.owned == old(packets.owned)
    {
      RemoveIsFair(g, sport);
      packets.Remove(sport);
      g := Drop(g, packets.es);
    }

    /** The sniffing half of sendpacket. */
    method Sniff() returns (ghost replies: seq<Reply>)
      requires Valid()
      modifies `g, `found, packets, packets.owned
      ensures Valid() && g == Heard(old(g), replies) && found == old(found) + Reported(replies)
      ensures Potential(g.es) <= old(Potential(g.es))
      ensures g.asked == old(g).asked && g.first == old(g).first
      ensures packets.owned == old(packets.owned)
    {
      var rs := OsSniff();
      replies := rs;
      for i := 0 to |rs|
        invariant Valid() && Potential(g.es) <= old(Potential(g.es))
        invariant Heard(old(g), rs) == Heard(g, rs[i..])
        invariant old(found) + Reported(rs) == found + Reported(rs[i..])
        invariant g.asked == old(g).asked && g.first == old(g).first
        invariant packets.owned == old(packets.owned)
      {
        HeardNext(g, found, rs, i);
        var cut := Hear(rs[i]);
        if cut { return; }
      }
    }

    /** One reply; `cut` if a RST could not be sent. */
    method Hear(r: Reply) returns (cut: bool)
      requires Valid()
      modifies `g, `found, packets, packets.owned
      ensures Valid() && cut == (r.synack && r.rstFails)
      ensures g == Drop(old(g), if cut then [] else Removed(old(g).es, r.sport))
      ensures found == old(found) + (if r.synack then [r.sport] else [])
      ensures Potential(g.es) <= old(Potential(g.es))
      ensures packets.owned == old(packets.owned)
    {
      if r.synack { found := found + [r.sport]; }
      cut := r.synack && r.rstFails;
      if cut { GiveUp(); } else { Forget(r.sport); }
    }

    /** The sending half of sendpacket, for a port that is asked for. */
    method SendFirst(dport: nat) returns (ghost when: int, failed: bool)
      requires Valid() && g.first
      modifies `g, packets, packets.owned
      ensures Valid() && g.asked == old(g).asked + [dport] && g.first
      ensures var h := Ask(old(g), dport, when); g == if failed then Drop(h, []) else h
      ensures fresh(packets.owned - old(packets.owned))
    {
      var ack := OsClock();
      when, failed := ack, false;
      AskIsFair(g, dport, ack);
      g := Ask(g, dport, ack);
      if dport != 0 {
        packets.Add(dport, ack);
        failed := OsSendFails();
        if failed { GiveUp(); }
      }
    }

    /** The sending half of sendpacket in the retry loop. */
    method SendAgain(retry: nat) returns (ghost when: int, failed: bool)
      requires Valid() && (retry != 0 ==> Pending(retry))
      modifies `g, packets, packets.owned
      ensures Valid() && g.asked == old(g).asked
      ensures if retry == 0 then g == old(g)
              else g == (if failed then Drop(Again(old(g), retry, when), []) else Again(old(g), retry, when))
      ensures retry != 0 ==> Potential(g.es) < old(Potential(g.es))
      ensures fresh(packets.owned - old(packets.owned))
    {
      var ack := OsClock();
      when, failed := ack, false;
      if retry != 0 {
        AgainIsFair(g, retry, ack);
        BumpLowers(g.es, Find(g.es, retry), ack);
        g := Again(g, retry, ack);
        packets.Add(retry, ack);
        failed := OsSendFails();
        if failed { GiveUp(); }
      }
    }

    /** One sweep: a dead packet is dropped, or is pending and to be retried. */
    method Sweep() returns (retry: nat, ghost any: bool)
      requires Valid()
      modifies `g, packets, packets.owned
      ensures Valid() && g.asked == old(g).asked && g.sent == old(g).sent && (retry != 0 ==> any && Pending(retry))
      ensures Potential(g.es) <= old(Potential(g.es)) - if any && retry == 0 then 1 else 0
      ensures packets.owned == old(packets.owned)
    {
      var dead := OsDead();
      any := exists e :: e in packets.es && e.dport in dead;
      SweepIsFair(g, dead);
      SweepRetries(g.es, dead);
      SweepProgress(g.es, dead);
      retry := packets.RemoveDead(dead);
      g := Drop(g, packets.es);
    }

    /** A retry, of which a round has made those `again` since `sent` had been sent. */
    method Repeat(retry: nat, ghost sent: multiset<nat>, ghost again: seq<nat>) returns (ghost more: seq<nat>)
      requires Valid() && (retry != 0 ==> Pending(retry)) && g.sent == sent + multiset(again)
      modifies `g, packets, packets.owned
      ensures Valid() && g.asked == old(g).asked
      ensures more == (if retry == 0 then again else again + [retry]) && g.sent == sent + multiset(more)
      ensures Potential(g.es) <= old(Potential(g.es)) - if retry == 0 then 0 else 1
      ensures fresh(packets.owned - old(packets.owned))
    {
      var when, failed := SendAgain(retry);
      more := if retry == 0 then again else again + [retry];
      assert multiset(again + [retry]) == multiset(again) + multiset{retry};
    }

    method RepeatAndSweep(retry: nat, ghost sent: multiset<nat>, ghost again: seq<nat>)
      returns (next: nat, ghost more: seq<nat>)
      requires Valid() && retry != 0 && Pending(retry) && g.sent == sent + multiset(again)
      modifies `g, packets, packets.owned
      ensures Valid() && (next != 0 ==> Pending(next)) && g.asked == old(g).asked
      ensures more == again + [retry] && g.sent == sent + multiset(more)
      ensures Potential(g.es) < old(Potential(g.es))
      ensures fresh(packets.owned - old(packets.owned))
    {
      more := Repeat(retry, sent, again);
      ghost var any;
      next, any := Sweep();
    }

    /** The sends of a round, after its first sweep: up to three, as long as the sweeps ask for one. */
    method Resend(first: nat) returns (ghost again: seq<nat>, ghost last: nat)
      requires Valid() && (first != 0 ==> Pending(first))
      modifies `g, packets, packets.owned
      ensures Valid() && g.asked == old(g).asked
      ensures g.sent == old(g).sent + multiset(again) && |again| <= 3 && (|again| < 3 ==> last == 0)
      ensures if first == 0 then again == [] else again != [] && again[0] == first
      ensures Potential(g.es) <= old(Potential(g.es)) - if first != 0 then 1 else 0
      ensures fresh(packets.owned - old(packets.owned))
    {
      var i, retry := 0, first;
      again := [];
      while retry != 0 && i < 2
        invariant Valid() && (retry != 0 ==> Pending(retry)) && g.asked == old(g).asked
        invariant 0 <= i <= 2 && (i == 0 ==> retry == first) && |again| == i
        invariant g.sent == old(g).sent + multiset(again) && (i > 0 ==> first != 0 && again[0] == first)
        invariant Potential(g.es) <= old(Potential(g.es)) - if i > 0 then 1 else 0
        invariant fresh(packets.owned - old(packets.owned))
        decreases 2 - i
      {
        retry, again := RepeatAndSweep(retry, old(g).sent, again);
        i := i + 1;
      }
      last := retry;
      again := Repeat(retry, old(g).sent, again);
    }

    /** One iteration of the retry loop: the sends, after which the ledger is `sent`, and then what is heard. */
    method Round() returns (ghost any: bool, ghost again: seq<nat>, ghost sent: Ledger, ghost replies: seq<Reply>)
      requires Valid()
      modifies `g, `found, packets, packets.owned
      ensures Valid() && g.asked == old(g).asked
      ensures sent.sent == old(g).sent + multiset(again) && |again| <= 3
      ensures g == Heard(sent, replies) && found == old(found) + Reported(replies)
      ensures Potential(g.es) <= old(Potential(g.es)) - if any then 1 else 0
      ensures fresh(packets.owned - old(packets.owned))
    {
      var retry;
      retry, any := Sweep();
      ghost var last;
      again, last := Resend(retry);
      sent := g;
      replies := Sniff();
    }

    /**
     The first `limit` iterations of the retry loop, or all of them if the list empties.  An iteration
     that finds a dead packet lowers the potential; `idle` counts the others, which only time can end.
     Each one hears a batch of replies.
     */
    method RetryLoop(limit: nat) returns (rounds: nat, ghost idle: nat, ghost heard: seq<seq<Reply>>)
      requires Valid()
      modifies `g, `found, packets, packets.owned
      ensures Valid() && g.asked == old(g).asked && (rounds == limit || g.es == [])
      ensures rounds + Potential(g.es) <= old(Potential(g.es)) + idle
      ensures |heard| == rounds && found == old(found) + AllReported(heard)
    {
      rounds, idle, heard := 0, 0, [];
      while packets.head != null && rounds < limit
        invariant Valid() && g.asked == old(g).asked && rounds <= limit
        invariant rounds + Potential(g.es) <= old(Potential(g.es)) + idle
        invariant |heard| == rounds && found == old(found) + AllReported(heard)
        invariant fresh(packets.owned - old(packets.owned))
      {
        ghost var any, again, sent, replies := Round();
        HeardMore(old(found), heard, replies);
        heard := heard + [replies];
        rounds := rounds + 1;
        if !any { idle := idle + 1; }
      }
    }

    /** One port, and after every second one a batch of replies; so far `heard` was reported after `before`. */
    method AskOne(ports: seq<nat>, i: nat, ghost before: seq<nat>, ghost heard: seq<seq<Reply>>)
      returns (ghost more: seq<seq<Reply>>)
      requires Valid() && i < |ports| && g.asked == ports[..i] && g.first
      requires found == before + AllReported(heard)
      modifies `g, `found, packets, packets.owned
      ensures Valid() && g.asked == ports[..i + 1] && g.first
      ensures heard <= more && |more| == |heard| + i % 2 && found == before + AllReported(more)
      ensures fresh(packets.owned - old(packets.owned))
    {
      assert ports[..i + 1] == ports[..i] + [ports[i]];
      more := heard;
      var when, failed := SendFirst(ports[i]);
      if i % 2 == 1 {
        ghost var replies := Sniff();
        HeardMore(before, heard, replies);
        more := heard + [replies];
      }
    }

    /** The loop over the ports. */
    method AskAll(ports: seq<nat>) returns (ghost heard: seq<seq<Reply>>)
      requires Valid() && packets.owned == {} && g == BLANK
      modifies `g, `found, packets
      ensures Valid() && g.asked == ports
      ensures |heard| == |ports| / 2 && found == old(found) + AllReported(heard)
      ensures fresh(packets.owned)
    {
      heard := [];
      for i := 0 to |ports|
        invariant Valid() && g.asked == ports[..i] && g.first
        invariant |heard| == i / 2 && found == old(found) + AllReported(heard)
        invariant fresh(packets.owned)
      {
        heard := AskOne(ports, i, old(found), heard);
      }
    }

    /**
     A whole IPv4 scan.  A port asked for m times is sent at most m + NUM_RETRIES packets; if no port is
     asked for twice, none is sent after its port has left the list.  What it reports are the SYN-ACKs heard,
     once after every second port and once in each round: AllReportedAnswered.
     */
    method Scan(ports: seq<nat>, limit: nat) returns (rounds: nat, ghost idle: nat, ghost heard: seq<seq<Reply>>)
      requires Valid() && packets.owned == {} && g == BLANK
      modifies `g, `found, packets
      ensures forall p :: g.sent[p] <= multiset(ports)[p] + NUM_RETRIES
      ensures NoDuplicates(ports) ==> g.late == {}
      ensures rounds == limit || g.es == []
      ensures rounds + Potential(g.es) <= (1 + NUM_RETRIES) * |ports| + idle
      ensures |heard| == |ports| / 2 + rounds && found == old(found) + AllReported(heard)
      ensures old(found) == [] && NoRstFailed(heard) ==> forall p :: p in found <==> AnsweredIn(heard, p)
    {
      ghost var first := AskAll(ports);
      PotentialOfAsked(g);
      ghost var rest;
      rounds, idle, rest := RetryLoop(limit);
      ReportsOfBoth(old(found), first, rest, found);
      heard := first + rest;
    }
  }
}
