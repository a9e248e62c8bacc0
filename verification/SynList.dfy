/** The doubly linked list itself (nasl/nasl_builtin_synscan.c:248-370), proved against SynPackets. */
module SynList {
  import opened SynPackets

  class Node {
    var dport: nat
    var when: int
    var retries: nat
    var prev: Node?
    var next: Node?

    constructor (dport: nat, when: int, next: Node?)
      ensures this.dport == dport && this.when == when && this.retries == 0
      ensures this.prev == null && this.next == next
    {
      this.dport, this.when, this.retries, this.prev, this.next := dport, when, 0, null, next;
    }
  }

  class PacketList {
    var head: Node?
    ghost var nodes: seq<Node>
    ghost var owned: set<Node>      // all nodes the list has ever had
    ghost var es: seq<Entry>

    ghost function At(i: int): Node?
      reads `nodes
    {
      if 0 <= i < |nodes| then nodes[i] else null
    }

    /** The links run through the nodes, both ways. */
    ghost predicate Chain()
      reads `head, `nodes, nodes`prev, nodes`next
    {
      && head == At(0)
      && (forall i, j :: 0 <= i < j < |nodes| ==> nodes[i] != nodes[j])
      && (forall i {:trigger nodes[i].prev} :: 0 <= i < |nodes| ==> nodes[i].prev == At(i - 1))
      && (forall i {:trigger nodes[i].next} :: 0 <= i < |nodes| ==> nodes[i].next == At(i + 1))
    }

    /** The nodes carry the entries. */
    ghost predicate Carries()
      reads `nodes, `es, nodes`dport, nodes`when, nodes`retries
    {
      && |es| == |nodes|
      && (forall i {:trigger es[i]} :: 0 <= i < |nodes| ==>
            es[i] == Entry(nodes[i].dport, nodes[i].when, nodes[i].retries))
    }

    ghost predicate Valid()
      reads this, nodes
    {
      Chain() && Carries() && DistinctPorts(es) && forall i :: 0 <= i < |nodes| ==> nodes[i] in owned
    }

    constructor ()
      ensures Valid() && es == [] && nodes == [] && owned == {}
    {
      head, nodes, es, owned := null, [], [], {};
    }

    /** The list pointer set to NULL. */
    method Clear()
      modifies `head, `nodes, `es
      ensures Valid() && es == [] && nodes == []
    {
      head, nodes, es := null, [], [];
    }

    /** get_packet */
    method Get(dport: nat) returns (p: Node?, ghost k: nat)
      requires Valid()
      ensures k == Find(es, dport) && p == At(k)
    {
      p, k := head, 0;
      while p != null
        invariant k <= |nodes| && p == At(k) && Find(es, dport) == k + Find(es[k..], dport)
        decreases |nodes| - k
      {
        if p.dport == dport { return; }
        p, k := p.next, k + 1;
      }
    }

    /** add_packet */
    method Add(dport: nat, ack: int)
      requires Valid()
      modifies this, nodes
      ensures Valid() && es == Added(old(es), dport, ack)
      ensures fresh(owned - old(owned))
    {
      var p, k := Get(dport);
      if p != null {
        p.retries := p.retries + 1;
        p.when := ack;
        es := es[k := Bump(es[k], ack)];
      } else {
        AddNew(dport, ack);
      }
    }

    method AddNew(dport: nat, ack: int)
      requires Valid() && Find(es, dport) == |es|
      modifies `head, `nodes, `es, `owned, nodes`prev
      ensures Valid() && es == [Entry(dport, ack, 0)] + old(es)
      ensures fresh(owned - old(owned))
    {
      var n := new Node(dport, ack, head);
      Prepend(n);
      es, owned := [Entry(dport, ack, 0)] + es, owned + {n};
      assert forall i :: 1 <= i < |es| ==> es[i] == old(es)[i - 1] && nodes[i] == old(nodes)[i - 1];
    }

    method Prepend(n: Node)
      requires Chain() && n !in nodes && n.next == head && n.prev == null
      modifies `head, `nodes, nodes`prev
      ensures Chain() && nodes == [n] + old(nodes)
    {
      if n.next != null { n.next.prev := n; }
      head, nodes := n, [n] + nodes;
      assert forall i :: 1 <= i < |nodes| ==> nodes[i] == old(nodes)[i - 1];
    }

    method Relink(p: Node, ghost k: nat)
      requires Chain() && k < |nodes| && p == nodes[k]
      modifies `head, `nodes, nodes`prev, nodes`next
      ensures Chain() && nodes == old(nodes[..k] + nodes[k + 1..])
    {
      if p.next != null { p.next.prev := p.prev; }
      if p.prev != null { p.prev.next := p.next; } else { head := p.next; }
      nodes := nodes[..k] + nodes[k + 1..];
      assert forall i :: 0 <= i < |nodes| ==> nodes[i] == old(nodes)[if i < k then i else i + 1];
    }

    /** The unlinking of `p` that rm_packet and rm_dead_packets share. */
    method Unlink(p: Node, ghost k: nat)
      requires Valid() && k < |nodes| && p == nodes[k]
      modifies `head, `nodes, `es, nodes`prev, nodes`next
      ensures Valid() && es == old(es[..k] + es[k + 1..]) && nodes == old(nodes[..k] + nodes[k + 1..])
    {
      Relink(p, k);
      es := es[..k] + es[k + 1..];
      assert forall i :: 0 <= i < |es| ==> es[i] == old(es)[if i < k then i else i + 1];
    }

    /** rm_packet */
    method Remove(dport: nat)
      requires Valid()
      modifies this, nodes
      ensures Valid() && es == Removed(old(es), dport)
      ensures owned == old(owned)
    {
      var p, k := Get(dport);
      if p != null { Unlink(p, k); }
    }

    /** rm_dead_packets; `dead` are the ports whose packets packetdead would call dead. */
    method RemoveDead(dead: set<nat>) returns (retry: nat)
      requires Valid()
      modifies this, nodes
      ensures Valid() && es == Swept(old(es), dead) && retry == RetryOf(old(es), dead, 0)
      ensures owned == old(owned)
    {
      var p := head;
      ghost var k := 0;
      retry := 0;
      while p != null
        invariant Valid() && 0 <= k <= |nodes| && p == At(k)
        invariant owned == old(owned) && forall i :: 0 <= i < |nodes| ==> nodes[i] in old(nodes)
        invariant Sweeping(old(es), es, k, dead, retry)
        decreases |nodes| - k
      {
        var next := p.next;
        if p.dport in dead && p.retries >= NUM_RETRIES {
          SweepDrops(old(es), es, k, dead, retry);
          Unlink(p, k);
        } else {
          SweepKeeps(old(es), es, k, dead, retry);
          if p.dport in dead { retry := p.dport; }
          k := k + 1;
        }
        p := next;
      }
    }
  }
}
