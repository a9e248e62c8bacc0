/**
 The pending packets of the SYN scanner (nasl/nasl_builtin_synscan.c).

 Operations on a sequence of entries, as the code performs them on its list, and their meaning:
 insert-or-bump, delete and drop-the-dead on a map from port to entry.
 */
module SynPackets {

  const NUM_RETRIES := 2

  datatype Entry = Entry(dport: nat, when: int, retries: nat)

  function Bump(e: Entry, when: int): Entry {
    Entry(e.dport, when, e.retries + 1)
  }

  predicate Exhausted(e: Entry, dead: set<nat>) {
    e.dport in dead && e.retries >= NUM_RETRIES
  }

  predicate Retriable(e: Entry, dead: set<nat>) {
    e.dport in dead && e.retries < NUM_RETRIES
  }

  ghost predicate DistinctPorts(es: seq<Entry>) {
    forall i, j :: 0 <= i < j < |es| ==> es[i].dport != es[j].dport
  }

  // ----- on sequences -----

  /** Where get_packet stops; |es| if it finds nothing. */
  function Find(es: seq<Entry>, p: nat): (k: nat)
    ensures k <= |es| && (k < |es| ==> es[k].dport == p)
    ensures forall i :: 0 <= i < k ==> es[i].dport != p
  {
    if es == [] || es[0].dport == p then 0
    else
      var k := Find(es[1..], p);
      assert forall i :: 1 <= i < 1 + k ==> es[i] == es[1..][i - 1];
      1 + k
  }

  function Added(es: seq<Entry>, p: nat, when: int): seq<Entry> {
    var k := Find(es, p);
    if k < |es| then es[k := Bump(es[k], when)] else [Entry(p, when, 0)] + es
  }

  function Removed(es: seq<Entry>, p: nat): seq<Entry> {
    var k := Find(es, p);
    if k < |es| then es[..k] + es[k + 1..] else es
  }

  function Swept(es: seq<Entry>, dead: set<nat>): seq<Entry> {
    if es == [] then []
    else (if Exhausted(es[0], dead) then [] else [es[0]]) + Swept(es[1..], dead)
  }

  /** The port a sweep asks to retry: the last dead one with retries left, or else `retry`. */
  function RetryOf(es: seq<Entry>, dead: set<nat>, retry: nat): nat {
    if es == [] then retry
    else RetryOf(es[1..], dead, if Retriable(es[0], dead) then es[0].dport else retry)
  }

  /** A sweep of `es0` under way: `k` entries of what is now `es` are done. */
  ghost predicate Sweeping(es0: seq<Entry>, es: seq<Entry>, k: nat, dead: set<nat>, retry: nat) {
    && k <= |es|
    && Swept(es0, dead) == es[..k] + Swept(es[k..], dead)
    && RetryOf(es0, dead, 0) == RetryOf(es[k..], dead, retry)
  }

  lemma {:induction false} SweepDrops(es0: seq<Entry>, es: seq<Entry>, k: nat, dead: set<nat>, retry: nat)
    requires Sweeping(es0, es, k, dead, retry) && k < |es| && Exhausted(es[k], dead)
    ensures Sweeping(es0, es[..k] + es[k + 1..], k, dead, retry)
  {
    var r := es[..k] + es[k + 1..];
    assert r[..k] == es[..k] && r[k..] == es[k..][1..];
  }

  lemma {:induction false} SweepKeeps(es0: seq<Entry>, es: seq<Entry>, k: nat, dead: set<nat>, retry: nat)
    requires Sweeping(es0, es, k, dead, retry) && k < |es| && !Exhausted(es[k], dead)
    ensures Sweeping(es0, es, k + 1, dead, if es[k].dport in dead then es[k].dport else retry)
  {
    assert es[..k + 1] == es[..k] + [es[k]] && es[k + 1..] == es[k..][1..];
  }

  // ----- on maps -----

  /** The list and the map hold the same entries, at most one for a port. */
  ghost predicate Represents(es: seq<Entry>, t: map<nat, Entry>) {
    && DistinctPorts(es)
    && (forall i :: 0 <= i < |es| ==> es[i].dport in t && t[es[i].dport] == es[i])
    && (forall p :: p in t ==> t[p].dport == p && t[p] in es)
  }

  lemma {:induction false} FindMissing(es: seq<Entry>, t: map<nat, Entry>, p: nat)
    requires Represents(es, t)
    ensures Find(es, p) < |es| <==> p in t
  {
    if p in t {
      var i :| 0 <= i < |es| && es[i] == t[p];
    }
  }

  lemma {:induction false} AddedIsInsertOrBump(es: seq<Entry>, t: map<nat, Entry>, p: nat, when: int)
    requires Represents(es, t)
    ensures Represents(Added(es, p, when), t[p := if p in t then Bump(t[p], when) else Entry(p, when, 0)])
  {
    FindMissing(es, t, p);
    var r, k := Added(es, p, when), Find(es, p);
    var t' := t[p := if p in t then Bump(t[p], when) else Entry(p, when, 0)];
    forall q | q in t' ensures t'[q].dport == q && t'[q] in r {
      if q == p {
        assert r[if k < |es| then k else 0] == t'[q];
      } else {
        var i :| 0 <= i < |es| && es[i] == t[q];
        assert r[if k < |es| then i else i + 1] == t'[q];
      }
    }
  }

  lemma {:induction false} RemovedMembers(es: seq<Entry>, p: nat)
    requires DistinctPorts(es)
    ensures forall e :: e in Removed(es, p) <==> e in es && e.dport != p
    ensures DistinctPorts(Removed(es, p))
  {
    var r, k := Removed(es, p), Find(es, p);
    if k < |es| {
      forall e ensures e in r <==> e in es && e.dport != p { RemovedMember(es, p, k, r, e); }
      forall i, j | 0 <= i < j < |r| ensures r[i].dport != r[j].dport {
        assert r[i] == es[if i < k then i else i + 1] && r[j] == es[if j < k then j else j + 1];
      }
    }
  }

  lemma {:induction false} RemovedMember(es: seq<Entry>, p: nat, k: nat, r: seq<Entry>, e: Entry)
    requires DistinctPorts(es) && k < |es| && es[k].dport == p && r == es[..k] + es[k + 1..]
    ensures e in r <==> e in es && e.dport != p
  {
    if e in r {
      var i :| 0 <= i < |r| && r[i] == e;
      assert es[if i < k then i else i + 1] == e;
    }
    if e in es && e.dport != p {
      var i :| 0 <= i < |es| && es[i] == e;
      assert r[if i < k then i else i - 1] == e;
    }
  }

  lemma {:induction false} RemovedIsDelete(es: seq<Entry>, t: map<nat, Entry>, p: nat)
    requires Represents(es, t)
    ensures Represents(Removed(es, p), t - {p})
  {
    RemovedMembers(es, p);
    var r := Removed(es, p);
    forall i | 0 <= i < |r| ensures r[i] in es && r[i].dport != p { assert r[i] in r; }
  }

  lemma {:induction false} SweptMembers(es: seq<Entry>, dead: set<nat>)
    requires DistinctPorts(es)
    ensures forall e :: e in Swept(es, dead) <==> e in es && !Exhausted(e, dead)
    ensures DistinctPorts(Swept(es, dead))
  {
    if es != [] {
      SweptMembers(es[1..], dead);
      assert es == [es[0]] + es[1..];
      var rest := Swept(es[1..], dead);
      forall i | 0 <= i < |rest| ensures rest[i].dport != es[0].dport { assert rest[i] in es[1..]; }
    }
  }

  lemma {:induction false} SweptIsFilter(es: seq<Entry>, t: map<nat, Entry>, dead: set<nat>)
    requires Represents(es, t)
    ensures Represents(Swept(es, dead), map p | p in t && !Exhausted(t[p], dead) :: t[p])
  {
    SweptMembers(es, dead);
    var r := Swept(es, dead);
    forall i | 0 <= i < |r| ensures r[i] in es && !Exhausted(r[i], dead) { assert r[i] in r; }
  }

  /** What a sweep asks to retry is a dead packet with retries left that is still in the list. */
  lemma {:induction false} RetryIsPending(es: seq<Entry>, dead: set<nat>, retry: nat)
    requires DistinctPorts(es)
    ensures var p := RetryOf(es, dead, retry);
            if exists e :: e in es && Retriable(e, dead)
            then exists e :: e in es && e.dport == p && Retriable(e, dead) && e in Swept(es, dead)
            else p == retry
  {
    SweptMembers(es, dead);
    if es != [] {
      assert es == [es[0]] + es[1..];
      RetryIsPending(es[1..], dead, if Retriable(es[0], dead) then es[0].dport else retry);
      if Retriable(es[0], dead) && !(exists e :: e in es[1..] && Retriable(e, dead)) {
        assert es[0] in es && es[0] in Swept(es, dead);
      }
    }
  }
}
