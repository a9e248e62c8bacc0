/**
 Every event of the connect scanner keeps the invariant, takes back no verdict, and lowers the pass's
 measure.  The two halves of the invariant are kept independently of each other.
 */
module TcpScanSteps {
  import opened TcpScanState

  // ----- counting -----

  lemma {:induction false} CountSet(s: seq<Socket>, i: nat, x: Socket, st: SockState)
    requires i < |s|
    ensures CountState(s[i := x], st) ==
            CountState(s, st) - (if s[i].state == st then 1 else 0) + (if x.state == st then 1 else 0)
  {
    var n := |s| - 1;
    if i < n {
      CountSet(s[..n], i, x, st);
      assert s[i := x][..n] == s[..n][i := x];
    } else {
      assert s[i := x][..n] == s[..n];
    }
  }

  lemma {:induction false} CountAppend(s: seq<Socket>, x: Socket, st: SockState)
    ensures CountState(s + [x], st) == CountState(s, st) + (if x.state == st then 1 else 0)
  {
    assert (s + [x])[..|s|] == s;
  }

  lemma {:induction false} UnknownSet(ports: seq<PortState>, p: nat, x: PortState)
    requires |ports| == PORTS && ScanPort(p)
    ensures UnknownNb(ports[p := x]) ==
            UnknownNb(ports) - (if ports[p] == Unknown then 1 else 0) + (if x == Unknown then 1 else 0)
  {
    assert ports[p := x][1..] == ports[1..][p - 1 := x];
  }

  // ----- the live sockets -----

  lemma {:induction false} LiveOnlyConcat(a: seq<Socket>, b: seq<Socket>)
    ensures LiveOnly(a + b) == LiveOnly(a) + LiveOnly(b)
  {
    if b == [] {
      assert a + b == a;
    } else {
      var n := |b| - 1;
      LiveOnlyConcat(a, b[..n]);
      assert (a + b)[..|a| + n] == a + b[..n];
    }
  }

  lemma {:induction false} LiveOnlyAll(a: seq<Socket>)
    requires forall i :: 0 <= i < |a| ==> Live(a[i])
    ensures LiveOnly(a) == a
  {
    if a != [] { LiveOnlyAll(a[..|a| - 1]); }
  }

  lemma {:induction false} LiveOnlyNone(a: seq<Socket>)
    requires forall i :: 0 <= i < |a| ==> !Live(a[i])
    ensures LiveOnly(a) == []
  {
    if a != [] { LiveOnlyNone(a[..|a| - 1]); }
  }

  lemma {:induction false} LiveOnlyMembers(a: seq<Socket>)
    ensures forall x :: x in LiveOnly(a) <==> x in a && Live(x)
  {
    if a != [] {
      LiveOnlyMembers(a[..|a| - 1]);
      assert a == a[..|a| - 1] + [a[|a| - 1]];
    }
  }

  lemma {:induction false} LiveOnlyCounts(a: seq<Socket>, st: SockState)
    requires st != Unused
    ensures CountState(LiveOnly(a), st) == CountState(a, st)
  {
    if a != [] {
      var n := |a| - 1;
      LiveOnlyCounts(a[..n], st);
      CountAppend(LiveOnly(a[..n]), a[n], st);
      assert LiveOnly(a[..n]) + [] == LiveOnly(a[..n]);
    }
  }

  lemma {:induction false} LiveOnlyDistinct(a: seq<Socket>)
    requires Distinct(a)
    ensures Distinct(LiveOnly(a))
  {
    if a != [] {
      var n := |a| - 1;
      var b := LiveOnly(a[..n]);
      LiveOnlyDistinct(a[..n]);
      LiveOnlyMembers(a[..n]);
      if Live(a[n]) {
        forall k | 0 <= k < |b| ensures b[k].port != a[n].port && b[k].fd != a[n].fd {
          assert b[k] in a[..n];
        }
      }
    }
  }

  lemma {:induction false} SameOwners(a: seq<Socket>)
    ensures forall p :: Owned(LiveOnly(a), p) <==> Owned(a, p)
  {
    LiveOnlyMembers(a);
    var b := LiveOnly(a);
    forall p ensures Owned(b, p) <==> Owned(a, p) {
      if Owned(b, p) {
        var i :| 0 <= i < |b| && Live(b[i]) && b[i].port == p;
        assert b[i] in a;
      }
      if Owned(a, p) {
        var i :| 0 <= i < |a| && Live(a[i]) && a[i].port == p;
        assert a[i] in b;
      }
    }
  }

  /** A freed slot has both its state and its descriptor reset. */
  ghost predicate FreedMarked(t: seq<Socket>) {
    forall k :: 0 <= k < |t| ==> (t[k].fd < 0 <==> !Live(t[k]))
  }

  lemma {:induction false} GapMarked(t: seq<Socket>, i: nat, j: nat)
    requires i <= j <= |t| && FreedMarked(t)
    ensures FreedMarked(t[..i] + t[j..])
  {
  }

  /** Cutting a stretch of dead slots out of the table loses no live socket. */
  lemma {:induction false} GapSqueezed(t: seq<Socket>, i: nat, j: nat)
    requires i <= j <= |t| && forall k :: i <= k < j ==> !Live(t[k])
    ensures LiveOnly(t[..i] + t[j..]) == LiveOnly(t)
  {
    var a, b, c := t[..i], t[i..j], t[j..];
    LiveOnlyNone(b);
    calc {
      LiveOnly(t);
      { assert t == a + (b + c); }
      LiveOnly(a + (b + c));
      { LiveOnlyConcat(a, b + c); LiveOnlyConcat(b, c); }
      LiveOnly(a) + LiveOnly(c);
      { LiveOnlyConcat(a, c); }
      LiveOnly(a + c);
    }
  }

  // ----- the socket table -----

  /** A port that owns no socket moves from UNKNOWN to `x`. */
  lemma {:induction false} TableUntouched(v: View, r: View, p: nat, x: PortState)
    requires Table(v) && Fresh(v, p)
    requires r.ports == v.ports[p := x] && r.socks == v.socks && r.wait == v.wait
    requires r.leaked == if x == Testing then v.leaked + {p} else v.leaked
    ensures Table(r)
  {
    assert forall i :: 0 <= i < |v.socks| ==> SlotOk(v.socks[i], v.ports) && SlotOk(r.socks[i], r.ports);
    assert !Owned(v.socks, p);
  }

  /** A new socket `s` takes the next slot. */
  lemma {:induction false} TableAppended(v: View, r: View, s: Socket, x: PortState)
    requires Table(v) && Fresh(v, s.port) && NewFd(v, s.fd) && Live(s)
    requires x == if s.state == Opened then Open else Testing
    requires r.ports == v.ports[s.port := x] && r.socks == v.socks + [s] && r.leaked == v.leaked
    requires r.wait == v.wait + (if s.state == Opened then 1 else 0)
    ensures Table(r)
  {
    CountAppend(v.socks, s, Opened);
    forall k | 0 <= k < |v.socks|
      ensures SlotOk(r.socks[k], r.ports) && (Live(v.socks[k]) ==> v.socks[k].port != s.port)
    {
      assert SlotOk(v.socks[k], v.ports);
    }
    forall q | ScanPort(q) && r.ports[q] == Testing ensures q in r.leaked || Owned(r.socks, q) {
      if q == s.port {
        assert r.socks[|v.socks|] == s;
      } else if Owned(v.socks, q) {
        var i :| 0 <= i < |v.socks| && Live(v.socks[i]) && v.socks[i].port == q;
        assert v.socks[i] == r.socks[i];
      }
    }
  }

  /** Slot `i` is freed or becomes OPEN, and its port moves to `x`. */
  lemma {:induction false} TableSettled(v: View, r: View, i: nat, s: Socket, x: PortState)
    requires Table(v) && i < |v.socks| && Live(v.socks[i]) && SlotOk(v.socks[i], v.ports)
    requires s == if s.state == Opened then v.socks[i].(state := Opened) else Freed(v.socks[i])
    requires s.state == Opened ==> x == Open
    requires x != Testing && x != Unknown
    requires r.ports == v.ports[v.socks[i].port := x] && r.socks == v.socks[i := s] && r.leaked == v.leaked
    requires r.wait == v.wait - (if v.socks[i].state == Opened then 1 else 0) + (if s.state == Opened then 1 else 0)
    ensures Table(r)
  {
    CountSet(v.socks, i, s, Opened);
    forall k | 0 <= k < |r.socks| ensures SlotOk(r.socks[k], r.ports) {
      assert SlotOk(v.socks[k], v.ports);
    }
    forall q | ScanPort(q) && r.ports[q] == Testing ensures q in r.leaked || Owned(r.socks, q) {
      if Owned(v.socks, q) {
        var k :| 0 <= k < |v.socks| && Live(v.socks[k]) && v.socks[k].port == q;
        assert k != i && r.socks[k] == v.socks[k];
      }
    }
  }

  lemma {:induction false} TablePacked(v: View)
    requires Table(v)
    ensures Table(v.(socks := LiveOnly(v.socks)))
  {
    var r := v.(socks := LiveOnly(v.socks));
    LiveOnlyMembers(v.socks);
    LiveOnlyDistinct(v.socks);
    LiveOnlyCounts(v.socks, Opened);
    SameOwners(v.socks);
    forall k | 0 <= k < |r.socks| ensures SlotOk(r.socks[k], r.ports) {
      assert r.socks[k] in v.socks;
    }
  }

  lemma {:induction false} EventTable(v: View, e: Event, pass: nat)
    requires Table(v) && Legal(v, e)
    ensures Table(Apply(v, e, pass))
  {
    var r := Apply(v, e, pass);
    match e {
      case Dropped(p, _) => TableUntouched(v, r, p, Testing);
      case FailedNow(p, x) => TableUntouched(v, r, p, x);
      case Begun(p, fd) => TableAppended(v, r, Socket(fd, p, Opening), Testing);
      case OpenedNow(p, fd) => TableAppended(v, r, Socket(fd, p, Opened), Open);
      case Settled(i, x) => TableSettled(v, r, i, r.socks[i], x);
      case Finished(i) =>
        assert v.ports[v.socks[i].port := Open] == v.ports;
        TableSettled(v, r, i, r.socks[i], Open);
      case Packed => TablePacked(v);
    }
  }

  // ----- counters, reports and probes -----

  /** Port `p`, so far without a verdict, takes state `x`. */
  ghost predicate Movable(v: View, p: nat, x: PortState) {
    && |v.ports| == PORTS && ScanPort(p) && (v.ports[p] == Unknown || v.ports[p] == Testing)
    && x != Unknown && x != NotTested
  }

  lemma {:induction false} TallyReports(v: View, p: nat, x: PortState)
    requires Movable(v, p, x) && ReportsOk(v.ports, v.reported)
    ensures var r := Tally(v, p, x); ReportsOk(r.ports, r.reported)
  {
    var r := Tally(v, p, x);
    assert p !in v.reported;
    forall q | 0 <= q < PORTS && r.ports[q] == Open ensures q in r.reported {
      if q == p { assert r.reported[|v.reported|] == p; } else { assert v.ports[q] == Open; }
    }
  }

  lemma {:induction false} TallyBooks(v: View, p: nat, x: PortState, pass: nat)
    requires Movable(v, p, x) && Books(v, pass)
    ensures Books(Tally(v, p, x), pass)
  {
    var r := Tally(v, p, x);
    assert r.ports == v.ports[p := x] && r.probes == v.probes;
    TallyReports(v, p, x);
    assert ProbesOk(r.probes, r.ports, pass);
    assert CountersOk(r);
  }

  /** The connect call of an attempt is new in this pass, since its port was UNKNOWN. */
  lemma {:induction false} NewProbe(v: View, p: nat, x: PortState, pass: nat)
    requires Fresh(v, p) && x != Unknown && ProbesOk(v.probes, v.ports, pass) && 1 <= pass
    ensures ProbesOk(v.probes + [Probe(pass, p)], v.ports[p := x], pass)
  {
  }

  lemma {:induction false} AttemptBooks(v: View, p: nat, x: PortState, r: View, pass: nat)
    requires Fresh(v, p) && Movable(v, p, x) && Books(v, pass) && 1 <= pass
    requires r == Tally(v, p, x).(socks := r.socks, wait := r.wait, leaked := r.leaked, probes := r.probes)
    requires r.probes == v.probes || r.probes == v.probes + [Probe(pass, p)]
    ensures Books(r, pass)
  {
    TallyBooks(v, p, x, pass);
    NewProbe(v, p, x, pass);
    assert ReportsOk(r.ports, r.reported);
  }

  lemma {:induction false} EventBooks(v: View, e: Event, pass: nat)
    requires Books(v, pass) && Legal(v, e) && 1 <= pass
    ensures Books(Apply(v, e, pass), pass)
  {
    var r := Apply(v, e, pass);
    match e {
      case Dropped(p, _) => AttemptBooks(v, p, Testing, r, pass);
      case FailedNow(p, x) => AttemptBooks(v, p, x, r, pass);
      case Begun(p, fd) => AttemptBooks(v, p, Testing, r, pass);
      case OpenedNow(p, fd) => AttemptBooks(v, p, Open, r, pass);
      case Settled(i, x) => TallyBooks(v, v.socks[i].port, x, pass);
      case Finished(i) =>
      case Packed =>
    }
  }

  // ----- verdicts and measure -----

  lemma {:induction false} TallyKeeps(v: View, p: nat, x: PortState)
    requires Movable(v, p, x)
    ensures KeepsInPass(v, Tally(v, p, x))
  {
    var r := Tally(v, p, x);
    assert r.ports == v.ports[p := x] && v.reported <= r.reported;
  }

  /** Whatever a legal event does, verdicts and reports stand and every port stays counted. */
  lemma {:induction false} EventKeeps(v: View, e: Event, pass: nat)
    requires Legal(v, e)
    ensures KeepsInPass(v, Apply(v, e, pass))
  {
    match e {
      case Dropped(p, _) => TallyKeeps(v, p, Testing);
      case FailedNow(p, x) => TallyKeeps(v, p, x);
      case Begun(p, fd) => TallyKeeps(v, p, Testing);
      case OpenedNow(p, fd) => TallyKeeps(v, p, Open);
      case Settled(i, x) => TallyKeeps(v, v.socks[i].port, x);
      case Finished(i) =>
      case Packed =>
    }
  }

  /** Every event but housekeeping lowers the measure. */
  lemma {:induction false} EventMeasure(v: View, e: Event, pass: nat)
    requires Legal(v, e)
    ensures |v.ports| == |Apply(v, e, pass).ports| == PORTS
    ensures if e == Packed then Measure(Apply(v, e, pass)) == Measure(v) else Measure(Apply(v, e, pass)) < Measure(v)
  {
    var r := Apply(v, e, pass);
    match e {
      case Dropped(p, _) => UnknownSet(v.ports, p, Testing);
      case FailedNow(p, x) => UnknownSet(v.ports, p, x);
      case Begun(p, fd) => UnknownSet(v.ports, p, Testing); CountsAppend(v.socks, Socket(fd, p, Opening));
      case OpenedNow(p, fd) => UnknownSet(v.ports, p, Open); CountsAppend(v.socks, Socket(fd, p, Opened));
      case Settled(i, x) => UnknownSet(v.ports, v.socks[i].port, x); CountsSet(v.socks, i, r.socks[i]);
      case Finished(i) => CountsSet(v.socks, i, r.socks[i]);
      case Packed => LiveOnlyCounts(v.socks, Opening); LiveOnlyCounts(v.socks, Opened);
    }
  }

  lemma {:induction false} CountsAppend(s: seq<Socket>, x: Socket)
    requires Live(x)
    ensures 2 * CountState(s + [x], Opening) + CountState(s + [x], Opened)
            <= 2 * CountState(s, Opening) + CountState(s, Opened) + 2
  {
    CountAppend(s, x, Opening);
    CountAppend(s, x, Opened);
  }

  lemma {:induction false} CountsSet(s: seq<Socket>, i: nat, x: Socket)
    requires i < |s| && Live(s[i]) && (s[i].state == Opened ==> !Live(x)) && x.state != Opening
    ensures 2 * CountState(s[i := x], Opening) + CountState(s[i := x], Opened)
            < 2 * CountState(s, Opening) + CountState(s, Opened)
  {
    CountSet(s, i, x, Opening);
    CountSet(s, i, x, Opened);
  }

  lemma {:induction false} KeepsTransitive(a: View, b: View, c: View)
    requires Keeps(a, b) && Keeps(b, c)
    ensures Keeps(a, c)
  {
    assert forall i :: 0 <= i < |a.reported| ==> a.reported[i] == b.reported[i];
    assert forall i :: 0 <= i < |a.probes| ==> a.probes[i] == b.probes[i];
  }

  lemma {:induction false} KeepsInPassTransitive(a: View, b: View, c: View)
    requires KeepsInPass(a, b) && KeepsInPass(b, c)
    ensures KeepsInPass(a, c)
  {
    KeepsTransitive(a, b, c);
  }

  // ----- between passes -----

  lemma {:induction false} RequeueCounts(ports: seq<PortState>, k: nat, st: PortState)
    requires k <= |ports| && Verdict(st)
    ensures multiset(RequeueUpTo(ports, k))[st] == multiset(ports)[st]
  {
    if k > 1 { RequeueCounts(ports, k - 1, st); }
  }

  lemma {:induction false} NextStartTable(v: View, requeue: bool, untested: int)
    requires Table(v) && v.socks == []
    ensures Table(NextStart(v, requeue, untested))
  {
  }

  /** The next pass may probe the silent ports again: this one's probes no longer bind them. */
  lemma {:induction false} NextStartBooks(v: View, pass: nat, requeue: bool, untested: int)
    requires Books(v, pass)
    ensures var r := NextStart(v, requeue, untested); Books(r, pass + 1) && ProbedBefore(r, pass + 1)
  {
    var r := NextStart(v, requeue, untested);
    RequeueCounts(v.ports, PORTS, Open);
    RequeueCounts(v.ports, PORTS, Closed);
    assert ReportsOk(r.ports, r.reported) by {
      forall q | 0 <= q < PORTS && r.ports[q] == Open ensures q in r.reported { assert v.ports[q] == Open; }
    }
  }

  lemma {:induction false} NextStartKeeps(v: View, requeue: bool, untested: int)
    requires |v.ports| == PORTS
    ensures Keeps(v, NextStart(v, requeue, untested))
  {
  }
}
