/**
 Safety and progress of whole scans.  A pass is a run of legal events; a scan is a sequence of passes.
 `ReachableKeeps` is the invariant of every reachable state across all passes, `RunProgress` the
 termination measure, and `ScanOutcome` what a caller gets.
 */
module TcpScanRuns {
  import opened Common
  import opened TcpScanState
  import opened TcpScanSteps

  ghost function Run(start: View, es: seq<Event>, pass: nat): (v: View) {
    if es == [] then start else Apply(Run(start, es[..|es| - 1], pass), es[|es| - 1], pass)
  }

  /** A run of pass `pass`: it starts consistent, and every event is legal where it happens. */
  ghost predicate LegalRun(start: View, es: seq<Event>, pass: nat) {
    if es == [] then 1 <= pass && Consistent(start, pass)
    else LegalRun(start, es[..|es| - 1], pass) && Legal(Run(start, es[..|es| - 1], pass), es[|es| - 1])
  }

  lemma {:induction false} RunMore(start: View, es: seq<Event>, pass: nat, e: Event)
    requires LegalRun(start, es, pass) && Legal(Run(start, es, pass), e)
    ensures LegalRun(start, es + [e], pass)
    ensures Run(start, es + [e], pass) == Apply(Run(start, es, pass), e, pass)
  {
    assert (es + [e])[..|es|] == es;
  }

  // ----- one pass -----

  lemma {:induction false} RunTable(start: View, es: seq<Event>, pass: nat)
    requires LegalRun(start, es, pass)
    ensures Table(Run(start, es, pass))
  {
    if es != [] {
      var n := |es| - 1;
      RunTable(start, es[..n], pass);
      EventTable(Run(start, es[..n], pass), es[n], pass);
    }
  }

  lemma {:induction false} RunBooks(start: View, es: seq<Event>, pass: nat)
    requires LegalRun(start, es, pass)
    ensures 1 <= pass && Books(Run(start, es, pass), pass)
  {
    if es != [] {
      var n := |es| - 1;
      RunBooks(start, es[..n], pass);
      EventBooks(Run(start, es[..n], pass), es[n], pass);
    }
  }

  /** From the `k`-th event on, verdicts and reports stand and nothing becomes UNKNOWN again. */
  lemma {:induction false} RunKeeps(start: View, es: seq<Event>, k: nat, pass: nat)
    requires LegalRun(start, es, pass) && k <= |es|
    ensures KeepsInPass(Run(start, es[..k], pass), Run(start, es, pass))
    decreases |es|
  {
    if k == |es| {
      assert es[..k] == es;
      RunTable(start, es, pass);
    } else {
      var n := |es| - 1;
      assert es[..n][..k] == es[..k];
      RunKeeps(start, es[..n], k, pass);
      EventKeeps(Run(start, es[..n], pass), es[n], pass);
      KeepsInPassTransitive(Run(start, es[..k], pass), Run(start, es[..n], pass), Run(start, es, pass));
    }
  }

  /**
   Termination of a pass: the measure never rises, and falls as soon as one event since the
   `k`-th is more than housekeeping.
   */
  lemma {:induction false} RunProgress(start: View, es: seq<Event>, k: nat, pass: nat)
    requires LegalRun(start, es, pass) && k <= |es|
    ensures |Run(start, es[..k], pass).ports| == |Run(start, es, pass).ports| == PORTS
    ensures Measure(Run(start, es, pass)) <= Measure(Run(start, es[..k], pass))
    ensures k < |es| && es[k] != Packed ==> Measure(Run(start, es, pass)) < Measure(Run(start, es[..k], pass))
    decreases |es|
  {
    if k == |es| {
      assert es[..k] == es;
      RunTable(start, es, pass);
    } else {
      var n := |es| - 1;
      assert es[..n][..k] == es[..k];
      RunProgress(start, es[..n], k, pass);
      EventMeasure(Run(start, es[..n], pass), es[n], pass);
    }
  }

  /** An attempt lowers the measure, revives no port and frees no slot. */
  lemma {:induction false} AttemptInRun(start: View, es: seq<Event>, pass: nat, e: Event, m: nat)
    requires LegalRun(start, es, pass) && Legal(Run(start, es, pass), e) && IsAttempt(e)
    ensures var u := Run(start, es, pass);
            var v := Apply(u, e, pass);
            && |u.ports| == |v.ports| == PORTS && Measure(v) < Measure(u)
            && (NoUnknownBelow(u.ports, m) ==> NoUnknownBelow(v.ports, m))
            && (AllLive(u) ==> AllLive(v))
  {
    EventMeasure(Run(start, es, pass), e, pass);
    AttemptAllLive(Run(start, es, pass), e, pass, m);
  }

  lemma {:induction false} AttemptAllLive(u: View, e: Event, pass: nat, m: nat)
    requires Legal(u, e) && IsAttempt(e)
    ensures AllLive(u) ==> AllLive(Apply(u, e, pass))
    ensures NoUnknownBelow(u.ports, m) ==> NoUnknownBelow(Apply(u, e, pass).ports, m)
  {
  }

  /** A turn of the scanning loop: `n` events before it, `es` after filling the window, `fs` at its end. */
  lemma {:induction false} TurnProgress(start: View, es: seq<Event>, fs: seq<Event>, n: nat, pass: nat, m: nat)
    requires LegalRun(start, es, pass) && LegalRun(start, fs, pass)
    requires n <= |es| && es < fs && fs[|es|] != Packed
    ensures |Run(start, es[..n], pass).ports| == |Run(start, fs, pass).ports| == PORTS
    ensures Measure(Run(start, fs, pass)) < Measure(Run(start, es[..n], pass))
    ensures NoUnknownBelow(Run(start, es, pass).ports, m) ==> NoUnknownBelow(Run(start, fs, pass).ports, m)
  {
    assert fs[..|es|] == es;
    RunProgress(start, es, n, pass);
    RunProgress(start, fs, |es|, pass);
    RunKeeps(start, fs, |es|, pass);
  }

  lemma {:induction false} SlotInRun(start: View, es: seq<Event>, pass: nat, i: nat)
    requires LegalRun(start, es, pass) && i < |Run(start, es, pass).socks|
    ensures var v := Run(start, es, pass); |v.ports| == PORTS && SlotOk(v.socks[i], v.ports)
  {
    RunTable(start, es, pass);
  }

  // ----- what select watches -----

  /** The descriptors watched for sockets in state `st`. */
  function FdsIn(socks: seq<Socket>, st: SockState): (s: set<int>) {
    set i | 0 <= i < |socks| && socks[i].state == st :: socks[i].fd
  }

  /** The same, one socket at a time. */
  function FdsUpTo(socks: seq<Socket>, st: SockState, n: nat): (s: set<int>)
    requires n <= |socks|
  {
    if n == 0 then {}
    else FdsUpTo(socks, st, n - 1) + (if socks[n - 1].state == st then {socks[n - 1].fd} else {})
  }

  lemma {:induction false} FdsUpToMembers(socks: seq<Socket>, st: SockState, n: nat, x: int)
    requires n <= |socks|
    ensures x in FdsUpTo(socks, st, n) <==> exists i :: 0 <= i < n && socks[i].state == st && socks[i].fd == x
  {
    if n > 0 {
      FdsUpToMembers(socks, st, n - 1, x);
      if socks[n - 1].state == st && socks[n - 1].fd == x {
        assert exists i :: 0 <= i < n && socks[i].state == st && socks[i].fd == x;
      }
    }
  }

  lemma {:induction false} FdsUpToAll(socks: seq<Socket>, st: SockState)
    ensures FdsUpTo(socks, st, |socks|) == FdsIn(socks, st)
  {
    forall x ensures x in FdsUpTo(socks, st, |socks|) <==> x in FdsIn(socks, st) {
      FdsUpToMembers(socks, st, |socks|, x);
    }
  }

  /** What a positive select says about the table: some socket is marked, each as its state demands. */
  lemma {:induction false} Marked(start: View, es: seq<Event>, pass: nat, r: set<int>, w: set<int>)
    requires LegalRun(start, es, pass) && AllLive(Run(start, es, pass))
    requires r <= FdsIn(Run(start, es, pass).socks, Opened) && w <= FdsIn(Run(start, es, pass).socks, Opening)
    requires r + w != {}
    ensures var socks := Run(start, es, pass).socks;
            && (exists i :: 0 <= i < |socks| && socks[i].fd in r + w)
            && (forall i :: 0 <= i < |socks| && socks[i].fd in w ==> socks[i].state == Opening)
            && (forall i :: 0 <= i < |socks| && socks[i].fd in r ==> socks[i].state == Opened)
  {
    var v := Run(start, es, pass);
    RunTable(start, es, pass);
    var x :| x in r + w;
    assert exists i :: 0 <= i < |v.socks| && v.socks[i].fd == x;
    forall i | 0 <= i < |v.socks| && v.socks[i].fd in w ensures v.socks[i].state == Opening {
      WatchedByState(v, i, Opening);
    }
    forall i | 0 <= i < |v.socks| && v.socks[i].fd in r ensures v.socks[i].state == Opened {
      WatchedByState(v, i, Opened);
    }
  }

  /** A live socket's descriptor is watched only in the set of its own state. */
  lemma {:induction false} WatchedByState(v: View, i: nat, st: SockState)
    requires Distinct(v.socks) && i < |v.socks| && st != Unused
    requires Live(v.socks[i]) && v.socks[i].fd in FdsIn(v.socks, st)
    ensures v.socks[i].state == st
  {
    var k :| 0 <= k < |v.socks| && v.socks[k].state == st && v.socks[k].fd == v.socks[i].fd;
    assert k == i;
  }

  // ----- all passes -----

  /** A finished pass: its events, whether the silent ports were queued again, and the count they gave. */
  datatype PassRecord = PassRecord(es: seq<Event>, requeue: bool, untested: int)

  /** The state at the start of pass |hist| + 1. */
  ghost function StartOf(init: View, hist: seq<PassRecord>): (v: View) {
    if hist == [] then init
    else
      var n := |hist| - 1;
      var end := Run(StartOf(init, hist[..n]), hist[n].es, n + 1);
      if |end.ports| == PORTS then NextStart(end, hist[n].requeue, hist[n].untested) else end
  }

  /** Passes 1 .. |hist| were legal runs, each ending with an empty socket table. */
  ghost predicate LegalScan(init: View, hist: seq<PassRecord>) {
    if hist == [] then Consistent(init, 1)
    else
      var n := |hist| - 1;
      && LegalScan(init, hist[..n])
      && LegalRun(StartOf(init, hist[..n]), hist[n].es, n + 1)
      && Run(StartOf(init, hist[..n]), hist[n].es, n + 1).socks == []
  }

  lemma {:induction false} ScanMore(init: View, hist: seq<PassRecord>, rec: PassRecord)
    requires LegalScan(init, hist) && LegalRun(StartOf(init, hist), rec.es, |hist| + 1)
    requires Run(StartOf(init, hist), rec.es, |hist| + 1).socks == []
    requires |Run(StartOf(init, hist), rec.es, |hist| + 1).ports| == PORTS
    ensures LegalScan(init, hist + [rec])
    ensures StartOf(init, hist + [rec]) ==
            NextStart(Run(StartOf(init, hist), rec.es, |hist| + 1), rec.requeue, rec.untested)
  {
    assert (hist + [rec])[..|hist|] == hist;
  }

  /** Consistent, and nothing settled or reported since `init` has been taken back. */
  ghost predicate Good(init: View, v: View, pass: nat) {
    Consistent(v, pass) && Keeps(init, v)
  }

  lemma {:induction false} GoodNext(init: View, v: View, pass: nat, requeue: bool, untested: int)
    requires Good(init, v, pass) && v.socks == []
    ensures Good(init, NextStart(v, requeue, untested), pass + 1)
    ensures ProbedBefore(NextStart(v, requeue, untested), pass + 1)
  {
    NextStartTable(v, requeue, untested);
    NextStartBooks(v, pass, requeue, untested);
    NextStartKeeps(v, requeue, untested);
    KeepsTransitive(init, v, NextStart(v, requeue, untested));
  }

  /**
   Safety of whole scans: whatever the operating system answers in however many passes, each pass
   starts consistent, no verdict or report is ever taken back, and no probe is repeated in a pass.
   */
  lemma {:induction false} ScanKeeps(init: View, hist: seq<PassRecord>)
    requires LegalScan(init, hist)
    ensures Good(init, StartOf(init, hist), |hist| + 1)
    ensures hist != [] ==> ProbedBefore(StartOf(init, hist), |hist| + 1)
    decreases hist, 0
  {
    if hist != [] {
      var n := |hist| - 1;
      var end := Run(StartOf(init, hist[..n]), hist[n].es, n + 1);
      ReachableKeeps(init, hist[..n], hist[n].es);
      GoodNext(init, end, n + 1, hist[n].requeue, hist[n].untested);
    }
  }

  lemma {:induction false} NextPassLegal(init: View, hist: seq<PassRecord>)
    requires LegalScan(init, hist)
    ensures LegalRun(StartOf(init, hist), [], |hist| + 1)
    ensures Run(StartOf(init, hist), [], |hist| + 1) == StartOf(init, hist)
  {
    ScanKeeps(init, hist);
  }

  /** Closing a pass that began in `s`: the next one, in `w`, is that of a legal scan. */
  lemma {:induction false} PassClosed(init: View, hist: seq<PassRecord>, rec: PassRecord, s: View, w: View)
    requires LegalScan(init, hist) && s == StartOf(init, hist) && LegalRun(s, rec.es, |hist| + 1)
    requires Run(s, rec.es, |hist| + 1).socks == [] && |Run(s, rec.es, |hist| + 1).ports| == PORTS
    requires w == NextStart(Run(s, rec.es, |hist| + 1), rec.requeue, rec.untested)
    ensures LegalScan(init, hist + [rec]) && StartOf(init, hist + [rec]) == w
    ensures LegalRun(w, [], |hist| + 2) && Run(w, [], |hist| + 2) == w
  {
    ScanMore(init, hist, rec);
    NextPassLegal(init, hist + [rec]);
  }

  /** ... and so does every state in between. */
  lemma {:induction false} ReachableKeeps(init: View, hist: seq<PassRecord>, es: seq<Event>)
    requires LegalScan(init, hist) && LegalRun(StartOf(init, hist), es, |hist| + 1)
    ensures Good(init, Run(StartOf(init, hist), es, |hist| + 1), |hist| + 1)
    decreases hist, 1
  {
    var s := StartOf(init, hist);
    ScanKeeps(init, hist);
    RunTable(s, es, |hist| + 1);
    RunBooks(s, es, |hist| + 1);
    RunKeeps(s, es, 0, |hist| + 1);
    KeepsTransitive(init, s, Run(s, es, |hist| + 1));
  }

  /** From any point of a pass to the start of the next. */
  lemma {:induction false} PassKeeps(init: View, hist: seq<PassRecord>, i: nat)
    requires hist != [] && LegalScan(init, hist) && i <= |hist[|hist| - 1].es|
    ensures var n := |hist| - 1;
            Keeps(Run(StartOf(init, hist[..n]), hist[n].es[..i], n + 1), StartOf(init, hist))
  {
    var n := |hist| - 1;
    var s, es := StartOf(init, hist[..n]), hist[n].es;
    RunKeeps(s, es, i, n + 1);
    NextStartKeeps(Run(s, es, n + 1), hist[n].requeue, hist[n].untested);
    KeepsTransitive(Run(s, es[..i], n + 1), Run(s, es, n + 1), StartOf(init, hist));
  }

  lemma {:induction false} WholePassKeeps(init: View, hist: seq<PassRecord>, n: nat)
    requires LegalScan(init, hist) && n == |hist| - 1
    ensures LegalScan(init, hist[..n]) && Keeps(StartOf(init, hist[..n]), StartOf(init, hist))
  {
    PassKeeps(init, hist, 0);
    assert hist[n].es[..0] == [];
  }

  /** From the start of one pass to the start of any later one. */
  lemma {:induction false} LaterPassKeeps(init: View, hist: seq<PassRecord>, k: nat, v: View)
    requires LegalScan(init, hist) && k <= |hist| && Keeps(v, StartOf(init, hist[..k]))
    ensures Keeps(v, StartOf(init, hist))
  {
    if k == |hist| {
      assert hist[..k] == hist;
    } else {
      var n := |hist| - 1;
      WholePassKeeps(init, hist, n);
      assert hist[..n][..k] == hist[..k];
      LaterPassKeeps(init, hist[..n], k, v);
      KeepsTransitive(v, StartOf(init, hist[..n]), StartOf(init, hist));
    }
  }

  lemma {:induction false} LegalUpTo(init: View, hist: seq<PassRecord>, k: nat)
    requires LegalScan(init, hist) && k <= |hist|
    ensures LegalScan(init, hist[..k])
  {
    if k == |hist| {
      assert hist[..k] == hist;
    } else {
      assert hist[..|hist| - 1][..k] == hist[..k];
      LegalUpTo(init, hist[..|hist| - 1], k);
    }
  }

  /**
   Across passes: `v` is the state at any point that pass k + 1 went through; no verdict, report or probe is
   taken back until a later pass begins, ...
   */
  lemma {:induction false} NeverTakenBack(init: View, hist: seq<PassRecord>, k: nat, i: nat, v: View)
    requires LegalScan(init, hist) && k < |hist| && i <= |hist[k].es|
    requires v == Run(StartOf(init, hist[..k]), hist[k].es[..i], k + 1)
    ensures Keeps(v, StartOf(init, hist))
  {
    EarlierPassKeeps(init, hist, k, i);
    LaterPassKeeps(init, hist, k + 1, v);
  }

  lemma {:induction false} EarlierPassKeeps(init: View, hist: seq<PassRecord>, k: nat, i: nat)
    requires LegalScan(init, hist) && k < |hist| && i <= |hist[k].es|
    ensures Keeps(Run(StartOf(init, hist[..k]), hist[k].es[..i], k + 1), StartOf(init, hist[..k + 1]))
  {
    LegalUpTo(init, hist, k + 1);
    assert hist[..k + 1][..k] == hist[..k];
    PassKeeps(init, hist[..k + 1], i);
  }

  /** ... and what is kept of `v` until a pass begins, in `s`, is kept at every point of that pass. */
  lemma {:induction false} StillKept(s: View, es: seq<Event>, pass: nat, v: View)
    requires LegalRun(s, es, pass) && Keeps(v, s)
    ensures Keeps(v, Run(s, es, pass))
  {
    RunKeeps(s, es, 0, pass);
    assert es[..0] == [];
    KeepsTransitive(v, s, Run(s, es, pass));
  }

  lemma {:induction false} FreshConsistent(v: View)
    requires |v.ports| == PORTS && forall p :: 0 <= p < PORTS ==> v.ports[p] == Unknown || v.ports[p] == NotTested
    requires v == View(v.ports, [], 0, 0, 0, 0, 0, 0, 0, v.untested, [], {}, [])
    ensures Consistent(v, 1)
  {
    assert Open !in v.ports && Closed !in v.ports;
  }

  // ----- what a scan has done -----

  /** Probes of one port, among those logged. */
  function ProbesOf(log: seq<Probe>, p: nat): (n: nat) {
    if log == [] then 0 else ProbesOf(log[..|log| - 1], p) + (if log[|log| - 1].port == p then 1 else 0)
  }

  function PassesOf(log: seq<Probe>, p: nat): (s: set<nat>) {
    if log == [] then {}
    else PassesOf(log[..|log| - 1], p) + (if log[|log| - 1].port == p then {log[|log| - 1].pass} else {})
  }

  lemma {:induction false} PassesWitness(log: seq<Probe>, p: nat, q: nat)
    requires q in PassesOf(log, p)
    ensures Probe(q, p) in log
  {
    var n := |log| - 1;
    if q in PassesOf(log[..n], p) { PassesWitness(log[..n], p, q); assert Probe(q, p) in log[..n]; }
    else { assert log[n] == Probe(q, p); }
  }

  lemma {:induction false} ProbesArePasses(log: seq<Probe>, p: nat)
    requires NoDuplicates(log)
    ensures ProbesOf(log, p) == |PassesOf(log, p)|
  {
    if log != [] {
      var n := |log| - 1;
      ProbesArePasses(log[..n], p);
      if log[n].port == p && log[n].pass in PassesOf(log[..n], p) {
        PassesWitness(log[..n], p, log[n].pass);
        assert false;
      }
    }
  }

  lemma {:induction false} CardUpTo(s: set<nat>, n: nat)
    requires forall x :: x in s ==> 1 <= x <= n
    ensures |s| <= n
  {
    if n == 0 {
      assert s == {};
    } else {
      CardUpTo(s - {n}, n - 1);
      assert s <= (s - {n}) + {n};
      assert |s| <= |(s - {n}) + {n}|;
    }
  }

  /** With probes never repeated within a pass, no port is probed more often than there are passes. */
  lemma {:induction false} ProbeBound(log: seq<Probe>, n: nat, p: nat)
    requires NoDuplicates(log)
    requires forall i :: 0 <= i < |log| ==> 1 <= log[i].pass <= n
    ensures ProbesOf(log, p) <= n
  {
    ProbesArePasses(log, p);
    forall q | q in PassesOf(log, p) ensures 1 <= q <= n {
      PassesWitness(log, p, q);
      var i :| 0 <= i < |log| && log[i] == Probe(q, p);
    }
    CardUpTo(PassesOf(log, p), n);
  }

  /**
   What a scan of at most MAX_PASS_NB passes has done, at any moment: no port was probed more than
   MAX_PASS_NB times, exactly the open ports are reported, each once, and no port outside the request
   was touched.
   */
  lemma {:induction false} ScanOutcome(init: View, hist: seq<PassRecord>, es: seq<Event>, p: nat)
    requires LegalScan(init, hist) && LegalRun(StartOf(init, hist), es, |hist| + 1)
    requires |hist| < MAX_PASS_NB || (|hist| == MAX_PASS_NB && es == [])
    ensures var v := Run(StartOf(init, hist), es, |hist| + 1);
            && ProbesOf(v.probes, p) <= MAX_PASS_NB
            && |init.ports| == |v.ports| == PORTS && NoDuplicates(v.reported) && v.openNb == |v.reported|
            && (p in v.reported <==> p < PORTS && v.ports[p] == Open)
            && (p < PORTS ==> (v.ports[p] == NotTested <==> init.ports[p] == NotTested))
  {
    var v := Run(StartOf(init, hist), es, |hist| + 1);
    ReachableKeeps(init, hist, es);
    if |hist| == MAX_PASS_NB { ScanKeeps(init, hist); }
    ProbeBound(v.probes, MAX_PASS_NB, p);
    OpenReported(v.ports, v.reported, p);
  }

  lemma {:induction false} OpenReported(ports: seq<PortState>, reported: seq<nat>, p: nat)
    requires |ports| == PORTS && ReportsOk(ports, reported)
    ensures p in reported <==> p < PORTS && ports[p] == Open
  {
  }

  // ----- attempts that were dropped -----

  /** The ports whose attempts were dropped without a socket. */
  ghost function DroppedIn(es: seq<Event>): (s: set<nat>) {
    if es == [] then {}
    else DroppedIn(es[..|es| - 1]) + (if es[|es| - 1].Dropped? then {es[|es| - 1].p} else {})
  }

  ghost function DroppedBefore(hist: seq<PassRecord>): (s: set<nat>) {
    if hist == [] then {} else DroppedBefore(hist[..|hist| - 1]) + DroppedIn(hist[|hist| - 1].es)
  }

  ghost predicate NoDrop(es: seq<Event>) {
    forall i :: 0 <= i < |es| ==> !es[i].Dropped?
  }

  lemma {:induction false} LeakedAreDropped(start: View, es: seq<Event>, pass: nat)
    requires LegalRun(start, es, pass)
    ensures Run(start, es, pass).leaked == start.leaked + DroppedIn(es)
  {
    if es != [] { LeakedAreDropped(start, es[..|es| - 1], pass); }
  }

  lemma {:induction false} ScanLeaks(init: View, hist: seq<PassRecord>)
    requires LegalScan(init, hist)
    ensures StartOf(init, hist).leaked == init.leaked + DroppedBefore(hist)
  {
    if hist != [] {
      var n := |hist| - 1;
      ScanLeaks(init, hist[..n]);
      LeakedAreDropped(StartOf(init, hist[..n]), hist[n].es, n + 1);
    }
  }

  lemma {:induction false} DroppedInNone(es: seq<Event>)
    ensures DroppedIn(es) == {} <==> NoDrop(es)
  {
    if es != [] {
      var n := |es| - 1;
      DroppedInNone(es[..n]);
      assert NoDrop(es) <==> NoDrop(es[..n]) && !es[n].Dropped? by {
        assert forall i :: 0 <= i < n ==> es[..n][i] == es[i];
      }
      assert es[n].Dropped? ==> es[n].p in DroppedIn(es);
    }
  }

  lemma {:induction false} DroppedBeforeNone(hist: seq<PassRecord>)
    ensures DroppedBefore(hist) == {} <==> forall k :: 0 <= k < |hist| ==> NoDrop(hist[k].es)
  {
    if hist != [] {
      var n := |hist| - 1;
      DroppedBeforeNone(hist[..n]);
      DroppedInNone(hist[n].es);
      assert forall k :: 0 <= k < n ==> hist[..n][k] == hist[k];
    }
  }

  /**
   At any moment of a scan the TESTING ports without a socket are those ever dropped: such a port
   is never tested again.
   */
  lemma {:induction false} UnownedAreDropped(init: View, hist: seq<PassRecord>, es: seq<Event>, p: nat)
    requires LegalScan(init, hist) && LegalRun(StartOf(init, hist), es, |hist| + 1) && init.leaked == {}
    ensures var v := Run(StartOf(init, hist), es, |hist| + 1);
            && |v.ports| == PORTS
            && ((ScanPort(p) && v.ports[p] == Testing && !Owned(v.socks, p)) <==>
                p in DroppedBefore(hist) + DroppedIn(es))
  {
    ScanLeaks(init, hist);
    LeakedAreDropped(StartOf(init, hist), es, |hist| + 1);
    RunTable(StartOf(init, hist), es, |hist| + 1);
  }

  ghost predicate AllOwned(v: View) {
    |v.ports| == PORTS && forall p :: ScanPort(p) && v.ports[p] == Testing ==> Owned(v.socks, p)
  }

  /** Every TESTING port has its own live socket if and only if no attempt of any pass was dropped. */
  lemma {:induction false} TestingOwnedIffNoDrop(init: View, hist: seq<PassRecord>, es: seq<Event>)
    requires LegalScan(init, hist) && LegalRun(StartOf(init, hist), es, |hist| + 1) && init.leaked == {}
    ensures AllOwned(Run(StartOf(init, hist), es, |hist| + 1)) <==>
            NoDrop(es) && forall k :: 0 <= k < |hist| ==> NoDrop(hist[k].es)
  {
    var v := Run(StartOf(init, hist), es, |hist| + 1);
    DroppedInNone(es);
    DroppedBeforeNone(hist);
    forall p: nat ensures |v.ports| == PORTS && ((ScanPort(p) && v.ports[p] == Testing && !Owned(v.socks, p))
                          <==> p in DroppedBefore(hist) + DroppedIn(es)) {
      UnownedAreDropped(init, hist, es, p);
    }
    OwnedIff(v, DroppedBefore(hist) + DroppedIn(es));
  }

  lemma {:induction false} OwnedIff(v: View, s: set<nat>)
    requires |v.ports| == PORTS
    requires forall p: nat :: (ScanPort(p) && v.ports[p] == Testing && !Owned(v.socks, p)) <==> p in s
    ensures AllOwned(v) <==> s == {}
  {
    if s != {} { var p :| p in s; }
  }

  /**
   A scan that is over, with no socket open and no port left to test: each port it was asked for has a
   verdict or was silent, except exactly those that were dropped.
   */
  lemma {:induction false} AllDecided(init: View, hist: seq<PassRecord>, es: seq<Event>, p: nat)
    requires LegalScan(init, hist) && LegalRun(StartOf(init, hist), es, |hist| + 1) && init.leaked == {}
    requires Run(StartOf(init, hist), es, |hist| + 1).socks == []
    requires NoUnknownBelow(Run(StartOf(init, hist), es, |hist| + 1).ports, PORTS)
    requires |init.ports| == PORTS && ScanPort(p) && init.ports[p] == Unknown
    ensures var v := Run(StartOf(init, hist), es, |hist| + 1);
            && |v.ports| == PORTS
            && (p in DroppedBefore(hist) + DroppedIn(es) <==> !Verdict(v.ports[p]) && v.ports[p] != Silent)
  {
    UnownedAreDropped(init, hist, es, p);
    ReachableKeeps(init, hist, es);
  }

  /** Nothing but port `p` is asked for. */
  function OnlyPort(p: nat): (v: View) {
    View(seq(PORTS, i => if i == p then Unknown else NotTested), [], 0, 0, 0, 0, 0, 0, 0, 1, [], {}, [])
  }

  /** A scan of one port that runs out of descriptors: the port stays TESTING, and no pass will test it. */
  lemma {:induction false} DropLeaks(p: nat)
    requires ScanPort(p)
    ensures LegalScan(OnlyPort(p), []) && LegalRun(OnlyPort(p), [Dropped(p, false)], 1)
    ensures var v := Run(OnlyPort(p), [Dropped(p, false)], 1);
            |v.ports| == PORTS && v.ports[p] == Testing && !Owned(v.socks, p)
  {
    var init := OnlyPort(p);
    FreshConsistent(init);
    RunMore(init, [], 1, Dropped(p, false));
    assert [] + [Dropped(p, false)] == [Dropped(p, false)];
  }
}
