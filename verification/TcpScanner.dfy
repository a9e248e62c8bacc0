/**
 The connect scanner itself: `banner_grab` on its port table and socket table, pass by pass
 (nasl/nasl_builtin_openvas_tcp_scanner.c).

 Answers of the operating system (socket, connect, select, SO_ERROR, the clock) are arbitrary.
 All that is taken for granted is that a new descriptor is positive and not already in use, and that
 a positive select marks at least one watched descriptor.
 */
module TcpScanner {
  import opened TcpScanState
  import opened TcpScanSteps
  import opened TcpScanRuns

  const GRAB_MAX_SOCK := 1024
  const GRAB_MIN_SOCK := 32
  const GRAB_MAX_SOCK_SAFE := 128
  const FD_SETSIZE := 1024

  // ----- the operating system -----

  datatype SocketResult = GotSocket(fd: int) | Enfile | Emfile | SocketError
  datatype ConnectResult = Connected | InProgress | Again | Refused | Unreachable | ConnectError
  datatype SoError = NoError | SoUnreachable | SoOther | SoCallFailed

  method OsSocket(inUse: set<int>) returns (r: SocketResult)
    ensures r.GotSocket? ==> r.fd > 0 && r.fd !in inUse
  {
    r := *;
    if r.GotSocket? && (r.fd <= 0 || r.fd in inUse) { r := SocketError; }
  }

  method OsConnect() returns (r: ConnectResult) { r := *; }

  method OsSoError() returns (r: SoError) { r := *; }

  method OsYes() returns (b: bool) { b := *; }

  method OsClock() returns (t: int) { t := *; }

  /** The descriptors whose sockets are older than the read timeout. */
  method OsLate() returns (late: set<int>) { late := *; }

  /** A negative `n` is an error, 0 a timeout. */
  method OsSelect(rfs: set<int>, wfs: set<int>) returns (n: int, r: set<int>, w: set<int>)
    ensures r <= rfs && w <= wfs
    ensures n > 0 ==> r + w != {}
  {
    n := *;
    var some: set<int> := *;
    r, w := rfs * some, wfs * some;
    if r + w == {} && n > 0 { n := 0; }
  }

  // ----- connection limits -----

  /**
   The limits handed to the scanner.  `maxCnx0` is what the preferences and the load average leave,
   `share` the host's share of the system's descriptors, `rlim` the process limit if there is one.
   */
  function Limits(maxChecks: nat, maxCnx0: nat, share: nat, safe: bool, rlim: nat, limited: bool): (r: (int, int)) {
    var a := if maxCnx0 > share then share else maxCnx0;
    var b := if a > GRAB_MAX_SOCK then GRAB_MAX_SOCK else a;
    var c := if b < GRAB_MIN_SOCK then GRAB_MIN_SOCK else b;
    var d := if safe && c > GRAB_MAX_SOCK_SAFE then GRAB_MAX_SOCK_SAFE else c;
    var max := if limited && d >= rlim then rlim - 1 else d;
    var min := 8 * maxChecks;
    // An unsigned difference: a limit of 0 would wrap to the largest value.
    if max < 0 then (min, 0xffff_ffff)
    else (if min > max / 2 then if max / 2 > 0 then max / 2 else 1 else min, max)
  }

  /** The scanner's table always fits, and its window is sound, exactly when the process may open two sockets. */
  lemma {:induction false} LimitsSound(maxChecks: nat, maxCnx0: nat, share: nat, safe: bool, rlim: nat, limited: bool)
    requires 1 <= maxChecks <= 5
    ensures var (min, max) := Limits(maxChecks, maxCnx0, share, safe, rlim, limited);
            (1 <= min <= max / 2 && max <= GRAB_MAX_SOCK) <==> (!limited || rlim >= 3)
  {
  }

  lemma {:induction false} SilentSoFar(ports: seq<PortState>, port: nat)
    requires 1 <= port < |ports|
    ensures multiset(ports[1..port + 1])[Silent] ==
            multiset(ports[1..port])[Silent] + if ports[port] == Silent then 1 else 0
  {
    assert ports[1..port + 1] == ports[1..port] + [ports[port]];
  }

  /** What each answer of connect makes of the port. */
  function AnswerEvent(p: nat, fd: int, r: ConnectResult): Event {
    match r
    case InProgress => Begun(p, fd)
    case Connected => OpenedNow(p, fd)
    case Refused => FailedNow(p, Closed)
    case Unreachable => FailedNow(p, Rejected)
    case Again => Dropped(p, true)
    case ConnectError => Dropped(p, true)
  }

  /** What SO_ERROR says about the port of a socket that has become writable. */
  function VerdictOf(opt: SoError): PortState {
    match opt
    case NoError => Open
    case SoUnreachable => Rejected
    case _ => Closed
  }

  /** `x` between `low` and `high`; the lower bound wins. */
  function Clamped(x: int, low: int, high: int): (y: int)
    ensures low <= y && (y > low ==> y <= high && y <= x)
    ensures low <= x <= high ==> y == x
    ensures low <= high < x ==> y == high
  {
    var y := if x > high then high else x;
    if y < low then low else y
  }

  /** So many drops look like a firewall rather than like congestion. */
  predicate ManyDrops(d: nat, nb: int, filtered: int, unfiltered: int) {
    d >= (nb * 3) / 4 && (d < filtered || d > unfiltered)
  }

  /**
   How a turn with `d` drops and `t` timeouts moves the window and its ceiling, with `nb` sockets in the table.
   Drops that look like a firewall widen both, others narrow both; timeouts widen the window.
   */
  ghost predicate Adjusted(d: nat, t: nat, nb: int, filtered: int, unfiltered: int, min: int, cap: int,
                           max: int, max2: int, max': int, max2': int) {
    if d == 0 then max2' == max2 && max' == Clamped(max + t, min, max2')
    else if d >= (nb * 3) / 4 && (d < filtered || d > unfiltered) then
      max2' == Clamped(max2 + 1, 1, cap) && max' == Clamped(max + d + t, min, max2')
    else
      var m := Clamped(max - (d + 2) / 3, min, cap);
      max2' == (m + 3 * max2) / 4 && max' == Clamped(m + t, min, max2')
  }

  // ----- what each event does to ports and counters -----

  /** The counters have moved by so much; a port that is open or closed is an unfiltered one. */
  ghost predicate Moves(v: View, w: View, open: int, closed: int, filtered: int, untested: int, wait: int) {
    && w.openNb == v.openNb + open && w.openNb1 == v.openNb1 + open
    && w.closedNb == v.closedNb + closed && w.closedNb1 == v.closedNb1 + closed
    && w.unfiltered == v.unfiltered + open + closed && w.filtered == v.filtered + filtered
    && w.untested == v.untested + untested && w.wait == v.wait + wait
  }

  /** The port of a socket that has got its answer: open without an error, rejected if unreachable, or else closed. */
  ghost predicate Answered(v: View, w: View, p: nat, opt: SoError)
    requires p < |v.ports|
  {
    match opt
    case NoError =>
      w.ports == v.ports[p := Open] && Moves(v, w, 1, 0, 0, -1, 1) && w.reported == v.reported + [p]
    case SoUnreachable =>
      w.ports == v.ports[p := Rejected] && Moves(v, w, 0, 0, 1, -1, 0) && w.reported == v.reported
    case _ =>
      w.ports == v.ports[p := Closed] && Moves(v, w, 0, 1, 0, -1, 0) && w.reported == v.reported
  }

  lemma {:induction false} SettledAnswers(v: View, i: nat, opt: SoError, pass: nat)
    requires Legal(v, Settled(i, VerdictOf(opt)))
    ensures Answered(v, Apply(v, Settled(i, VerdictOf(opt)), pass), v.socks[i].port, opt)
  {
  }

  /** What connect has made of port `p`. */
  ghost predicate Tried(v: View, w: View, p: nat, fd: int, r: ConnectResult)
    requires p < |v.ports|
  {
    match r
    case InProgress =>
      && w.ports == v.ports[p := Testing] && w.socks == v.socks + [Socket(fd, p, Opening)]
      && Moves(v, w, 0, 0, 0, 0, 0) && w.reported == v.reported
    case Connected =>
      && w.ports == v.ports[p := Open] && w.socks == v.socks + [Socket(fd, p, Opened)]
      && Moves(v, w, 1, 0, 0, -1, 1) && w.reported == v.reported + [p]
    case Refused =>
      && w.ports == v.ports[p := Closed] && w.socks == v.socks
      && Moves(v, w, 0, 1, 0, -1, 0) && w.reported == v.reported
    case Unreachable =>
      && w.ports == v.ports[p := Rejected] && w.socks == v.socks
      && Moves(v, w, 0, 0, 1, -1, 0) && w.reported == v.reported
    case _ =>
      && w.ports == v.ports[p := Testing] && w.socks == v.socks
      && Moves(v, w, 0, 0, 0, 0, 0) && w.reported == v.reported
  }

  lemma {:induction false} AnswerTries(v: View, p: nat, fd: int, r: ConnectResult, pass: nat)
    requires Legal(v, AnswerEvent(p, fd, r))
    ensures Tried(v, Apply(v, AnswerEvent(p, fd, r), pass), p, fd, r)
  {
  }

  /** A socket given up: an OPENING one leaves its port SILENT, an OPEN one changes no port. */
  ghost predicate GivenUp(v: View, w: View, s: Socket)
    requires s.port < |v.ports|
  {
    if s.state == Opening then w.ports == v.ports[s.port := Silent] && Moves(v, w, 0, 0, 1, -1, 0)
    else w.ports == v.ports && Moves(v, w, 0, 0, 0, 0, -1)
  }

  lemma {:induction false} ExpiryGivesUp(v: View, i: nat, pass: nat)
    requires i < |v.socks| && Live(v.socks[i]) && Legal(v, Expiry(v.socks[i], i))
    ensures var w := Apply(v, Expiry(v.socks[i], i), pass);
            v.socks[i].port < |v.ports| && GivenUp(v, w, v.socks[i]) && w.reported == v.reported
  {
  }

  /** A marked socket has been served, and another one left alone. */
  predicate Served(was: Socket, now: Socket, r: set<int>, w: set<int>) {
    if was.fd > 0 && was.fd in w then now == was.(state := Opened) || now == Freed(was)
    else if was.fd > 0 && was.fd in r then now == Freed(was)
    else now == was
  }

  function Expiry(s: Socket, i: nat): Event {
    if s.state == Opening then Settled(i, Silent) else Finished(i)
  }

  /** One expiry for each of the first `n` sockets. */
  function Expiries(socks: seq<Socket>, n: nat): (es: seq<Event>)
    requires n <= |socks|
    ensures |es| == n && (n > 0 ==> es[0] == Expiry(socks[0], 0))
  {
    if n == 0 then [] else Expiries(socks, n - 1) + [Expiry(socks[n - 1], n - 1)]
  }

  lemma {:induction false} CountNext(socks: seq<Socket>, i: nat, st: SockState)
    requires i < |socks|
    ensures CountState(socks[..i + 1], st) == CountState(socks[..i], st) + if socks[i].state == st then 1 else 0
  {
    assert socks[..i + 1] == socks[..i] + [socks[i]];
    CountAppend(socks[..i], socks[i], st);
  }

  lemma {:induction false} ExpiriesMore(run: seq<Event>, socks: seq<Socket>, i: nat)
    requires i < |socks|
    ensures run + Expiries(socks, i) + [Expiry(socks[i], i)] == run + Expiries(socks, i + 1)
  {
  }

  /** 6.25% less than the `n` sockets now open, and at least one less. */
  function LessSixteenth(n: nat): (m: int)
    ensures m < n && m == if n < 16 then n - 1 else n - n / 16
  {
    n - (if n / 16 > 0 then n / 16 else 1)
  }

  /** The window and its ceiling after a socket could not be had, with `n` sockets open. */
  function SocketWindow(r: SocketResult, n: nat, max: int, max2: int): (w: (int, int)) {
    match r
    case Enfile => (n / 2 - 1, n / 2 - 1)
    case Emfile => (LessSixteenth(n), LessSixteenth(n))
    case SocketError => (max, max2)
    case GotSocket(_) => (max - 1, max2 - 1)
  }

  // ----- sockets past the read timeout -----

  predicate IsLate(s: Socket, late: set<int>) { s.fd >= 0 && s.fd in late }

  /** The expiries of the late ones among the first `n` sockets, in order. */
  function LateExpiries(socks: seq<Socket>, late: set<int>, n: nat): (es: seq<Event>)
    requires n <= |socks|
  {
    if n == 0 then []
    else LateExpiries(socks, late, n - 1) + (if IsLate(socks[n - 1], late) then [Expiry(socks[n - 1], n - 1)] else [])
  }

  function LateNb(socks: seq<Socket>, late: set<int>, st: SockState, n: nat): (m: nat)
    requires n <= |socks|
  {
    if n == 0 then 0
    else LateNb(socks, late, st, n - 1) + (if IsLate(socks[n - 1], late) && socks[n - 1].state == st then 1 else 0)
  }

  /** The late ones among the first `n` sockets of `was` have been given up: the table, the events and the counts. */
  ghost predicate Reaped(was: seq<Socket>, late: set<int>, n: nat, now: seq<Socket>, es: seq<Event>, timeoutNb: nat,
                         droppedNb: nat) {
    && n <= |was| == |now|
    && es == LateExpiries(was, late, n)
    && timeoutNb == LateNb(was, late, Opened, n) && droppedNb == LateNb(was, late, Opening, n)
    && forall k :: 0 <= k < |was| ==> now[k] == if k < n && IsLate(was[k], late) then Freed(was[k]) else was[k]
  }

  lemma {:induction false} Grouped(x: seq<Event>, y: seq<Event>, z: seq<Event>)
    ensures x + y + z == x + (y + z)
  {
  }

  lemma {:induction false} ReapedNext(was: seq<Socket>, late: set<int>, i: nat, now: seq<Socket>, es: seq<Event>,
                                      t: nat, d: nat, next: seq<Socket>, fs: seq<Event>, t': nat, d': nat)
    requires i < |was| && Reaped(was, late, i, now, es, t, d)
    requires next == if IsLate(now[i], late) then now[i := Freed(now[i])] else now
    requires fs == es + if IsLate(now[i], late) then [Expiry(now[i], i)] else []
    requires t' == t + if IsLate(now[i], late) && now[i].state == Opened then 1 else 0
    requires d' == d + if IsLate(now[i], late) && now[i].state == Opening then 1 else 0
    ensures Reaped(was, late, i + 1, next, fs, t', d')
  {
  }

  // ----- the scanner -----

  datatype Attempt = Next | Stop | Abort

  /** What one pass remembers for the next. */
  datatype Control = Control(oldFiltered: int, oldOpened: int, doublecheck: bool, rstRateLimit: nat)

  class Scanner {
    const ports: array<PortState>
    const socks: array<Socket>
    const minCnx: int
    const maxCnx: int
    var openSockNb: int
    var openSockMax: int
    var openSockMax2: int
    var wait: int
    var openNb: int
    var closedNb: int
    var openNb1: int
    var closedNb1: int
    var unfiltered: int
    var filtered: int
    var untested: int
    var minport: nat
    var imax: int
    var reported: seq<nat>
    ghost var init: View               // the state the scan began in
    ghost var hist: seq<PassRecord>    // the passes it has finished
    ghost var pass: nat                // the current pass
    ghost var start: View              // the state in which that pass began
    ghost var run: seq<Event>          // what has happened in it
    ghost var v: View                  // the state it has led to

    /** The window never exceeds the limit, and the limit never exceeds the table. */
    ghost predicate Shape()
      reads this
    {
      && ports.Length == PORTS && socks.Length == GRAB_MAX_SOCK
      && 1 <= minCnx <= maxCnx / 2 && maxCnx <= GRAB_MAX_SOCK
      && 0 <= openSockNb <= maxCnx
      && openSockMax <= maxCnx && openSockMax2 <= maxCnx
    }

    /** The tables and counters hold `v`. */
    ghost predicate Holds()
      reads this, ports, socks
    {
      && Shape()
      && v == View(ports[..], socks[..openSockNb], wait, openNb, closedNb, openNb1, closedNb1,
                   unfiltered, filtered, untested, reported, v.leaked, v.probes)
    }

    /** ... and `v` is the outcome of a legal run of this pass. */
    ghost predicate Valid()
      reads this, ports, socks
    {
      Holds() && LegalRun(start, run, pass) && v == Run(start, run, pass)
    }

    /** The pass is the next one of a legal scan. */
    ghost predicate InScan()
      reads this
    {
      LegalScan(init, hist) && pass == |hist| + 1 && start == StartOf(init, hist)
    }

    twostate predicate SamePass()
      reads this
    {
      init == old(init) && hist == old(hist) && pass == old(pass) && start == old(start)
    }

    /** The event that just took effect joins the run. */
    ghost method Record(e: Event)
      requires Holds() && LegalRun(start, run, pass)
      requires Legal(Run(start, run, pass), e) && v == Apply(Run(start, run, pass), e, pass)
      modifies `run
      ensures Valid() && run == old(run) + [e]
    {
      RunMore(start, run, pass, e);
      run := run + [e];
    }

    // ----- single branches, on the arrays -----

    method DropPort(p: nat, ghost probed: bool)
      requires Holds() && Legal(v, Dropped(p, probed))
      modifies ports, `v
      ensures Holds() && v == Apply(old(v), Dropped(p, probed), pass)
    {
      ports[p] := Testing;
      v := Apply(v, Dropped(p, probed), pass);
      assert ports[..] == old(ports[..])[p := Testing];
    }

    method StartSocket(p: nat, fd: int)
      requires Holds() && Legal(v, Begun(p, fd)) && openSockNb < maxCnx
      modifies ports, socks, `openSockNb, `v
      ensures Holds() && v == Apply(old(v), Begun(p, fd), pass)
      ensures openSockNb == old(openSockNb) + 1
    {
      ports[p] := Testing;
      PutSlot(Socket(fd, p, Opening));
      v := Apply(v, Begun(p, fd), pass);
      assert ports[..] == old(ports[..])[p := Testing];
    }

    method PutSlot(s: Socket)
      requires Shape() && openSockNb < maxCnx
      modifies socks, `openSockNb
      ensures Shape() && openSockNb == old(openSockNb) + 1 && socks[..openSockNb] == old(socks[..openSockNb]) + [s]
    {
      socks[openSockNb] := s;
      openSockNb := openSockNb + 1;
    }

    method SetPort(p: nat, x: PortState)
      requires p < ports.Length
      modifies ports
      ensures ports[..] == old(ports[..])[p := x]
    {
      ports[p] := x;
    }

    method OpenSocket(p: nat, fd: int)
      requires Holds() && Legal(v, OpenedNow(p, fd)) && openSockNb < maxCnx
      modifies ports, socks, `openSockNb, `unfiltered, `openNb, `openNb1, `wait, `untested, `reported, `v
      ensures Holds() && v == Apply(old(v), OpenedNow(p, fd), pass)
      ensures openSockNb == old(openSockNb) + 1
    {
      PutSlot(Socket(fd, p, Opened));
      SetPort(p, Open);
      CountOpen(p);
      v := Apply(v, OpenedNow(p, fd), pass);
    }

    method CountOpen(p: nat)
      modifies `unfiltered, `openNb, `openNb1, `wait, `untested, `reported
      ensures unfiltered == old(unfiltered) + 1 && openNb == old(openNb) + 1 && openNb1 == old(openNb1) + 1
      ensures wait == old(wait) + 1 && untested == old(untested) - 1 && reported == old(reported) + [p]
    {
      unfiltered, openNb, openNb1 := unfiltered + 1, openNb + 1, openNb1 + 1;
      wait, untested := wait + 1, untested - 1;
      reported := reported + [p];
    }

    method RefusePort(p: nat)
      requires Holds() && Legal(v, FailedNow(p, Closed))
      modifies ports, `unfiltered, `closedNb, `closedNb1, `untested, `v
      ensures Holds() && v == Apply(old(v), FailedNow(p, Closed), pass)
    {
      ports[p] := Closed;
      unfiltered, closedNb, closedNb1, untested := unfiltered + 1, closedNb + 1, closedNb1 + 1, untested - 1;
      v := Apply(v, FailedNow(p, Closed), pass);
      assert ports[..] == old(ports[..])[p := Closed];
    }

    method RejectPort(p: nat)
      requires Holds() && Legal(v, FailedNow(p, Rejected))
      modifies ports, `filtered, `untested, `v
      ensures Holds() && v == Apply(old(v), FailedNow(p, Rejected), pass)
    {
      ports[p] := Rejected;
      filtered, untested := filtered + 1, untested - 1;
      v := Apply(v, FailedNow(p, Rejected), pass);
      assert ports[..] == old(ports[..])[p := Rejected];
    }

    method FailSlot(i: nat, x: PortState)
      requires Holds() && Legal(v, Settled(i, x)) && x != Open
      modifies socks, ports, `filtered, `untested, `unfiltered, `closedNb, `closedNb1, `v
      ensures Holds() && v == Apply(old(v), Settled(i, x), pass)
    {
      var p := socks[i].port;
      socks[i] := Freed(socks[i]);
      untested := untested - 1;
      ports[p] := x;
      if x == Closed {
        unfiltered, closedNb, closedNb1 := unfiltered + 1, closedNb + 1, closedNb1 + 1;
      } else {
        filtered := filtered + 1;
      }
      v := Apply(v, Settled(i, x), pass);
      assert ports[..] == old(ports[..])[p := x];
      assert socks[..openSockNb] == old(socks[..openSockNb])[i := Freed(old(socks[i]))];
    }

    method OpenSlot(i: nat)
      requires Holds() && Legal(v, Settled(i, Open))
      modifies socks, ports, `unfiltered, `openNb, `openNb1, `untested, `reported, `wait, `v
      ensures Holds() && v == Apply(old(v), Settled(i, Open), pass)
    {
      var p := socks[i].port;
      socks[i] := socks[i].(state := Opened);
      unfiltered, openNb, openNb1, untested := unfiltered + 1, openNb + 1, openNb1 + 1, untested - 1;
      ports[p] := Open;
      reported := reported + [p];
      wait := wait + 1;
      v := Apply(v, Settled(i, Open), pass);
      assert ports[..] == old(ports[..])[p := Open];
      assert socks[..openSockNb] == old(socks[..openSockNb])[i := old(socks[i]).(state := Opened)];
    }

    method CloseOpened(i: nat)
      requires Holds() && Legal(v, Finished(i))
      modifies socks, `wait, `v
      ensures Holds() && v == Apply(old(v), Finished(i), pass)
    {
      wait := wait - 1;
      socks[i] := Freed(socks[i]);
      v := Apply(v, Finished(i), pass);
      assert socks[..openSockNb] == old(socks[..openSockNb])[i := Freed(old(socks[i]))];
    }

    // ----- opening sockets -----

    /** No descriptor for the port: the window shrinks and the attempt is dropped. */
    method SocketFailed(p: nat, r: SocketResult) returns (out: Attempt)
      requires Valid() && Fresh(v, p) && (!r.GotSocket? || r.fd >= FD_SETSIZE)
      modifies ports, `v, `run, `openSockMax, `openSockMax2
      ensures Valid() && run == old(run) + [Dropped(p, false)] && v == Apply(old(v), Dropped(p, false), pass)
      ensures out == if r.SocketError? then Abort else Next
      ensures r.Enfile? ==> openSockMax == openSockMax2 == openSockNb / 2 - 1
      ensures r.Emfile? ==>
                openSockMax == openSockMax2 == if openSockNb < 16 then openSockNb - 1 else openSockNb - openSockNb / 16
      ensures r.GotSocket? ==> openSockMax == old(openSockMax) - 1 && openSockMax2 == old(openSockMax2) - 1
      ensures r.SocketError? ==> openSockMax == old(openSockMax) && openSockMax2 == old(openSockMax2)
    {
      ShrinkWindow(r);
      DropPort(p, false);
      Record(Dropped(p, false));
      out := if r.SocketError? then Abort else Next;
    }

    method ShrinkWindow(r: SocketResult)
      requires Shape()
      modifies `openSockMax, `openSockMax2
      ensures Shape() && (openSockMax, openSockMax2) == SocketWindow(r, openSockNb, old(openSockMax), old(openSockMax2))
    {
      match r {
        case Enfile =>
          openSockMax := openSockNb / 2 - 1;
          openSockMax2 := openSockMax;
        case Emfile =>
          openSockMax := LessSixteenth(openSockNb);
          openSockMax2 := openSockMax;
        case SocketError =>
        case GotSocket(_) =>
          openSockMax, openSockMax2 := openSockMax - 1, openSockMax2 - 1;
      }
    }

    function LiveFds(): (s: set<int>)
      requires 0 <= openSockNb <= socks.Length
      reads this, socks
    {
      set i | 0 <= i < openSockNb :: socks[i].fd
    }

    /** The answer of connect on a fresh non-blocking socket. */
    method ConnectAnswered(p: nat, fd: int, r: ConnectResult) returns (out: Attempt, ghost e: Event)
      requires Holds() && Legal(v, Begun(p, fd)) && openSockNb < openSockMax
      modifies ports, socks, `v, `openSockNb, `openSockMax, `openSockMax2, `unfiltered, `filtered, `untested
      modifies `openNb, `openNb1, `closedNb, `closedNb1, `wait, `reported, `imax
      ensures Holds() && e == AnswerEvent(p, fd, r) && Legal(old(v), e) && v == Apply(old(v), e, pass)
      ensures out == Abort <==> r == ConnectError
      ensures out == Stop <==> r == Connected || r == InProgress
      ensures out == Stop ==> openSockNb > 0
      ensures if r == Again then openSockMax == openSockMax2 == LessSixteenth(old(openSockNb))
              else openSockMax == old(openSockMax) && openSockMax2 == old(openSockMax2)
      ensures Tried(old(v), v, p, fd, r)
    {
      AnswerTries(v, p, fd, r, pass);
      out := Next;
      match r {
        case InProgress =>
          e := Begun(p, fd);
          StartSocket(p, fd);
          if fd > imax { imax := fd; }
          out := Stop;
        case Again =>
          e := Dropped(p, true);
          DropPort(p, true);
          openSockMax := LessSixteenth(openSockNb);
          openSockMax2 := openSockMax;
        case Refused =>
          e := FailedNow(p, Closed);
          RefusePort(p);
        case Unreachable =>
          e := FailedNow(p, Rejected);
          RejectPort(p);
        case ConnectError =>
          e := Dropped(p, true);
          DropPort(p, true);
          out := Abort;
        case Connected =>
          e := OpenedNow(p, fd);
          OpenSocket(p, fd);
          out := Stop;
      }
    }

    /** One turn of the opening loop, on the next UNKNOWN port. */
    method TryPort(p: nat) returns (out: Attempt, ghost e: Event)
      requires Valid() && Fresh(v, p) && openSockNb < openSockMax
      modifies ports, socks, `v, `openSockNb, `openSockMax, `openSockMax2, `unfiltered, `filtered, `untested
      modifies `openNb, `openNb1, `closedNb, `closedNb1, `wait, `reported, `imax, `run
      ensures Valid() && run == old(run) + [e] && Legal(old(v), e) && IsAttempt(e) && v == Apply(old(v), e, pass)
      ensures out == Stop ==> openSockNb > 0
    {
      e := Dropped(p, false);
      var s := OsSocket(LiveFds());
      if !s.GotSocket? || s.fd >= FD_SETSIZE {
        out := SocketFailed(p, s);
        return;
      }
      assert forall i :: 0 <= i < |v.socks| ==> v.socks[i].fd in LiveFds();
      var fcntlFailed := OsYes();
      if fcntlFailed {
        out := SocketFailed(p, SocketError);
        return;
      }
      out, e := ConnectPort(p, s.fd);
    }

    method ConnectPort(p: nat, fd: int) returns (out: Attempt, ghost e: Event)
      requires Valid() && Fresh(v, p) && openSockNb < openSockMax && 0 < fd < FD_SETSIZE
      requires forall i :: 0 <= i < |v.socks| ==> v.socks[i].fd != fd
      modifies ports, socks, `v, `openSockNb, `openSockMax, `openSockMax2, `unfiltered, `filtered, `untested
      modifies `openNb, `openNb1, `closedNb, `closedNb1, `wait, `reported, `imax, `run
      ensures Valid() && run == old(run) + [e] && Legal(old(v), e) && IsAttempt(e) && v == Apply(old(v), e, pass)
      ensures out == Stop ==> openSockNb > 0
    {
      var r := OsConnect();
      out, e := ConnectAnswered(p, fd, r);
      Record(e);
      if out == Stop {
        // A zero-timeout select decides whether to serve the sockets already opening.
        var ready := OsYes();
        if imax < 0 || !ready { out := Next; }
      }
    }

    method NextUnknown() returns (port: nat)
      requires Holds() && NoUnknownBelow(v.ports, minport) && 1 <= minport
      ensures minport <= port <= PORTS && NoUnknownBelow(v.ports, port)
      ensures port < PORTS ==> Fresh(v, port)
    {
      port := minport;
      while port < PORTS && ports[port] != Unknown
        invariant minport <= port <= PORTS && NoUnknownBelow(v.ports, port)
      {
        port := port + 1;
      }
    }

    /** An attempt on the lowest UNKNOWN port; `done` if there is none. */
    method OpenNext() returns (out: Attempt, done: bool)
      requires Valid() && AllLive(v) && NoUnknownBelow(v.ports, minport) && 1 <= minport && openSockNb < openSockMax
      modifies ports, socks, `v, `openSockNb, `openSockMax, `openSockMax2, `unfiltered, `filtered, `untested
      modifies `openNb, `openNb1, `closedNb, `closedNb1, `wait, `reported, `imax, `run, `minport
      ensures Valid() && old(run) <= run && AllLive(v) && NoUnknownBelow(v.ports, minport) && 1 <= minport
      ensures if done then v == old(v) && NoUnknownBelow(v.ports, PORTS) else Measure(v) < Measure(old(v))
      ensures !done && out == Stop ==> openSockNb > 0
    {
      var port := NextUnknown();
      if port >= PORTS { return Next, true; }
      minport := port;
      ghost var es := run;
      ghost var e;
      out, e := TryPort(port);
      AttemptInRun(start, es, pass, e, minport);
      done := false;
    }

    /** Fill the window with attempts on UNKNOWN ports, lowest first, until some socket is `ready`. */
    method OpenLoop() returns (aborted: bool, ready: bool)
      requires Valid() && AllLive(v) && NoUnknownBelow(v.ports, minport) && 1 <= minport
      modifies ports, socks, `v, `openSockNb, `openSockMax, `openSockMax2, `unfiltered, `filtered, `untested
      modifies `openNb, `openNb1, `closedNb, `closedNb1, `wait, `reported, `imax, `run, `minport
      ensures Valid() && old(run) <= run && AllLive(v)
      ensures NoUnknownBelow(v.ports, minport) && 1 <= minport
      ensures ready ==> openSockNb > 0
      ensures aborted || ready || openSockNb >= openSockMax || NoUnknownBelow(v.ports, PORTS)
    {
      while openSockNb < openSockMax
        invariant Valid() && old(run) <= run && AllLive(v)
        invariant NoUnknownBelow(v.ports, minport) && 1 <= minport
        decreases Measure(v)
      {
        var out, done := OpenNext();
        if done { return false, false; }
        if out == Abort { return true, false; }
        if out == Stop { return false, true; }
      }
      return false, false;
    }

    // ----- serving sockets -----

    ghost predicate UntouchedFrom(i: nat, was: seq<Socket>)
      reads this
    {
      |v.socks| == |was| && forall k :: i <= k < |was| ==> v.socks[k] == was[k]
    }

    /** The descriptor sets for select: OPEN sockets are read from, OPENING ones written to. */
    method WatchSets() returns (rfs: set<int>, wfs: set<int>, max: int)
      requires Valid() && AllLive(v) && openSockNb > 0
      ensures max > 0
      ensures rfs == FdsIn(v.socks, Opened) && wfs == FdsIn(v.socks, Opening)
    {
      rfs, wfs, max := {}, {}, -1;
      for i := 0 to openSockNb
        invariant rfs == FdsUpTo(v.socks, Opened, i) && wfs == FdsUpTo(v.socks, Opening, i)
        invariant i > 0 ==> max > 0
      {
        SlotInRun(start, run, pass, i);
        match socks[i].state {
          case Opened => rfs := rfs + {socks[i].fd};
          case Opening => wfs := wfs + {socks[i].fd};
          case Unused =>
        }
        if socks[i].fd > max { max := socks[i].fd; }
      }
      FdsUpToAll(v.socks, Opened);
      FdsUpToAll(v.socks, Opening);
    }

    /** A live socket is given up: OPENING means its port is silent, OPEN that no banner came. */
    method ExpireSlot(i: nat) returns (dropped: bool, ghost e: Event)
      requires Valid() && i < openSockNb && Live(v.socks[i])
      modifies socks, ports, `filtered, `untested, `unfiltered, `closedNb, `closedNb1, `wait, `v, `run
      ensures Valid() && run == old(run) + [e] && e == Expiry(old(v.socks)[i], i)
      ensures v.socks == old(v.socks)[i := Freed(old(v.socks)[i])]
      ensures dropped <==> old(v.socks)[i].state == Opening
      ensures old(v.socks)[i].port < |old(v.ports)| && GivenUp(old(v), v, old(v.socks)[i])
    {
      SlotInRun(start, run, pass, i);
      ExpiryGivesUp(v, i, pass);
      dropped := socks[i].state == Opening;
      if dropped {
        e := Settled(i, Silent);
        FailSlot(i, Silent);
      } else {
        e := Finished(i);
        CloseOpened(i);
      }
      Record(e);
    }

    /** select timed out: every socket is given up, and nothing else happens. */
    method OnTimeout() returns (droppedNb: nat)
      requires Valid() && AllLive(v) && openSockNb > 0
      modifies socks, ports, `filtered, `untested, `unfiltered, `closedNb, `closedNb1, `wait, `v, `run
      ensures Valid() && run == old(run) + Expiries(old(v.socks), |old(v.socks)|) && |v.socks| == openSockNb
      ensures droppedNb == CountState(old(v.socks), Opening)
    {
      ghost var was := v.socks;
      droppedNb := 0;
      for i := 0 to openSockNb
        invariant Valid() && UntouchedFrom(i, was) && |v.socks| == openSockNb
        invariant run == old(run) + Expiries(was, i) && droppedNb == CountState(was[..i], Opening)
      {
        droppedNb := TimeOutNext(i, was, old(run), droppedNb);
      }
      assert was[..|was|] == was;
    }

    method TimeOutNext(i: nat, ghost was: seq<Socket>, ghost before: seq<Event>, n: nat) returns (n': nat)
      requires Valid() && i < |was| == openSockNb && Live(was[i]) && UntouchedFrom(i, was)
      requires run == before + Expiries(was, i) && n == CountState(was[..i], Opening)
      modifies socks, ports, `filtered, `untested, `unfiltered, `closedNb, `closedNb1, `wait, `v, `run
      ensures Valid() && UntouchedFrom(i + 1, was) && run == before + Expiries(was, i + 1)
      ensures n' == CountState(was[..i + 1], Opening)
    {
      ExpiriesMore(before, was, i);
      CountNext(was, i, Opening);
      var dropped := TimeOut(i);
      n' := n + if dropped then 1 else 0;
    }

    method TimeOut(i: nat) returns (dropped: bool)
      requires Valid() && i < openSockNb && Live(v.socks[i])
      modifies socks, ports, `filtered, `untested, `unfiltered, `closedNb, `closedNb1, `wait, `v, `run
      ensures Valid() && run == old(run) + [Expiry(old(v.socks)[i], i)] &&
              (dropped <==> old(v.socks)[i].state == Opening)
      ensures |v.socks| == |old(v.socks)| && forall k :: i < k < |v.socks| ==> v.socks[k] == old(v.socks)[k]
    {
      SlotInRun(start, run, pass, i);
      dropped := false;
      if socks[i].fd > 0 {
        ghost var e;
        dropped, e := ExpireSlot(i);
      }
    }

    /** select marked `r` readable and `w` writable: the marked sockets are served. */
    method OnReady(r: set<int>, w: set<int>) returns (aborted: bool)
      requires Valid() && AllLive(v)
      requires r <= FdsIn(v.socks, Opened) && w <= FdsIn(v.socks, Opening) && r + w != {}
      modifies socks, ports, `filtered, `untested, `unfiltered, `closedNb, `closedNb1, `openNb, `openNb1, `wait
      modifies `reported, `v, `run
      ensures Valid() && old(run) <= run && |v.socks| == openSockNb
      ensures !aborted ==> old(run) < run && run[|old(run)|] != Packed
      ensures !aborted ==> forall k :: 0 <= k < |v.socks| ==> Served(old(v.socks)[k], v.socks[k], r, w)
    {
      ghost var was := v.socks;
      Marked(start, run, pass, r, w);
      ghost var j :| 0 <= j < |was| && was[j].fd in r + w;
      for i := 0 to openSockNb
        invariant Valid() && old(run) <= run && UntouchedFrom(i, was) && |v.socks| == openSockNb
        invariant |run| > |old(run)| ==> run[|old(run)|] != Packed
        invariant i > j ==> |run| > |old(run)|
        invariant forall k :: 0 <= k < i ==> Served(was[k], v.socks[k], r, w)
      {
        aborted := ServeSlot(i, r, w);
        if aborted { return; }
      }
      aborted := false;
    }

    /** One socket: a writable one learns the fate of its connect, a readable one is read and closed. */
    method ServeSlot(i: nat, r: set<int>, w: set<int>) returns (aborted: bool)
      requires Valid() && i < openSockNb
      requires (v.socks[i].fd in w ==> v.socks[i].state == Opening) &&
               (v.socks[i].fd in r ==> v.socks[i].state == Opened)
      modifies socks, ports, `filtered, `untested, `unfiltered, `closedNb, `closedNb1, `openNb, `openNb1, `wait
      modifies `reported, `v, `run
      ensures Valid() && old(run) <= run && |run| <= |old(run)| + 1
      ensures |run| > |old(run)| <==> old(v.socks[i].fd) in r + w && !aborted
      ensures |run| > |old(run)| ==> run[|old(run)|] != Packed
      ensures |v.socks| == |old(v.socks)| && forall k :: 0 <= k < |v.socks| && k != i ==> v.socks[k] == old(v.socks)[k]
      ensures !aborted ==> Served(old(v.socks)[i], v.socks[i], r, w)
    {
      SlotInRun(start, run, pass, i);
      aborted := false;
      if socks[i].fd > 0 {
        if socks[i].fd in w {
          var opt := OsSoError();
          if opt == SoCallFailed { return true; }
          ghost var e := SlotAnswered(i, opt);
        } else if socks[i].fd in r {
          CloseOpened(i);
          Record(Finished(i));
        }
      }
    }

    /** The result of an OPENING socket's connect. */
    method SlotAnswered(i: nat, opt: SoError) returns (ghost e: Event)
      requires Valid() && i < openSockNb && v.socks[i].state == Opening && opt != SoCallFailed
      modifies socks, ports, `filtered, `untested, `unfiltered, `closedNb, `closedNb1, `openNb, `openNb1, `wait
      modifies `reported, `v, `run
      ensures Valid() && run == old(run) + [e] && e == Settled(i, VerdictOf(opt))
      ensures |v.socks| == |old(v.socks)| && forall k :: 0 <= k < |v.socks| && k != i ==> v.socks[k] == old(v.socks)[k]
      ensures var s := old(v.socks)[i]; v.socks[i] == if opt == NoError then s.(state := Opened) else Freed(s)
      ensures |old(v.ports)| == PORTS && old(v.socks)[i].port < PORTS
      ensures Answered(old(v), v, old(v.socks)[i].port, opt)
    {
      SlotInRun(start, run, pass, i);
      SettledAnswers(v, i, opt, pass);
      match opt {
        case NoError =>
          e := Settled(i, Open);
          OpenSlot(i);
        case SoUnreachable =>
          e := Settled(i, Rejected);
          FailSlot(i, Rejected);
        case SoOther =>
          e := Settled(i, Closed);
          FailSlot(i, Closed);
      }
      Record(e);
    }

    /** Sockets past the read timeout are given up, and no others. */
    method Reap(late: set<int>) returns (timeoutNb: nat, droppedNb: nat, ghost es: seq<Event>)
      requires Valid()
      modifies socks, ports, `filtered, `untested, `unfiltered, `closedNb, `closedNb1, `wait, `v, `run
      ensures Valid() && |v.socks| == openSockNb && run == old(run) + es
      ensures Reaped(old(v.socks), late, openSockNb, v.socks, es, timeoutNb, droppedNb)
    {
      ghost var was := v.socks;
      timeoutNb, droppedNb, es := 0, 0, [];
      for i := 0 to openSockNb
        invariant Valid() && |v.socks| == openSockNb && run == old(run) + es
        invariant Reaped(was, late, i, v.socks, es, timeoutNb, droppedNb)
      {
        timeoutNb, droppedNb, es := ReapNext(i, late, was, old(run), es, timeoutNb, droppedNb);
      }
    }

    /** One more slot; `was` is the table before the first one, and `es` has been added to `before` since. */
    method ReapNext(i: nat, late: set<int>, ghost was: seq<Socket>, ghost before: seq<Event>, ghost es: seq<Event>,
                    t: nat, d: nat)
      returns (t': nat, d': nat, ghost fs: seq<Event>)
      requires Valid() && i < openSockNb == |v.socks| && Reaped(was, late, i, v.socks, es, t, d) && run == before + es
      modifies socks, ports, `filtered, `untested, `unfiltered, `closedNb, `closedNb1, `wait, `v, `run
      ensures Valid() && |v.socks| == |old(v.socks)| && run == before + fs
      ensures Reaped(was, late, i + 1, v.socks, fs, t', d')
    {
      ghost var now := v.socks;
      var timedOut, dropped := ReapSlot(i, late);
      t' := t + if timedOut then 1 else 0;
      d' := d + if dropped then 1 else 0;
      ghost var more := if IsLate(now[i], late) then [Expiry(now[i], i)] else [];
      fs := es + more;
      Grouped(before, es, more);
      ReapedNext(was, late, i, now, es, t, d, v.socks, fs, t', d');
    }

    method ReapSlot(i: nat, late: set<int>) returns (timedOut: bool, dropped: bool)
      requires Valid() && i < openSockNb && |v.socks| == openSockNb
      modifies socks, ports, `filtered, `untested, `unfiltered, `closedNb, `closedNb1, `wait, `v, `run
      ensures Valid()
      ensures run == old(run) + if IsLate(old(v.socks)[i], late) then [Expiry(old(v.socks)[i], i)] else []
      ensures v.socks == if IsLate(old(v.socks)[i], late) then old(v.socks)[i := Freed(old(v.socks)[i])]
              else old(v.socks)
      ensures timedOut <==> IsLate(old(v.socks)[i], late) && old(v.socks)[i].state == Opened
      ensures dropped <==> IsLate(old(v.socks)[i], late) && old(v.socks)[i].state == Opening
    {
      SlotInRun(start, run, pass, i);
      timedOut, dropped := false, false;
      if socks[i].fd >= 0 && socks[i].fd in late {
        ghost var e;
        dropped, e := ExpireSlot(i);
        timedOut := !dropped;
      }
    }

    // ----- the window -----

    /** The window after an iteration, and whether drops were seen that do not look like a firewall. */
    method AdjustWindow(droppedNb: nat, timeoutNb: nat, flag: bool) returns (droppedFlag: bool)
      requires Shape() && openSockMax2 >= 1
      modifies `openSockMax, `openSockMax2
      ensures Shape() && minCnx <= openSockMax
      ensures openSockMax == minCnx || openSockMax <= openSockMax2
      ensures droppedFlag <==>
                flag || (droppedNb > 0 && !(droppedNb >= (openSockNb * 3) / 4
                                            && (droppedNb < filtered || droppedNb > unfiltered)))
      ensures Adjusted(droppedNb, timeoutNb + (if flag && droppedNb == 0 then 1 else 0), openSockNb, filtered,
                       unfiltered, minCnx, maxCnx, old(openSockMax), old(openSockMax2), openSockMax, openSockMax2)
    {
      droppedFlag := flag;
      if droppedNb > 0 && ManyDrops(droppedNb, openSockNb, filtered, unfiltered) {
        openSockMax := openSockMax + droppedNb;
        if openSockMax2 < maxCnx { openSockMax2 := openSockMax2 + 1; }
      } else if droppedNb > 0 {
        droppedFlag := true;
        openSockMax := openSockMax - (droppedNb + 2) / 3;
        if openSockMax < minCnx { openSockMax := minCnx; }
        openSockMax2 := (openSockMax + 3 * openSockMax2) / 4;
      } else if droppedFlag {
        openSockMax := openSockMax + 1;
      }
      Widen(timeoutNb);
    }

    method Widen(timeoutNb: nat)
      modifies `openSockMax
      ensures openSockMax == Clamped(old(openSockMax) + timeoutNb, minCnx, openSockMax2)
    {
      openSockMax := openSockMax + timeoutNb;
      if openSockMax > openSockMax2 { openSockMax := openSockMax2; }
      if openSockMax < minCnx { openSockMax := minCnx; }
    }

    // ----- squeezing the table -----

    /** The in-place compaction: what remains is exactly the live sockets, in their original order. */
    method Compact()
      requires Valid()
      modifies socks, `openSockNb, `v, `run
      ensures Valid() && run == old(run) + [Packed] && AllLive(v)
      ensures v.socks == LiveOnly(old(v.socks))
    {
      forall k | 0 <= k < |v.socks| ensures v.socks[k].fd < 0 <==> !Live(v.socks[k]) { SlotInRun(start, run, pass, k); }
      SqueezeTable();
      LiveOnlyMembers(old(v.socks));
      v := v.(socks := LiveOnly(v.socks));
      Record(Packed);
    }

    method SqueezeTable()
      requires Holds() && FreedMarked(socks[..openSockNb])
      modifies socks, `openSockNb
      ensures 0 <= openSockNb <= old(openSockNb)
      ensures socks[..openSockNb] == LiveOnly(old(socks[..openSockNb]))
    {
      var i := 0;
      while i < openSockNb
        invariant 0 <= i <= openSockNb <= old(openSockNb)
        invariant forall k :: 0 <= k < i ==> Live(socks[k])
        invariant FreedMarked(socks[..openSockNb])
        invariant LiveOnly(socks[..openSockNb]) == LiveOnly(old(socks[..openSockNb]))
        decreases openSockNb - i
      {
        if socks[i].state == Unused || socks[i].fd < 0 {
          CloseGap(i);
        } else {
          i := i + 1;
        }
      }
      LiveOnlyAll(socks[..openSockNb]);
    }

    /** The sockets after the stretch of freed slots at `i` move down over it. */
    method CloseGap(i: nat)
      requires Shape() && i < openSockNb && !Live(socks[i]) && FreedMarked(socks[..openSockNb])
      modifies socks, `openSockNb
      ensures i <= openSockNb < old(openSockNb) && socks[..i] == old(socks[..i]) && FreedMarked(socks[..openSockNb])
      ensures LiveOnly(socks[..openSockNb]) == LiveOnly(old(socks[..openSockNb]))
    {
      var j := i + 1;
      while j < openSockNb && (socks[j].state == Unused || socks[j].fd < 0)
        invariant i < j <= openSockNb
        invariant forall k :: i <= k < j ==> !Live(socks[k])
      {
        j := j + 1;
      }
      ghost var t := socks[..openSockNb];
      GapSqueezed(t, i, j);
      GapMarked(t, i, j);
      assert t[..i] == socks[..i] && t[j..] == socks[j..openSockNb];
      MoveDown(i, j);
    }

    /** memmove of the table's tail; nothing to move when the stretch reaches the last slot in use. */
    method MoveDown(i: nat, j: nat)
      requires Shape() && i < j <= openSockNb
      modifies socks, `openSockNb
      ensures openSockNb == old(openSockNb) - (j - i)
      ensures socks[..openSockNb] == old(socks[..i] + socks[j..openSockNb]) && socks[..i] == old(socks[..i])
    {
      if j < openSockNb {
        forall k | 0 <= k < maxCnx - j { socks[i + k] := socks[j + k]; }
      }
      openSockNb := openSockNb - (j - i);
    }

    // ----- one pass -----

    /** select, then serve whatever it marked. */
    method Poll() returns (aborted: bool, droppedNb: nat, ghost answer: int)
      requires Valid() && AllLive(v) && openSockNb > 0
      modifies socks, ports, `filtered, `untested, `unfiltered, `closedNb, `closedNb1, `openNb, `openNb1, `wait
      modifies `reported, `v, `run, `imax
      ensures Valid() && old(run) <= run && |v.socks| == openSockNb
      ensures !aborted ==> old(run) < run && run[|old(run)|] != Packed
      ensures answer < 0 ==> aborted && run == old(run)
      ensures answer == 0 ==> !aborted && run == old(run) + Expiries(old(v.socks), |old(v.socks)|)
      ensures droppedNb == if answer == 0 then CountState(old(v.socks), Opening) else 0
      ensures openSockNb == old(openSockNb)
    {
      var rfs, wfs, max := WatchSets();
      imax := max;
      // A select interrupted by a signal is repeated; this is its last answer.
      var x, r, w := OsSelect(rfs, wfs);
      aborted, droppedNb, answer := x < 0, 0, x;
      if x == 0 {
        droppedNb := OnTimeout();
      } else if x > 0 {
        aborted := OnReady(r, w);
      }
    }

    /** A turn with `d` drops and `t` timeouts has ended: the window, and the flag for drops unlike a firewall's. */
    ghost predicate TurnEnded(d: nat, t: nat, nb: int, max: int, max2: int, flag: bool)
      reads this
    {
      && Adjusted(d, t, nb, filtered, unfiltered, minCnx, maxCnx, max, max2, openSockMax, openSockMax2)
      && (flag <==> d > 0 && !(d >= (nb * 3) / 4 && (d < filtered || d > unfiltered)))
    }

    /** Reap, adjust the window, squeeze the table. */
    method Tidy(droppedNb: nat) returns (droppedFlag: bool, ghost d: nat, ghost t: nat)
      requires Valid() && openSockMax2 >= 1
      modifies socks, ports, `filtered, `untested, `unfiltered, `closedNb, `closedNb1, `wait, `v, `run
      modifies `openSockMax, `openSockMax2, `openSockNb
      ensures Valid() && old(run) <= run && AllLive(v) && minCnx <= openSockMax && d >= droppedNb
      ensures TurnEnded(d, t, old(openSockNb), old(openSockMax), old(openSockMax2), droppedFlag)
    {
      var late := OsLate();
      var timeoutNb, reaped, es := Reap(late);
      droppedFlag := AdjustWindow(droppedNb + reaped, timeoutNb, false);
      d, t := droppedNb + reaped, timeoutNb;
      Compact();
    }

    /** One turn of the scanning loop; a turn that serves no socket leaves the flag as it was. */
    method Turn(flag: bool) returns (out: Attempt, droppedFlag: bool)
      requires Valid() && AllLive(v) && NoUnknownBelow(v.ports, minport) && 1 <= minport
      modifies this, ports, socks
      ensures Valid() && SamePass() && old(run) <= run
      ensures out == Next ==> AllLive(v) && NoUnknownBelow(v.ports, minport) && 1 <= minport
      ensures out == Next ==> Measure(v) < old(Measure(v))
      ensures out == Stop ==> openSockNb == 0 && openSockMax2 > 0 && droppedFlag == flag
      ensures out == Stop && openSockMax > 0 ==> NoUnknownBelow(v.ports, PORTS)
    {
      droppedFlag := flag;
      var aborted, ready := OpenLoop();
      if aborted || openSockMax2 <= 0 { return Abort, droppedFlag; }
      if openSockNb == 0 { return Stop, droppedFlag; }
      ghost var d, t;
      out, droppedFlag, d, t := Serve(old(run), old(v));
    }

    /**
     The second half of a turn, in which at least one socket is served; the first half began after
     `before`, in `w`.
     */
    method Serve(ghost before: seq<Event>, ghost w: View)
      returns (out: Attempt, droppedFlag: bool, ghost d: nat, ghost t: nat)
      requires Valid() && AllLive(v) && NoUnknownBelow(v.ports, minport) && openSockNb > 0 && openSockMax2 > 0
      requires before <= run && w == Run(start, before, pass) && |w.ports| == PORTS
      modifies socks, ports, `filtered, `untested, `unfiltered, `closedNb, `closedNb1, `openNb, `openNb1, `wait
      modifies `reported, `v, `run, `imax, `openSockMax, `openSockMax2, `openSockNb
      ensures Valid() && before <= run && (out == Next || out == Abort)
      ensures out == Next ==> AllLive(v) && NoUnknownBelow(v.ports, minport)
      ensures out == Next ==> Measure(v) < Measure(w)
      ensures out == Next ==> TurnEnded(d, t, old(openSockNb), old(openSockMax), old(openSockMax2), droppedFlag)
    {
      ghost var es := run;
      assert es[..|before|] == before;
      var aborted;
      aborted, droppedFlag, d, t := PollAndTidy();
      if aborted { return Abort, droppedFlag, d, t; }
      TurnProgress(start, es, run, |before|, pass, minport);
      out := Next;
    }

    method PollAndTidy() returns (aborted: bool, droppedFlag: bool, ghost d: nat, ghost t: nat)
      requires Valid() && AllLive(v) && openSockNb > 0 && openSockMax2 > 0
      modifies socks, ports, `filtered, `untested, `unfiltered, `closedNb, `closedNb1, `openNb, `openNb1, `wait
      modifies `reported, `v, `run, `imax, `openSockMax, `openSockMax2, `openSockNb
      ensures Valid() && old(run) <= run
      ensures !aborted ==> AllLive(v) && old(run) < run && run[|old(run)|] != Packed
      ensures !aborted ==> TurnEnded(d, t, old(openSockNb), old(openSockMax), old(openSockMax2), droppedFlag)
    {
      var droppedNb;
      ghost var answer;
      d, t := 0, 0;
      aborted, droppedNb, answer := Poll();
      if aborted { return aborted, false, d, t; }
      droppedFlag, d, t := Tidy(droppedNb);
    }

    /** A pass: it ends with an empty table, and with no port left to test unless the window was shut. */
    method RunPass(flag: bool) returns (aborted: bool, droppedFlag: bool)
      requires Valid() && openSockNb == 0
      modifies this, ports, socks
      ensures Valid() && SamePass() && old(run) <= run
      ensures !aborted ==> openSockNb == 0 && openSockMax2 > 0
      ensures !aborted && openSockMax > 0 ==> NoUnknownBelow(v.ports, PORTS)
    {
      minport, imax, droppedFlag := 1, -1, flag;
      while true
        invariant Valid() && SamePass() && old(run) <= run
        invariant AllLive(v) && NoUnknownBelow(v.ports, minport) && 1 <= minport
        decreases Measure(v)
      {
        var out;
        out, droppedFlag := Turn(droppedFlag);
        if out != Next { return out == Abort, droppedFlag; }
      }
    }

    // ----- between passes -----

    /** double_check_std_ports: no port counts as standard, so this only counts the UNKNOWN ones. */
    method DoubleCheck() returns (n: nat)
      requires Holds()
      ensures n == UnknownNb(v.ports)
    {
      n := 0;
      for port := 1 to PORTS
        invariant n == multiset(ports[1..port])[Unknown]
      {
        assert ports[1..port + 1] == ports[1..port] + [ports[port]];
        if ports[port] == Unknown { n := n + 1; }
      }
      assert ports[1..PORTS] == v.ports[1..];
    }

    /** Every SILENT port becomes UNKNOWN again, and is counted. */
    method RequeueSilent() returns (n: nat)
      requires Holds()
      modifies ports
      ensures ports[..] == RequeueUpTo(v.ports, |v.ports|)
      ensures n == multiset(v.ports[1..])[Silent]
    {
      n := 0;
      for port := 1 to PORTS
        invariant ports[..] == RequeueUpTo(v.ports, port)
        invariant n == multiset(v.ports[1..port])[Silent]
      {
        SilentSoFar(v.ports, port);
        var silent := RequeueOne(port);
        if silent { n := n + 1; }
      }
      assert v.ports[1..PORTS] == v.ports[1..];
    }

    method RequeueOne(port: nat) returns (silent: bool)
      requires ports.Length == |v.ports| && 1 <= port < |v.ports| && ports[..] == RequeueUpTo(v.ports, port)
      modifies ports
      ensures ports[..] == RequeueUpTo(v.ports, port + 1) && silent == (v.ports[port] == Silent)
    {
      assert ports[port] == ports[..][port];
      silent := ports[port] == Silent;
      if silent { SetPort(port, Unknown); }
    }

    /** The pass's own counters start again; `n` ports are to be tested. */
    method ResetCounters(n: int, ghost requeue: bool)
      requires Shape() && |v.ports| == PORTS
      requires v == View(v.ports, socks[..openSockNb], wait, openNb, closedNb, openNb1, closedNb1,
                         unfiltered, filtered, untested, reported, v.leaked, v.probes)
      requires ports[..] == if requeue then RequeueUpTo(v.ports, |v.ports|) else v.ports
      modifies `v, `filtered, `untested, `openNb1, `closedNb1, `wait
      ensures Holds() && v == NextStart(old(v), requeue, n) && untested == n
    {
      untested, filtered := n, 0;
      openNb1, closedNb1, wait := 0, 0, 0;
      v := NextStart(v, requeue, n);
    }

    /** Close the books on this pass; the tables already hold what the next one starts from. */
    ghost method Advance(requeue: bool)
      requires InScan() && LegalRun(start, run, pass) && Run(start, run, pass).socks == [] &&
               |Run(start, run, pass).ports| == PORTS
      requires Holds() && v == NextStart(Run(start, run, pass), requeue, untested)
      modifies `hist, `pass, `start, `run
      ensures Valid() && InScan() && run == [] && hist == old(hist) + [PassRecord(old(run), requeue, untested)]
    {
      PassClosed(init, hist, PassRecord(run, requeue, untested), start, v);
      NextOf(pass + 1, hist + [PassRecord(run, requeue, untested)]);
    }

    /** The pass after those `done`. */
    ghost method NextOf(n: nat, done: seq<PassRecord>)
      requires Holds() && n == |done| + 1 && LegalScan(init, done) && v == StartOf(init, done)
      requires LegalRun(v, [], n) && v == Run(v, [], n)
      modifies `hist, `pass, `start, `run
      ensures Valid() && InScan() && run == [] && hist == done
    {
      hist := done;
      BeginPass(n);
    }

    ghost method BeginPass(n: nat)
      requires Holds() && LegalRun(v, [], n) && v == Run(v, [], n)
      modifies `pass, `start, `run
      ensures Valid() && run == [] && pass == n && start == v
    {
      pass, start, run := n, v, [];
    }

    /** The silent ports go back into the queue, and the next pass begins. */
    method QueueAgain() returns (n: nat)
      requires Valid() && InScan() && openSockNb == 0
      modifies ports, `v, `filtered, `untested, `openNb1, `closedNb1, `wait, `hist, `pass, `start, `run
      ensures Valid() && InScan() && run == [] && hist == old(hist) + [PassRecord(old(run), true, n)]
      ensures n == multiset(old(v.ports)[1..])[Silent] && untested == n
    {
      n := RequeueSilent();
      ResetCounters(n, true);
      Advance(true);
    }

    /** The next pass tests what this one left UNKNOWN. */
    method CheckAgain(n: nat)
      requires Valid() && InScan() && openSockNb == 0
      modifies `v, `filtered, `untested, `openNb1, `closedNb1, `wait, `hist, `pass, `start, `run
      ensures Valid() && InScan() && run == [] && hist == old(hist) + [PassRecord(old(run), false, n)] && untested == n
    {
      ResetCounters(n, false);
      Advance(false);
    }

    /** The window for the pass after pass `k`, in which ports were dropped or many were filtered. */
    method NarrowWindow(k: nat, droppedFlag: bool, rstRateLimit: nat)
      requires Shape() && k >= 1 && openSockMax2 > 0
      modifies `openSockMax, `openSockMax2
      ensures Shape() && openSockMax >= 1
      ensures 2 * openSockMax <= maxCnx
      ensures !droppedFlag || rstRateLimit == 0 ==> openSockMax == Clamped(minCnx / (k + 1), 1, maxCnx)
      ensures !droppedFlag ==> 3 * openSockMax2 <= 2 * old(openSockMax2) < 3 * openSockMax2 + 3
      ensures droppedFlag && rstRateLimit == 0 ==> openSockMax2 > openSockMax && openSockMax2 >= old(openSockMax2)
      ensures droppedFlag && rstRateLimit > 0 ==>
        && openSockMax == Clamped(minCnx / (k + 1), 1, GRAB_MAX_SOCK_SAFE)
        && openSockMax2 == Clamped(old(openSockMax2), 1, GRAB_MAX_SOCK_SAFE)
    {
      HalfAtMost(minCnx, k + 1);
      openSockMax := minCnx / (k + 1);
      if openSockMax < 1 { openSockMax := 1; }
      if !droppedFlag {
        openSockMax2 := openSockMax2 * 2 / 3;
      } else if rstRateLimit > 0 {
        if openSockMax2 > GRAB_MAX_SOCK_SAFE { openSockMax2 := GRAB_MAX_SOCK_SAFE; }
        if openSockMax > GRAB_MAX_SOCK_SAFE { openSockMax := GRAB_MAX_SOCK_SAFE; }
      } else if openSockMax2 <= openSockMax {
        openSockMax2 := openSockMax * 2;
      }
    }

    /** The window for double-checking after the first pass. */
    method CheckWindow(k: nat)
      requires Shape() && k >= 1
      modifies `openSockMax, `openSockMax2
      ensures Shape() && openSockMax == Clamped(minCnx / k, 0, GRAB_MAX_SOCK_SAFE)
      ensures openSockMax <= openSockMax2 <= GRAB_MAX_SOCK_SAFE
    {
      QuotientAtMost(minCnx, k);
      openSockMax := minCnx / k;
      if openSockMax2 <= openSockMax { openSockMax2 := openSockMax * 2; }
      if openSockMax2 > GRAB_MAX_SOCK_SAFE { openSockMax2 := GRAB_MAX_SOCK_SAFE; }
      if openSockMax > GRAB_MAX_SOCK_SAFE { openSockMax := GRAB_MAX_SOCK_SAFE; }
    }

    /** RST rate limiting looks likely: `t1` and `t` are the seconds spent in the pass and in the scan. */
    predicate LooksRateLimited(k: nat, t1: int, t: int)
      reads this
    {
      && k > 1 && openNb1 == 0 && closedNb1 >= minCnx
      && (t1 + 1) * 10 <= closedNb1 < (t1 + 1) * 201
      && (t + 1) * 10 <= closedNb < (t + 1) * 201
    }

    /** The test of the code: 10 to 200 RSTs a second in this pass, which opened nothing, and in the whole scan. */
    ghost predicate TenToTwoHundred(k: nat, t1: int, t: int)
      reads this
    {
      && k > 1 && openNb1 == 0 && closedNb1 >= minCnx
      && 10 * t1 + 10 <= closedNb1 <= 201 * t1 + 200 && 10 * t + 10 <= closedNb <= 201 * t + 200
    }

    /** A suspected rate limit would end the scan, were it not for ports that are still UNKNOWN. */
    ghost predicate WorthChecking(k: nat, c: Control, t1: int, t: int)
      requires |v.ports| == PORTS
      reads this
    {
      TenToTwoHundred(k, t1, t) && (openSockMax2 <= GRAB_MAX_SOCK_SAFE || c.rstRateLimit > 0) && UnknownNb(v.ports) > 0
    }

    /** Whether the scan is over after pass `k`, as far as a suspected RST rate limit decides it. */
    method RateLimited(k: nat, c: Control, t1: int, t: int) returns (stop: bool, d: Control)
      requires Holds()
      ensures stop <==> && TenToTwoHundred(k, t1, t) && (openSockMax2 <= GRAB_MAX_SOCK_SAFE || c.rstRateLimit > 0)
                        && (UnknownNb(v.ports) == 0 || c.doublecheck)
      ensures d == Control(c.oldFiltered, c.oldOpened, c.doublecheck || WorthChecking(k, c, t1, t),
                           c.rstRateLimit + if TenToTwoHundred(k, t1, t) then 1 else 0)
    {
      stop, d := false, c;
      if LooksRateLimited(k, t1, t) {
        stop := openSockMax2 <= GRAB_MAX_SOCK_SAFE || c.rstRateLimit > 0;
        if stop && !c.doublecheck {
          var tbd := DoubleCheck();
          if tbd > 0 { d, stop := d.(doublecheck := true), false; }
        }
        d := d.(rstRateLimit := c.rstRateLimit + 1);
      }
    }

    /** After pass `k` ports were dropped, or too many are filtered. */
    predicate Suspicious(k: nat, droppedFlag: bool)
      reads this
    {
      droppedFlag || (k == 1 && filtered > 10 && closedNb > 10) || (k > 1 && filtered > 0)
    }

    /** ... and yet another pass is no use: nothing has changed, or answers are rate limited. */
    ghost predicate Hopeless(k: nat, c: Control, t1: int, t: int)
      requires |v.ports| == PORTS
      reads this
    {
      || (c.doublecheck && c.rstRateLimit > 0 && openNb == c.oldOpened)
      || filtered == c.oldFiltered
      || (TenToTwoHundred(k, t1, t) && (openSockMax2 <= GRAB_MAX_SOCK_SAFE || c.rstRateLimit > 0)
          && UnknownNb(v.ports) == 0)
    }

    /** What the next pass has to remember: how many ports are tested again, what is open, and the two suspicions. */
    ghost function AfterTest(k: nat, c: Control, t1: int, t: int): Control
      requires |v.ports| == PORTS
      reads this
    {
      Control(multiset(v.ports[1..])[Silent], openNb, WorthChecking(k, c, t1, t),
              c.rstRateLimit + if TenToTwoHundred(k, t1, t) then 1 else 0)
    }

    /** Ports were dropped, or too many are filtered: test the silent ones again, unless nothing has changed. */
    method TestAgain(k: nat, droppedFlag: bool, c: Control, t1: int, t: int) returns (stop: bool, d: Control)
      requires Valid() && InScan() && openSockNb == 0 && k >= 1 && openSockMax2 > 0
      modifies ports, `v, `filtered, `untested, `openNb1, `closedNb1, `wait, `hist, `pass, `start, `run
      modifies `openSockMax, `openSockMax2
      ensures Valid() && InScan()
      ensures stop <==> old(Hopeless(k, c, t1, t))
      ensures !stop ==> d == old(AfterTest(k, c, t1, t)) && untested == d.oldFiltered
      ensures if stop then hist == old(hist) && run == old(run) && v == old(v) && openSockMax == old(openSockMax)
              else |hist| == |old(hist)| + 1 && run == []
    {
      d := c;
      if c.doublecheck && c.rstRateLimit > 0 && openNb == c.oldOpened { return true, d; }
      d := d.(oldOpened := openNb, doublecheck := false);
      if filtered == c.oldFiltered { return true, d; }
      stop, d := RateLimited(k, d, t1, t);
      if stop { return; }
      var n := QueueNarrow(k, droppedFlag, d.rstRateLimit);
      d := d.(oldFiltered := n);
    }

    method QueueNarrow(k: nat, droppedFlag: bool, rstRateLimit: nat) returns (n: nat)
      requires Valid() && InScan() && openSockNb == 0 && k >= 1 && openSockMax2 > 0
      modifies ports, `v, `filtered, `untested, `openNb1, `closedNb1, `wait, `hist, `pass, `start, `run
      modifies `openSockMax, `openSockMax2
      ensures Valid() && InScan() && |hist| == |old(hist)| + 1 && run == [] && untested == n
      ensures n == multiset(old(v.ports)[1..])[Silent] && openSockMax >= 1
    {
      n := QueueAgain();
      NarrowWindow(k, droppedFlag, rstRateLimit);
    }

    /** Only the usual ports are worth a second look. */
    method LookAgain(k: nat, c: Control) returns (stop: bool, d: Control)
      requires Valid() && InScan() && openSockNb == 0 && k >= 1 && openSockMax2 > 0
      modifies ports, `v, `filtered, `untested, `openNb1, `closedNb1, `wait, `hist, `pass, `start, `run
      modifies `openSockMax, `openSockMax2
      ensures Valid() && InScan()
      ensures stop <==> old(UnknownNb(v.ports) == 0)
      ensures !stop ==> d == c.(doublecheck := true, oldFiltered := untested) && untested == old(UnknownNb(v.ports))
      ensures !stop ==> openSockMax == Clamped(minCnx / k, 0, GRAB_MAX_SOCK_SAFE)
      ensures if stop then hist == old(hist) && run == old(run) && v == old(v) && openSockMax == old(openSockMax)
              else |hist| == |old(hist)| + 1 && run == []
    {
      d := c.(doublecheck := true);
      var n := DoubleCheck();
      if n == 0 { return true, d; }
      d := d.(oldFiltered := n);
      CheckAgain(n);
      CheckWindow(k);
      stop := false;
    }

    /** Decide after pass `k` whether to make another one, and set it up. */
    method EndPass(k: nat, droppedFlag: bool, c: Control, t1: int, t: int) returns (stop: bool, d: Control)
      requires Valid() && InScan() && openSockNb == 0 && k >= 1 && openSockMax2 > 0
      modifies ports, `v, `filtered, `untested, `openNb1, `closedNb1, `wait, `hist, `pass, `start, `run
      modifies `openSockMax, `openSockMax2
      ensures Valid() && InScan() && openSockNb == 0
      ensures var again := || droppedFlag || (k == 1 && old(filtered) > 10 && old(closedNb) > 10)
                           || (k > 1 && old(filtered) > 0);
              && (stop <==> if again then old(Hopeless(k, c, t1, t)) else old(filtered <= 0 || UnknownNb(v.ports) == 0))
              && (!stop ==> d == if again then old(AfterTest(k, c, t1, t))
                                 else c.(doublecheck := true, oldFiltered := old(UnknownNb(v.ports))))
      ensures if stop then hist == old(hist) && run == old(run) && v == old(v) && openSockMax == old(openSockMax)
              else |hist| == |old(hist)| + 1 && run == []
    {
      if Suspicious(k, droppedFlag) {
        stop, d := TestAgain(k, droppedFlag, c, t1, t);
      } else if filtered > 0 {
        stop, d := LookAgain(k, c);
      } else {
        stop, d := true, c;
      }
    }

    /** The table of requested ports, before anything has been probed. */
    constructor (requested: set<nat>, count: int, minCnx: int, maxCnx: int)
      requires 1 <= minCnx <= maxCnx / 2 && maxCnx <= GRAB_MAX_SOCK
      ensures Valid() && InScan() && fresh(ports) && fresh(socks) && hist == [] && run == [] && openSockNb == 0
      ensures v.reported == [] && v.probes == [] && |v.ports| == PORTS
      ensures forall p :: 0 <= p < PORTS ==> v.ports[p] == if p in requested then Unknown else NotTested
    {
      ports := new PortState[PORTS](i => if i in requested then Unknown else NotTested);
      socks := new Socket[GRAB_MAX_SOCK](_ => Socket(-1, 0, Unused));
      this.minCnx, this.maxCnx := minCnx, maxCnx;
      openSockNb, openSockMax, openSockMax2 := 0, minCnx, maxCnx;
      wait, openNb, closedNb, openNb1, closedNb1 := 0, 0, 0, 0, 0;
      unfiltered, filtered, untested := 0, 0, count;
      minport, imax, reported := 1, -1, [];
      hist, pass, run := [], 1, [];
      new;
      v := View(ports[..], [], 0, 0, 0, 0, 0, 0, 0, count, [], {}, []);
      init, start := v, v;
      assert socks[..0] == [];
      FreshConsistent(v);
      assert LegalScan(init, hist) && LegalRun(start, run, pass);
    }

    /** The whole scan; `aborted` is a result of -1.  What it has then done is `ScanOutcome`. */
    method BannerGrab() returns (aborted: bool)
      requires Valid() && InScan() && hist == [] && openSockNb == 0
      modifies this, ports, socks
      ensures Valid() && InScan() && init == old(init)
      ensures |hist| < MAX_PASS_NB || (|hist| == MAX_PASS_NB && run == [])
      ensures !aborted ==> v.socks == []
      ensures !aborted && |hist| < MAX_PASS_NB && openSockMax > 0 ==> NoUnknownBelow(v.ports, PORTS)
    {
      var c := Control(-1, -1, false, 0);
      var flag, k := false, 1;
      while k <= MAX_PASS_NB
        invariant Valid() && InScan() && init == old(init) && openSockNb == 0 && 1 <= k <= MAX_PASS_NB + 1
        invariant |hist| == k - 1 && (k > MAX_PASS_NB ==> run == [])
      {
        aborted, flag := RunPass(flag);
        if aborted { return; }
        var t1 := OsClock();
        var t := OsClock();
        var stop;
        stop, c := EndPass(k, flag, c, t1, t);
        if stop { break; }
        k := k + 1;
      }
      aborted := false;
    }
  }

  lemma {:induction false} HalfAtMost(n: nat, d: nat)
    requires d >= 2
    ensures 2 * (n / d) <= n
  {
    assert n == d * (n / d) + n % d;
    assert 2 * (n / d) <= d * (n / d);
  }

  lemma {:induction false} QuotientAtMost(n: nat, d: nat)
    requires d >= 1
    ensures 0 <= n / d <= n
  {
    assert n == d * (n / d) + n % d;
    assert n / d <= d * (n / d);
  }
}
