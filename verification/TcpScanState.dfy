/**
 The connect scanner's bookkeeping as a state machine over the operating system's answers
 (nasl/nasl_builtin_openvas_tcp_scanner.c, `banner_grab`): the state, its invariant, and the events,
 one per branch of the original.
 */
module TcpScanState {
  import opened Common

  const PORTS := 65536
  const MAX_PASS_NB := 16

  datatype PortState = Unknown | Closed | Open | Silent | Rejected | NotTested | Testing

  datatype SockState = Unused | Opening | Opened

  datatype Socket = Socket(fd: int, port: nat, state: SockState)

  /** One `connect` call: the pass it was made in and the port it went to. */
  datatype Probe = Probe(pass: nat, port: nat)

  datatype View = View(
    ports: seq<PortState>,    // ports_states
    socks: seq<Socket>,       // sockets[0 .. open_sock_nb)
    wait: int,                // wait_sock_nb
    openNb: int,              // open_ports_nb
    closedNb: int,            // closed_ports_nb
    openNb1: int,             // open_ports_nb1: opened in this pass
    closedNb1: int,           // closed_ports_nb1: closed in this pass
    unfiltered: int,          // unfiltered_ports_nb
    filtered: int,            // filtered_ports_nb
    untested: int,            // untested_ports_nb
    reported: seq<nat>,       // ports handed to scanner_add_port, in order
    leaked: set<nat>,         // ports marked TESTING whose attempt was dropped without a socket
    probes: seq<Probe>)       // connect calls, in order

  predicate ScanPort(p: int) { 1 <= p < PORTS }

  predicate Verdict(s: PortState) { s == Open || s == Closed || s == Rejected }

  predicate Live(s: Socket) { s.state != Unused }

  function CountState(socks: seq<Socket>, st: SockState): (n: nat) {
    if socks == [] then 0 else CountState(socks[..|socks| - 1], st) + (if socks[|socks| - 1].state == st then 1 else 0)
  }

  /** The ports that the current pass may still open: UNKNOWN ones in 1 .. 65535. */
  ghost function UnknownNb(ports: seq<PortState>): (n: nat)
    requires |ports| == PORTS
  {
    multiset(ports[1..])[Unknown]
  }

  /** 3 * #UNKNOWN + 2 * #OPENING + #OPEN */
  ghost function Measure(v: View): (n: nat)
    requires |v.ports| == PORTS
  {
    3 * UnknownNb(v.ports) + 2 * CountState(v.socks, Opening) + CountState(v.socks, Opened)
  }

  // ----- the invariant of every reachable state -----

  /** A slot of the socket table agrees with the port table. */
  ghost predicate SlotOk(s: Socket, ports: seq<PortState>)
    requires |ports| == PORTS
  {
    match s.state
    case Unused => s.fd < 0
    case Opening => s.fd > 0 && ScanPort(s.port) && ports[s.port] == Testing
    case Opened => s.fd > 0 && ScanPort(s.port) && ports[s.port] == Open
  }

  ghost predicate SlotsOk(socks: seq<Socket>, ports: seq<PortState>)
    requires |ports| == PORTS
  {
    forall i :: 0 <= i < |socks| ==> SlotOk(socks[i], ports)
  }

  /** No two live sockets share a port or a descriptor. */
  ghost predicate Distinct(socks: seq<Socket>) {
    forall i, j :: 0 <= i < j < |socks| && Live(socks[i]) && Live(socks[j]) ==>
      socks[i].port != socks[j].port && socks[i].fd != socks[j].fd
  }

  ghost predicate Owned(socks: seq<Socket>, p: nat) {
    exists i :: 0 <= i < |socks| && Live(socks[i]) && socks[i].port == p
  }

  /** Every port in state TESTING has a live socket, except exactly the leaked ones. */
  ghost predicate TestingAccounted(ports: seq<PortState>, socks: seq<Socket>, leaked: set<nat>)
    requires |ports| == PORTS
  {
    && (forall p :: p in leaked ==> ScanPort(p) && ports[p] == Testing && !Owned(socks, p))
    && (forall p :: ScanPort(p) && ports[p] == Testing ==> p in leaked || Owned(socks, p))
  }

  /** The socket table and the port table agree. */
  ghost predicate Table(v: View) {
    && |v.ports| == PORTS
    && SlotsOk(v.socks, v.ports)
    && Distinct(v.socks)
    && TestingAccounted(v.ports, v.socks, v.leaked)
    && v.wait == CountState(v.socks, Opened)
  }

  /** Exactly the OPEN ports have been reported, each once. */
  ghost predicate ReportsOk(ports: seq<PortState>, reported: seq<nat>)
    requires |ports| == PORTS
  {
    && NoDuplicates(reported)
    && (forall i :: 0 <= i < |reported| ==> ScanPort(reported[i]) && ports[reported[i]] == Open)
    && (forall p :: 0 <= p < PORTS && ports[p] == Open ==> p in reported)
  }

  ghost predicate CountersOk(v: View) {
    && v.openNb == multiset(v.ports)[Open] == |v.reported|
    && v.closedNb == multiset(v.ports)[Closed]
    && v.unfiltered == v.openNb + v.closedNb
  }

  /** Probes are never repeated within a pass, and a port probed in this pass is no longer UNKNOWN. */
  ghost predicate ProbesOk(probes: seq<Probe>, ports: seq<PortState>, pass: nat)
    requires |ports| == PORTS
  {
    && NoDuplicates(probes)
    && (forall i :: 0 <= i < |probes| ==> 1 <= probes[i].pass <= pass && ScanPort(probes[i].port))
    && (forall i :: 0 <= i < |probes| && probes[i].pass == pass ==> ports[probes[i].port] != Unknown)
  }

  /** Counters, reports and probes agree with the port table. */
  ghost predicate Books(v: View, pass: nat) {
    |v.ports| == PORTS && ReportsOk(v.ports, v.reported) && CountersOk(v) && ProbesOk(v.probes, v.ports, pass)
  }

  ghost predicate Consistent(v: View, pass: nat) {
    Table(v) && Books(v, pass)
  }

  /** What no step of a scan may undo. */
  ghost predicate Keeps(a: View, b: View) {
    && |a.ports| == PORTS && |b.ports| == PORTS
    && (forall p :: 0 <= p < PORTS && Verdict(a.ports[p]) ==> b.ports[p] == a.ports[p])
    && (forall p :: 0 <= p < PORTS ==> (a.ports[p] == NotTested <==> b.ports[p] == NotTested))
    && a.reported <= b.reported
    && a.probes <= b.probes
  }

  /**
   A step inside a pass: nothing becomes UNKNOWN again, the pass's own counters move with the
   totals, and every port stays counted once.
   */
  ghost predicate KeepsInPass(a: View, b: View) {
    && Keeps(a, b)
    && (forall p :: 0 <= p < PORTS && b.ports[p] == Unknown ==> a.ports[p] == Unknown)
    && a.openNb - a.openNb1 == b.openNb - b.openNb1 && a.closedNb - a.closedNb1 == b.closedNb - b.closedNb1
    && a.unfiltered + a.filtered + a.untested == b.unfiltered + b.filtered + b.untested
    && b.untested - multiset(b.ports)[Unknown] - multiset(b.ports)[Testing]
       == a.untested - multiset(a.ports)[Unknown] - multiset(a.ports)[Testing]
  }

  ghost predicate AllLive(v: View) {
    forall i :: 0 <= i < |v.socks| ==> Live(v.socks[i])
  }

  ghost predicate NoUnknownBelow(ports: seq<PortState>, m: int) {
    m <= |ports| && forall q :: 1 <= q < m ==> ports[q] != Unknown
  }

  // ----- events -----

  datatype Event =
    | Dropped(p: nat, probed: bool)     // no descriptor, or EAGAIN: TESTING without a socket
    | Begun(p: nat, fd: int)            // connect is in progress
    | OpenedNow(p: nat, fd: int)        // connect succeeded at once
    | FailedNow(p: nat, x: PortState)   // connect refused (CLOSED) or target unreachable (REJECTED)
    | Settled(i: nat, x: PortState)     // the OPENING socket in slot i gets its verdict
    | Finished(i: nat)                  // the OPEN socket in slot i was read, or timed out
    | Packed                            // freed slots are squeezed out of the table

  predicate IsAttempt(e: Event) { e.Dropped? || e.Begun? || e.OpenedNow? || e.FailedNow? }

  /** An attempt is always on an UNKNOWN port. */
  ghost predicate Fresh(v: View, p: nat) {
    |v.ports| == PORTS && ScanPort(p) && v.ports[p] == Unknown
  }

  ghost predicate NewFd(v: View, fd: int) {
    fd > 0 && forall i :: 0 <= i < |v.socks| ==> v.socks[i].fd != fd
  }

  ghost predicate Legal(v: View, e: Event) {
    match e
    case Dropped(p, _) => Fresh(v, p)
    case Begun(p, fd) => Fresh(v, p) && NewFd(v, fd)
    case OpenedNow(p, fd) => Fresh(v, p) && NewFd(v, fd)
    case FailedNow(p, x) => Fresh(v, p) && (x == Closed || x == Rejected)
    case Settled(i, x) =>
      && |v.ports| == PORTS && i < |v.socks| && v.socks[i].state == Opening && SlotOk(v.socks[i], v.ports)
      && (x == Silent || x == Rejected || x == Closed || x == Open)
    case Finished(i) => |v.ports| == PORTS && i < |v.socks| && v.socks[i].state == Opened && SlotOk(v.socks[i], v.ports)
    case Packed => |v.ports| == PORTS
  }

  /** Port `p` takes state `x`; counters and reports follow. */
  function Tally(v: View, p: nat, x: PortState): (r: View)
    requires p < |v.ports|
  {
    var u := v.(ports := v.ports[p := x]);
    match x
    case Open =>
      u.(openNb := v.openNb + 1, openNb1 := v.openNb1 + 1, unfiltered := v.unfiltered + 1,
         untested := v.untested - 1, reported := v.reported + [p])
    case Closed =>
      u.(closedNb := v.closedNb + 1, closedNb1 := v.closedNb1 + 1, unfiltered := v.unfiltered + 1,
         untested := v.untested - 1)
    case Silent => u.(filtered := v.filtered + 1, untested := v.untested - 1)
    case Rejected => u.(filtered := v.filtered + 1, untested := v.untested - 1)
    case _ => u
  }

  function Logged(v: View, pass: nat, p: nat): (r: View) {
    v.(probes := v.probes + [Probe(pass, p)])
  }

  function Freed(s: Socket): (r: Socket) { s.(fd := -1, state := Unused) }

  /** The live sockets, in table order. */
  function LiveOnly(socks: seq<Socket>): (r: seq<Socket>) {
    if socks == [] then []
    else LiveOnly(socks[..|socks| - 1]) + (if Live(socks[|socks| - 1]) then [socks[|socks| - 1]] else [])
  }

  ghost function Apply(v: View, e: Event, pass: nat): (r: View) {
    if !Legal(v, e) then v else
    match e
    case Dropped(p, probed) =>
      var u := Tally(v, p, Testing).(leaked := v.leaked + {p});
      if probed then Logged(u, pass, p) else u
    case Begun(p, fd) => Logged(Tally(v, p, Testing).(socks := v.socks + [Socket(fd, p, Opening)]), pass, p)
    case OpenedNow(p, fd) =>
      Logged(Tally(v, p, Open).(socks := v.socks + [Socket(fd, p, Opened)], wait := v.wait + 1), pass, p)
    case FailedNow(p, x) => Logged(Tally(v, p, x), pass, p)
    case Settled(i, x) =>
      var u := Tally(v, v.socks[i].port, x);
      if x == Open then u.(socks := v.socks[i := v.socks[i].(state := Opened)], wait := v.wait + 1)
      else u.(socks := v.socks[i := Freed(v.socks[i])])
    case Finished(i) => v.(socks := v.socks[i := Freed(v.socks[i])], wait := v.wait - 1)
    case Packed => v.(socks := LiveOnly(v.socks))
  }

  // ----- between passes -----

  /** The port table after the SILENT ports below `k` have been queued again. */
  function RequeueUpTo(ports: seq<PortState>, k: nat): (r: seq<PortState>)
    requires k <= |ports|
    ensures |r| == |ports|
    ensures forall p :: 0 <= p < |r| ==> r[p] == if 1 <= p < k && ports[p] == Silent then Unknown else ports[p]
  {
    if k <= 1 then ports
    else
      var r := RequeueUpTo(ports, k - 1);
      if ports[k - 1] == Silent then r[k - 1 := Unknown] else r
  }

  /** The state in which the next pass begins, given how many ports it is to test. */
  function NextStart(v: View, requeue: bool, untested: int): (r: View)
    requires |v.ports| == PORTS
  {
    v.(ports := if requeue then RequeueUpTo(v.ports, |v.ports|) else v.ports,
       openNb1 := 0, closedNb1 := 0, wait := 0, filtered := 0, untested := untested)
  }

  ghost predicate ProbedBefore(v: View, pass: nat) {
    forall i :: 0 <= i < |v.probes| ==> v.probes[i].pass < pass
  }
}
