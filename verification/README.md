# A verified model of the OpenVAS scanner's cores

This project models, in Dafny 4.11, the parts of the C tree of openvas-scanner that hold real state, loops and
arithmetic, and proves what they are for. `dafny verify dfyconfig.toml` checks all of it.

| part | files |
|---|---|
| TCP connect scanner (`banner_grab`) | TcpScanState, TcpScanSteps, TcpScanRuns, TcpScanner |
| NASL interpreter (`nasl_exec`, calls, assignments) | NaslSyntax, NaslStructured, NaslFlags, NaslRefinement, NaslFuel, NaslCompound, NaslLaws, NaslInterpreter |
| buffered streams (`read_stream_connection_min`, `recv_line`, `stream_set_buffer`) | StreamBuffer |
| SYN scanner (packet list, retry loop, checksum, packets) | SynPackets, SynList, SynScan, Checksum |
| port lists (the scanner's parser and `getpts`) | PortText, PortList, PortAgreement, PortArray |
| MD5, HMAC-MD5, MD4, TLS PRF, ARC4 | Bytes, MdHash, Md5Core, Md5, HmacMd5, Md4, TlsPrf, Arc4 |
| route selection | Routes |
| shared definitions | Common |

Code that changes things in place is modelled by classes, arrays and loops, each proved against functions on values;
the theorems over whole runs are lemmas about those functions. What the operating system answers (descriptors, errors,
readiness, time) is arbitrary: in the scanners it comes from `Os...` methods that return any value their contract
allows, in the stream layer from a script of answers.

## What is proved

- **TCP scanner.** A scan is a sequence of passes, a pass a sequence of events. In every reachable state the socket
  table, the port table, the counters, the reports and the log of probes agree; verdicts are never taken back; a port
  is probed at most once a pass and at most 16 times in all; exactly the open ports are reported, each once. Every
  pass ends, with 3 * UNKNOWN + 2 * OPENING + OPEN as measure. The window never exceeds the table. "Every TESTING port
  has a socket" is false of the code: a port stays TESTING without one after ENFILE, EMFILE, a descriptor beyond
  FD_SETSIZE or EAGAIN. It holds exactly if no attempt in any pass was dropped so (`TestingOwnedIffNoDrop`), and a
  dropped port is never tested again. At the normal end of a scan these are the only requested ports without a result.
- **NASL.** The flag-driven interpreter computes the same store and outcome as a semantics with the outcomes normal,
  break, continue, return and exit, for every program, store and fuel; loops exit with their flags clear; nothing runs
  after a return or an exit in a block. A call leaves its caller's flags and result alone exactly if no exit happens in
  it. An exit does not end at once: the expression around it is finished, so `f(exit(3))` still calls `f`. `a op= e`
  means `a = a op e` exactly if the operator cannot tell the value of `a` before `e` from the one after it;
  `a += (a = 5)` shows that it can. Laws of programs pin what both semantics share: false are exactly the undefined
  value, 0 and the empty string and data; a variable belongs to the innermost context that has it; a parameter hides
  its caller's variable, but other assignments of a call reach it.
- **Streams.** After any sequence of reads and resizes, the bytes delivered and then those pending are the bytes taken
  from the socket, in order. Only an error, the end of file, or as many pauses as the timeout has seconds cut a read
  short. Without them a line depends on the bytes alone, whatever the buffer, the chunks, the signals and the pauses.
- **SYN scanner.** The linked list refines a map from ports to entries. A port asked for m times is sent at most
  m + 2 packets, and a distinct one none after it has left the list; one asked for twice can get a late one. Every
  round of the retry loop that finds a dead packet lowers a potential. One batch of replies is heard after every second
  port and one in every round; a port is reported exactly if it answered with a SYN-ACK in one of them, as long as
  every RST could be sent.
- **Port lists.** Both parsers read every printed list alike, with one exception: where an open range stands before
  another item or a UDP list, the scanner's gives up and `getpts` goes to 65535. Followed by text that belongs to no
  list, such as the x of `80x`, the scanner's parser stays in place for ever if the list ends in a single number, and
  gives up if it ends in a range, as in `1-5x`. Blanks do not matter to `getpts`. With the UDP list in front, as in
  `U:53,T:80`, `getpts` finds the TCP list and the scanner's parser stops before it with no ports.
- **Hashes.** MD5 in any chunks, HMAC-MD5 with keys cut to 64 bytes, one-shot MD4, the TLS PRF and ARC4 equal their
  mathematical definitions, down to the bits of an exclusive or, a rotation and a word in memory.
- **Routes.** The best match is the longest matching prefix with the least metric; for IPv4, where byte-swapped masks
  are compared, exactly the largest number, which is the longest prefix for contiguous masks and need not be for others.

## Model

| member | source | states |
|---|---|---|
| `TcpScanRuns.ReachableKeeps` | nasl/nasl_builtin_openvas_tcp_scanner.c:306-975 | in every state that any number of passes and any events can reach, tables, counters, reports and probes agree |
| `TcpScanRuns.NeverTakenBack` | nasl/nasl_builtin_openvas_tcp_scanner.c:306-975 | from any point of any pass to the start of any later one, no verdict, report or probe is taken back |
| `TcpScanRuns.StillKept` | nasl/nasl_builtin_openvas_tcp_scanner.c:323-878 | and what was kept until a pass began is kept at each of its points |
| `TcpScanRuns.ScanKeeps` | nasl/nasl_builtin_openvas_tcp_scanner.c:880-975 | the same at the start of every pass, and no probe of the new pass is logged yet |
| `TcpScanRuns.RunTable` | nasl/nasl_builtin_openvas_tcp_scanner.c:327-500 | live OPENING sockets own distinct TESTING ports, live OPEN ones distinct OPEN ports; the waiting count is the number of OPEN sockets; TESTING ports without a socket are exactly the leaked ones |
| `TcpScanRuns.RunBooks` | nasl/nasl_builtin_openvas_tcp_scanner.c:616-832 | open and closed counts equal the ports in those states, unfiltered is their sum, open ports are reported exactly once, no probe repeats within a pass |
| `TcpScanRuns.RunKeeps` | nasl/nasl_builtin_openvas_tcp_scanner.c:327-832 | between any two points of a pass OPEN, CLOSED and REJECTED ports stay, reports and probes only grow, nothing becomes UNKNOWN again |
| `TcpScanRuns.RunProgress` | nasl/nasl_builtin_openvas_tcp_scanner.c:312-506 | the measure never rises within a pass and falls with every event but a compaction |
| `TcpScanRuns.TurnProgress` | nasl/nasl_builtin_openvas_tcp_scanner.c:323-877 | a turn of the scanning loop lowers the measure and revives no port |
| `TcpScanRuns.Marked` | nasl/nasl_builtin_openvas_tcp_scanner.c:513-531 | a positive select marks some socket of the table, readable only OPEN ones and writable only OPENING ones |
| `TcpScanRuns.ProbeBound` | nasl/nasl_builtin_openvas_tcp_scanner.c:312-312 | probes not repeated within a pass are at most as many per port as there are passes |
| `TcpScanRuns.ScanOutcome` | nasl/nasl_builtin_openvas_tcp_scanner.c:306-975 | over a whole scan: at most 16 probes a port, exactly the open ports reported, once each, ports not asked for untouched |
| `TcpScanRuns.LeakedAreDropped` | nasl/nasl_builtin_openvas_tcp_scanner.c:337-455 | the ports left TESTING without a socket in a pass are those of its dropped attempts |
| `TcpScanRuns.UnownedAreDropped` | nasl/nasl_builtin_openvas_tcp_scanner.c:337-455 | at any moment of a scan the TESTING ports without a socket are exactly those dropped in any pass, so none of them is ever tested again |
| `TcpScanRuns.TestingOwnedIffNoDrop` | nasl/nasl_builtin_openvas_tcp_scanner.c:337-455 | every TESTING port has a live socket if and only if no attempt of any pass was dropped |
| `TcpScanRuns.DropLeaks` | nasl/nasl_builtin_openvas_tcp_scanner.c:346-355 | a scan of one port that gets no descriptor leaves it TESTING without a socket |
| `TcpScanRuns.AllDecided` | nasl/nasl_builtin_openvas_tcp_scanner.c:306-975 | when no socket is open and no UNKNOWN port left, each requested port has a verdict or was silent, except exactly the dropped ones |
| `TcpScanSteps.EventTable` | nasl/nasl_builtin_openvas_tcp_scanner.c:327-877 | every event keeps socket and port tables in agreement |
| `TcpScanSteps.EventBooks` | nasl/nasl_builtin_openvas_tcp_scanner.c:327-832 | every event keeps counters, reports and probes in agreement with the ports |
| `TcpScanSteps.EventKeeps` | nasl/nasl_builtin_openvas_tcp_scanner.c:327-832 | no event takes back a verdict, a report or a probe, or revives a port |
| `TcpScanSteps.EventMeasure` | nasl/nasl_builtin_openvas_tcp_scanner.c:312-506 | every event but a compaction lowers the measure, and a compaction keeps it |
| `TcpScanSteps.LiveOnlyMembers` | nasl/nasl_builtin_openvas_tcp_scanner.c:863-877 | what compaction keeps are exactly the live sockets |
| `TcpScanSteps.NextStartTable` | nasl/nasl_builtin_openvas_tcp_scanner.c:929-971 | queueing the silent ports again leaves the tables in agreement |
| `TcpScanSteps.NextStartBooks` | nasl/nasl_builtin_openvas_tcp_scanner.c:929-971 | and the counters, reports and probes |
| `TcpScanner.LimitsSound` | nasl/nasl_builtin_openvas_tcp_scanner.c:1145-1178 | 1 <= minimum <= maximum / 2 and maximum <= table size, exactly if the process may open descriptors without limit or has a limit of at least 3 |
| `TcpScanner.Scanner.SocketFailed` | nasl/nasl_builtin_openvas_tcp_scanner.c:346-380 | a port without a usable socket is dropped, other errors abort, and the window is cut to exactly what each error leaves of it |
| `TcpScanner.Scanner.ConnectAnswered` | nasl/nasl_builtin_openvas_tcp_scanner.c:434-493 | for each answer of connect: the state its port ends in, the counters that move by one, the socket opened or not, and the report; only EAGAIN changes the window, to a sixteenth less than the sockets open |
| `TcpScanner.Scanner.TryPort` | nasl/nasl_builtin_openvas_tcp_scanner.c:336-499 | one legal attempt on the next UNKNOWN port joins the run |
| `TcpScanner.Scanner.NextUnknown` | nasl/nasl_builtin_openvas_tcp_scanner.c:329-335 | the lowest UNKNOWN port, or none is left |
| `TcpScanner.Scanner.OpenLoop` | nasl/nasl_builtin_openvas_tcp_scanner.c:327-500 | it stops only with a socket to serve, the window full or no UNKNOWN port left, or aborts; the table stays within its limit |
| `TcpScanner.Scanner.WatchSets` | nasl/nasl_builtin_openvas_tcp_scanner.c:508-531 | select watches OPEN sockets for reading and OPENING ones for writing, and no others |
| `TcpScanner.Scanner.OnTimeout` | nasl/nasl_builtin_openvas_tcp_scanner.c:616-639 | on a timeout exactly one expiry happens to each socket in order, and the dropped ones are counted |
| `TcpScanner.Scanner.OnReady` | nasl/nasl_builtin_openvas_tcp_scanner.c:640-801 | marked sockets are served, others untouched, and at least one event happens |
| `TcpScanner.Scanner.Poll` | nasl/nasl_builtin_openvas_tcp_scanner.c:508-801 | a timeout expires every socket, readiness serves marked ones, an error of select aborts; the number dropped is that of the OPENING sockets that expired |
| `TcpScanner.Scanner.SlotAnswered` | nasl/nasl_builtin_openvas_tcp_scanner.c:647-754 | with no SO_ERROR the port ends OPEN and is reported, with an unreachable error REJECTED and counted as filtered, with any other CLOSED and counted as closed; no other port, socket or counter changes |
| `TcpScanner.Scanner.ExpireSlot` | nasl/nasl_builtin_openvas_tcp_scanner.c:803-832 | an expired OPENING socket leaves its port SILENT and filtered, an OPEN one is only closed; nothing else changes |
| `TcpScanner.Scanner.Reap` | nasl/nasl_builtin_openvas_tcp_scanner.c:803-832 | exactly the sockets past the read timeout are given up, in order, and counted by state; the others stay |
| `TcpScanner.Scanner.AdjustWindow` | nasl/nasl_builtin_openvas_tcp_scanner.c:834-862 | the window stays between its minimum and maximum; many drops widen it and its ceiling, fewer narrow both and raise the flag, timeouts widen it, each by its exact amount; the flag rises in no other case |
| `TcpScanner.Scanner.Tidy` | nasl/nasl_builtin_openvas_tcp_scanner.c:803-877 | after a turn the late sockets are given up, the window follows from the numbers dropped and timed out, and the table is compact |
| `TcpScanner.Scanner.Serve` | nasl/nasl_builtin_openvas_tcp_scanner.c:508-877 | the same of the second half of a turn, the flag of dropped packets included |
| `TcpScanner.Scanner.Compact` | nasl/nasl_builtin_openvas_tcp_scanner.c:863-877 | in place, exactly the live sockets remain, in order |
| `TcpScanner.Scanner.MoveDown` | nasl/nasl_builtin_openvas_tcp_scanner.c:863-877 | the memmove closes one gap and keeps the rest |
| `TcpScanner.Scanner.Turn` | nasl/nasl_builtin_openvas_tcp_scanner.c:323-877 | a turn lowers the measure, aborts, or ends the pass with an empty table and the flag of dropped packets as it was |
| `TcpScanner.Scanner.RunPass` | nasl/nasl_builtin_openvas_tcp_scanner.c:312-878 | a pass ends, and unless it aborted or the window was shut no UNKNOWN port is left |
| `TcpScanner.Scanner.DoubleCheck` | nasl/nasl_builtin_openvas_tcp_scanner.c:110-141 | counts the UNKNOWN ports and changes none, as no port passes for a standard one |
| `TcpScanner.Scanner.RequeueSilent` | nasl/nasl_builtin_openvas_tcp_scanner.c:929-936 | every SILENT port becomes UNKNOWN and is counted, others stay |
| `TcpScanner.Scanner.NarrowWindow` | nasl/nasl_builtin_openvas_tcp_scanner.c:937-953 | the next window is at least 1 and at most half the limit; its upper bound loses a third without drops, stays above the window after drops, and both are capped at the safe limit under rate limiting |
| `TcpScanner.Scanner.CheckWindow` | nasl/nasl_builtin_openvas_tcp_scanner.c:965-971 | the window for double-checking and its upper bound stay within the safe limit, the window within that bound |
| `TcpScanner.Scanner.RateLimited` | nasl/nasl_builtin_openvas_tcp_scanner.c:897-923 | the flag goes up exactly if RST rate limiting looks likely; the scan stops for it exactly if that was seen before or the window is safe, and no UNKNOWN port is left or it is double-checking; the whole control state is given |
| `TcpScanner.Scanner.TestAgain` | nasl/nasl_builtin_openvas_tcp_scanner.c:886-953 | the silent ports are queued again unless double-checking under rate limiting opened nothing, as many ports were filtered as before, or rate limiting stops the scan; their number and the two suspicions are remembered for the next pass |
| `TcpScanner.Scanner.LookAgain` | nasl/nasl_builtin_openvas_tcp_scanner.c:955-971 | when no more silent ports are to be tested, the UNKNOWN ones are counted and looked at once more with the window for double-checking, or the scan stops if there are none |
| `TcpScanner.Scanner.EndPass` | nasl/nasl_builtin_openvas_tcp_scanner.c:880-975 | the exact condition under which the scan stops, and then nothing changes; otherwise exactly one pass is closed, the next begins legally, and the control state it begins with is given |
| `TcpScanner.Scanner.constructor` | nasl/nasl_builtin_openvas_tcp_scanner.c:300-311 | the requested ports are UNKNOWN, the rest not tested, nothing else is set |
| `TcpScanner.Scanner.BannerGrab` | nasl/nasl_builtin_openvas_tcp_scanner.c:306-975 | a whole scan is legal and makes at most 16 passes; if it is not aborted no socket is left, and unless all passes were used up or the window was shut no UNKNOWN port is |
| `NaslRefinement.ExecRefines` | nasl/exec.c:785-996 | executing with flags gives the store and the outcome of the structured semantics (normal, break, continue, return, exit), for every statement, store and fuel |
| `NaslRefinement.EvalRefines` | nasl/exec.c:785-800 | evaluating gives the same store and value, and changes flags only by an exit, which sets ret_val in every context |
| `NaslRefinement.InvokeRefines` | nasl/nasl_func.c:94-231 | a call gives the same store and value, and its caller's context comes back as it was unless an exit happened |
| `NaslRefinement.ForRefines` | nasl/exec.c:832-916 | for and while loops give the same store and outcome |
| `NaslRefinement.RepeatRefines` | nasl/exec.c:918-955 | repeat loops give the same store and outcome |
| `NaslRefinement.ForeachRefines` | nasl/exec.c:957-996 | foreach loops give the same store and outcome |
| `NaslRefinement.TimesRefines` | nasl/exec.c:1015-1039 | repeated calls give the same store |
| `NaslRefinement.ReturnStaysHere` | nasl/nasl_func.c:235-263 | between statements a return sets the value of its own context only |
| `NaslRefinement.LoopsClearFlags` | nasl/exec.c:832-996 | every loop exits with break and continue clear |
| `NaslRefinement.NothingAfterReturn` | nasl/exec.c:785-830 | what follows a return or an exit in a block changes neither store nor flags |
| `NaslRefinement.CallKeepsFlags` | nasl/nasl_func.c:94-231 | a call leaves break, continue and ret_val of every context of its caller as they were if and only if no exit happens in it |
| `NaslRefinement.ExitReachesAll` | nasl/nasl_misc_funcs.c:312-332 | an exit, however deep in calls, sets ret_val of every context to its code and no other flag |
| `NaslRefinement.ExitInCall` | nasl/nasl_misc_funcs.c:312-332 | a program in which a call ends the script by an exit |
| `NaslRefinement.CallAfterExit` | nasl/nasl_func.c:124-193 | a program in which a call is still made after its argument has exited |
| `NaslFuel.EvalMore` | nasl/exec.c:769-1062 | an evaluation that ends ends the same way with more fuel |
| `NaslFuel.ExecMore` | nasl/exec.c:769-1062 | so does an execution |
| `NaslCompound.CompoundExactly` | nasl/exec.c:1072-1159 | `a op= e` and `a = a op e` agree if and only if the operator gives the same for the value of a before and after e, or, if e exits, gives the exit code |
| `NaslCompound.WritesNotKeeps` | nasl/exec.c:1072-1293 | an expression without calls and exits that assigns other variables only ends normally and keeps the value of a |
| `NaslCompound.CompoundInInterpreter` | nasl/exec.c:1072-1159 | the same if-and-only-if of the interpreter as written, for every expression, calls and exits included |
| `NaslCompound.CompoundAgrees` | nasl/exec.c:1072-1159 | so the two agree for every expression without calls and exits that does not assign a |
| `NaslCompound.CompoundDiffers` | nasl/exec.c:1081-1090 | `a += (a = 5)` and `a = a + (a = 5)` differ |
| `NaslInterpreter.Interpreter.EvalExpr` | nasl/exec.c:785-800 | the interpreter in place evaluates as the flag semantics does |
| `NaslInterpreter.Interpreter.ExecStmt` | nasl/exec.c:785-830 | and executes as it does |
| `NaslInterpreter.Interpreter.InvokeFun` | nasl/nasl_func.c:94-231 | and calls as it does, with a context of its own for the call |
| `NaslInterpreter.Interpreter.SetReturn` | nasl/nasl_func.c:235-263 | the climb writes the value up to the nearest function context |
| `NaslInterpreter.Interpreter.ExitAll` | nasl/nasl_misc_funcs.c:312-332 | the climb writes the code into every context |
| `NaslInterpreter.Interpreter.EvalOperand` | nasl/exec.c:193-215 | operands are evaluated as defined, constants even after an exit |
| `NaslInterpreter.Interpreter.DoFor` | nasl/exec.c:832-916 | the loop computes the recursive definition of for and while |
| `NaslInterpreter.Interpreter.DoRepeat` | nasl/exec.c:918-955 | and of repeat |
| `NaslInterpreter.Interpreter.DoForeach` | nasl/exec.c:957-996 | and of foreach |
| `NaslInterpreter.Interpreter.DoTimes` | nasl/exec.c:1015-1039 | and of repeated calls |
| `NaslLaws.IfChooses` | nasl/exec.c:809-822 | if runs its second branch exactly if the condition came to the undefined value, 0, or the empty string or data, in the state the condition left |
| `NaslLaws.IfConstant` | nasl/exec.c:44-73 | of constants: a number chooses the first branch exactly if it is not 0, a string or data exactly if not empty, an array always, the undefined value never |
| `NaslLaws.WhileTests` | nasl/exec.c:883-916 | with a false condition a while loop ends in the state it began with, with a true one its body runs |
| `NaslLaws.WhileTrue` | nasl/exec.c:883-916 | with a true condition and an empty body it does not end |
| `NaslLaws.RepeatTests` | nasl/exec.c:918-955 | repeat ends after its first turn if the condition is true, and never if it is a false constant |
| `NaslLaws.Connectives` | nasl/exec.c:1174-1191 | not, and, or come to 0 or 1 as they should, and the second operand is not evaluated if the first decides |
| `NaslLaws.VarReads` | nasl/nasl_var.c:103-138 | a variable is read in the innermost context that has it; one that none has is created, undefined, in the current one |
| `NaslLaws.AssignWrites` | nasl/exec.c:1072-1079 | an assignment changes that variable in that context and nothing else |
| `NaslLaws.AssignThenRead` | nasl/exec.c:1072-1079 | what was assigned is what is read |
| `NaslLaws.IncrCounts` | nasl/nasl_var.c:921-973 | the variable becomes its number plus the step, and the value is that or the number before; an array is refused |
| `NaslLaws.LocalHides` | nasl/nasl_var.c:757-810 | a local declaration makes the name belong to the current context, a global one to the script, and keeps a value that is there |
| `NaslLaws.DeclareIs` | nasl/nasl_var.c:757-850 | declaring any names adds exactly those that are missing, undefined |
| `NaslLaws.DefinedParts` | nasl/nasl_var.c:1207-1224 | the elements visited are the defined ones, in order |
| `NaslLaws.ForeachVisits` | nasl/exec.c:957-996 | a loop that adds its variable to a log adds every defined element in order, and leaves the last in the variable |
| `NaslLaws.ForeachOfNoArray` | nasl/nasl_var.c:1171-1205 | of a value that is no array nothing is visited |
| `NaslLaws.FindFunIs` | nasl/nasl_func.c:24-38 | a call finds the innermost function of that name |
| `NaslLaws.FirstDefinitionCounts` | nasl/nasl_func.c:40-80 | a function that is there is not redefined |
| `NaslLaws.CallReturns` | nasl/nasl_func.c:94-231 | a parameter hides the caller's variables of that name: the call sees the argument, and the caller's store is unchanged |
| `NaslLaws.ParameterIsLocal` | nasl/nasl_func.c:94-231 | an assignment to a parameter stays in the call |
| `NaslLaws.CallWritesThrough` | nasl/nasl_var.c:103-138 | an assignment to another variable that a caller has changes that one |
| `NaslLaws.SameNameTwice` | nasl/nasl_func.c:148-152 | a name given twice among the arguments: the body is not run and the value is undefined |
| `StreamBuffer.Stream.ReadRaw` | misc/network.c:1266-1309 | the next bytes of the socket, in order; at least the minimum unless an error, the end of file or as many pauses as the timeout has seconds were met, which signals and fewer pauses are not; with a minimum of 0 it brings something and goes on to two pauses in a row |
| `StreamBuffer.Stream.ReadMin` | misc/network.c:1396-1454 | the next bytes of the stream in order, through the buffer or past it, nothing lost or twice; at least the minimum, and one byte, unless the answers met excuse it |
| `StreamBuffer.Stream.SetBuffer` | misc/network.c:2167-2211 | refused exactly if pending bytes would not fit; otherwise they survive the resize |
| `StreamBuffer.Stream.RecvLine` | misc/network.c:2039-2084 | up to a NUL, newline or the size, the line is the same whatever the buffer, the chunks, the signals and fewer pauses than the timeout has seconds, and is ended by a NUL; only errors, the end of file and the timeout shorten it |
| `StreamBuffer.Stream.Session` | misc/network.c:1396-1454 | over any sequence of reads and resizes, delivered bytes and then pending ones are those taken from the socket |
| `StreamBuffer.LineLength` | misc/network.c:2070-2072 | a line ends after its first NUL or newline, or at its size |
| `SynPackets.AddedIsInsertOrBump` | nasl/nasl_builtin_synscan.c:278-304 | adding is insert-or-bump on the map |
| `SynPackets.RemovedIsDelete` | nasl/nasl_builtin_synscan.c:306-324 | removing is delete on the map |
| `SynPackets.SweptIsFilter` | nasl/nasl_builtin_synscan.c:326-370 | a sweep drops exactly the dead entries without retries left |
| `SynPackets.RetryIsPending` | nasl/nasl_builtin_synscan.c:326-370 | what a sweep asks to retry is dead, has retries left and is still listed; it asks whenever there is such a packet |
| `SynPackets.Find` | nasl/nasl_builtin_synscan.c:261-272 | the first entry for a port, or none |
| `SynList.PacketList.Get` | nasl/nasl_builtin_synscan.c:261-272 | walks the links to that entry |
| `SynList.PacketList.Add` | nasl/nasl_builtin_synscan.c:278-304 | bumps or prepends, and links stay well formed both ways |
| `SynList.PacketList.Relink` | nasl/nasl_builtin_synscan.c:306-324 | unlinking a node leaves the others linked in order |
| `SynList.PacketList.Remove` | nasl/nasl_builtin_synscan.c:306-324 | removes the first entry for a port, if any |
| `SynList.PacketList.RemoveDead` | nasl/nasl_builtin_synscan.c:326-370 | drops the exhausted dead packets in one walk and returns the last one to retry, for every choice of the dead |
| `SynScan.AskIsFair` | nasl/nasl_builtin_synscan.c:547-560 | asking for a port keeps the bounds on packets, and lateness out unless it was asked for before |
| `SynScan.AgainIsFair` | nasl/nasl_builtin_synscan.c:547-560 | retrying a pending packet keeps them |
| `SynScan.DropIsFair` | nasl/nasl_builtin_synscan.c:326-370 | so does any shrinking of the list |
| `SynScan.DuplicatesOverrun` | nasl/nasl_builtin_synscan.c:727-744 | a port asked for four times is sent more than 1 + NUM_RETRIES packets, and one asked for exactly twice can be sent a late one |
| `SynScan.BumpLowers` | nasl/nasl_builtin_synscan.c:278-304 | a retry lowers the potential by one |
| `SynScan.SweepProgress` | nasl/nasl_builtin_synscan.c:326-370 | a sweep that finds a dead packet asks for a retry or lowers the potential |
| `SynScan.Scanner.SendFirst` | nasl/nasl_builtin_synscan.c:547-560 | a port that is not 0 is added to the list and sent to; an error gives the whole list up |
| `SynScan.Scanner.SendAgain` | nasl/nasl_builtin_synscan.c:547-560 | a retry bumps its entry, or an error gives the list up; either strictly lowers the potential |
| `SynScan.Scanner.Sniff` | nasl/nasl_builtin_synscan.c:561-597 | each reply takes its sender off the list, a RST that fails gives the list up, and the senders of SYN-ACKs are reported, in order |
| `SynScan.ReportedAnswered` | nasl/nasl_builtin_synscan.c:561-597 | a port is reported only if it answered with a SYN-ACK, and exactly then if every RST could be sent |
| `SynScan.AllReportedAnswered` | nasl/nasl_builtin_synscan.c:561-597 | the same over all batches of a scan |
| `SynScan.Scanner.Resend` | nasl/nasl_builtin_synscan.c:749-761 | the packets sent again in a round: at most three, the first of them the one the sweep asked for |
| `SynScan.Scanner.AskAll` | nasl/nasl_builtin_synscan.c:727-744 | every port is asked for, in order, and one batch of replies is heard after every second |
| `SynScan.Scanner.Round` | nasl/nasl_builtin_synscan.c:749-763 | an iteration sends at most three packets again, those and no others, then hears one batch of replies, which decides the new list and the reports; it never raises the potential and lowers it if its first sweep finds a dead packet |
| `SynScan.Scanner.RetryLoop` | nasl/nasl_builtin_synscan.c:747-764 | one batch is heard in every round, and the reports grow by those of all batches in order; rounds are at most the potential spent and the rounds without a dead packet |
| `SynScan.Scanner.Scan` | nasl/nasl_builtin_synscan.c:727-765 | half as many batches as ports, and one a round, are heard; the reports are those of all batches in order, so, if every RST could be sent, exactly the ports that answered with a SYN-ACK; each port gets at most its multiplicity plus NUM_RETRIES packets, and none late if no port is asked for twice; rounds are bounded by 3 per port and the idle ones |
| `Checksum.InCksum` | nasl/nasl_builtin_synscan.c:55-78 | the loop computes the folded complement of the sum of words |
| `Checksum.FoldsExactly` | nasl/nasl_builtin_synscan.c:74-76 | for every sum that a length of int size can give, the two folds keep it modulo 65535 if and only if the second leaves no carry |
| `Checksum.TwoFolds` | nasl/nasl_builtin_synscan.c:74-76 | they do for every sum below 2^32 |
| `Checksum.TwoFoldsFail` | nasl/nasl_builtin_synscan.c:74-76 | a larger sum for which they do not |
| `Checksum.Verifies` | nasl/nasl_builtin_synscan.c:55-78 | writing the checksum into a zero word makes the checksum of the result 0, for up to 131070 bytes |
| `Checksum.MkTcp` | nasl/nasl_builtin_synscan.c:445-492 | every field of both headers by its offset, the addresses and ports each in its place; the IP header verifies, and so does the segment with the addresses, protocol 6 and length 20 before it |
| `PortText.StrtolOfDigits` | nasl/nasl_builtin_openvas_tcp_scanner.c:243-277 | a printed number is read back, and reading stops after it |
| `PortList.ParsePorts` | nasl/nasl_builtin_openvas_tcp_scanner.c:218-298 | the loop computes the recursive parser, errors and endless turns included |
| `PortList.ParseElements` | misc/network.c:2348-2398 | the loop over commas computes the recursive one |
| `PortAgreement.ParsersAgree` | misc/network.c:2331-2398 | for every list of proper items, tagged or not, with a UDP list or without: getpts yields the ranges of its items in order; the scanner's parser yields the same if and only if no open range stands before another item or the UDP list, and fails otherwise |
| `PortAgreement.TcpReadsAll` | nasl/nasl_builtin_openvas_tcp_scanner.c:218-298 | the scanner's parser reads any items up to the UDP list, unless an open range stands before the end |
| `PortAgreement.GetRangesOfText` | misc/network.c:2331-2398 | getpts reads any items, the open range anywhere among them |
| `PortAgreement.ThenText` | nasl/nasl_builtin_openvas_tcp_scanner.c:225-292 | text after a list without open ranges that starts with no digit, comma or dash: after a number the parser no longer moves, after a range it goes on with that text |
| `PortAgreement.StuckIffNumber` | nasl/nasl_builtin_openvas_tcp_scanner.c:225-292 | text after any list in which there is no number, tag, blank or sign to read: the parser stays for ever if the list has no open range and ends in a number, and fails otherwise |
| `PortAgreement.BlankIgnored` | misc/network.c:2332-2335 | a blank anywhere in a text makes no difference to getpts |
| `PortAgreement.GetRangesWithBlanks` | misc/network.c:2332-2398 | any text that is a printed list but for blanks is read as that list |
| `PortAgreement.UdpFirst` | misc/network.c:2337-2345 | with the UDP list in front, getpts finds the TCP list behind it, and the scanner's parser stops before it with no ports |
| `PortArray.ExpandAllIsUnion` | misc/network.c:2372-2373 | the collected ports are the union of the ranges |
| `PortArray.MarkAll` | nasl/nasl_builtin_openvas_tcp_scanner.c:287-291 | exactly the ports of the ranges are marked, each occurrence counted |
| `PortArray.Collect` | misc/network.c:2372-2399 | the array holds all ports in order, and a 0 |
| `PortArray.Sort` | misc/network.c:2273-2284 | sorting by the comparison permutes and orders |
| `PortArray.OrderedEndsInZero` | misc/network.c:2273-2284 | ordered by that comparison means ascending with the 0 last |
| `PortArray.GetPts` | misc/network.c:2297-2411 | the ports ascending, as often as listed, and one trailing 0 |
| `PortArray.SamePorts` | misc/network.c:2331-2410 | the scanner marks exactly the ports of the ranges its parser reads, getpts returns exactly the sorted array of those its own reads, and both are the union of the items |
| `Md5Core.OptimisedIsStandard` | nasl/md5.c:170-173 | the optimised mixing functions are those of the standard |
| `Md5Core.MixedIs` | nasl/md5.c:176-177 | a step as an equation on numbers: the sum modulo 2^32, rotated, plus the second word |
| `Md5Core.Transform` | nasl/md5.c:184-266 | the sixty-four written-out steps are the schedule of the standard |
| `Md5.BitCount` | nasl/md5.c:77-80 | the two words hold 8 times the length modulo 2^64, carry included |
| `Md5.BufferedBytes` | nasl/md5.c:82-82 | the low word gives the number of buffered bytes |
| `Md5.Context.constructor` | nasl/md5.c:54-64 | a context for the empty message |
| `Md5.Context.Update` | nasl/md5.c:70-116 | appends the chunk to the message, for every fill of the buffer |
| `Md5.Context.Final` | nasl/md5.c:122-165 | the digest of the padded message |
| `Md5.DigestOf` | nasl/md5.c:54-165 | the digest is the same for every way of cutting the message |
| `MdHash.PaddedBlocks` | nasl/md5.c:128-161 | padding fits the last block or takes one more, as the code lays it out |
| `MdHash.LeSplit` | nasl/md5.c:158-159 | the length field is its two words, low one first |
| `MdHash.RotateBits` | nasl/md5.c:176-177 | bit k of a rotated word is the bit that many places round |
| `MdHash.LeWordBack` | nasl/md5.c:36-48 | the bytes of a word in memory, low one first, give the word back |
| `MdHash.InitBytes` | nasl/md5.c:56-59 | the initial words are, in memory, the bytes 01 23 .. ef and then the same backwards |
| `HmacMd5.Pads` | nasl/hmacmd5.c:28-45 | the key, cut to 64 bytes and filled with zeros, exclusive-ored with each pad |
| `HmacMd5.EmptyKeyPads` | nasl/hmacmd5.c:41-45 | with an empty key the pads are 64 bytes 0x36 and 64 bytes 0x5c |
| `Bytes.XorAt` | nasl/hmacmd5.c:41-45 | a bit of an exclusive or is set exactly if it is set in one operand and not in the other |
| `Bytes.XorLaws` | nasl/arc4.c:67-67 | a with 0 is a, a with itself 0, and the order does not matter |
| `HmacMd5.HmacContext.Update` | nasl/hmacmd5.c:54-58 | appends to the text |
| `HmacMd5.HmacContext.Final` | nasl/hmacmd5.c:63-75 | the nested hash of pads, key and text |
| `HmacMd5.MacOf` | nasl/hmacmd5.c:23-91 | for any sequence of updates the HMAC of section 2 of RFC 2104, with the key cut to its first 64 bytes |
| `Md4.Transform` | nasl/md4.c:62-142 | the written-out steps are the schedule of the standard |
| `Md4.MixedIs` | nasl/md4.c:48-59 | a step as an equation on numbers |
| `Md4.MixChooses` | nasl/md4.c:30-34 | bit by bit the first mixing function chooses |
| `Md4.MixIsMajority` | nasl/md4.c:36-40 | the second takes the majority |
| `Md4.MixIsParity` | nasl/md4.c:42-46 | the third the parity |
| `Md4.PaddedEnd` | nasl/md4.c:188-203 | the one- or two-block tail is the end of the padded message, also with 64 bytes left |
| `Md4.DigestOf` | nasl/md4.c:164-215 | the digest of the padded message, for every message below 2^28 bytes |
| `TlsPrf.Prf` | nasl/nasl_crypto.c:298-375 | the first bytes of the stream of section 5 of RFC 2246, for every keyed hash of fixed size |
| `TlsPrf.ShorterIsPrefix` | nasl/nasl_crypto.c:298-375 | shorter outputs are prefixes of longer ones |
| `TlsPrf.Prf1` | nasl/nasl_crypto.c:384-434 | the exclusive or of two streams over the halves of the secret; none if either hash is missing |
| `TlsPrf.HalvesCover` | nasl/nasl_crypto.c:391-406 | the halves cover the secret and share a byte exactly if its length is odd |
| `Arc4.Setup` | nasl/arc4.c:15-40 | after the key setup the table is a permutation |
| `Arc4.SetupStepIs` | nasl/arc4.c:27-36 | a step of the key setup as equations on indices: which two entries trade places |
| `Arc4.SwapAt` | nasl/arc4.c:33-35 | a swap exchanges two entries and keeps the others |
| `Arc4.NextIs` | nasl/arc4.c:54-67 | a step of the cipher as equations on indices: both indices, the two entries that trade places, the byte that comes out |
| `Arc4.StaysPermutation` | nasl/arc4.c:47-72 | and after every byte |
| `Arc4.MaskTwice` | nasl/arc4.c:47-72 | crypting twice from the same state is the identity |
| `Arc4.MaskSplits` | nasl/arc4.c:47-72 | crypting a + b is crypting a, then b |
| `Arc4.Cipher.constructor` | nasl/arc4.c:15-40 | the setup in place |
| `Arc4.Cipher.CryptInPlace` | nasl/arc4.c:47-72 | data and state change in place as defined on values |
| `Arc4.Cipher.Generate` | nasl/genrand.c:202-213 | the output loop yields pieces of up to 16 bytes, hashes of 64 bytes of keystream each, and leaves the state that many pieces later |
| `Arc4.Cipher.GenerateTwice` | nasl/genrand.c:202-213 | a call for whole pieces and then another give the bytes of one call for the sum, and leave the same state |
| `Arc4.GeneratorSplits` | nasl/genrand.c:202-213 | what is defined as the output splits at multiples of 16 bytes |
| `Routes.PrefixToMask` | misc/pcap.c:81-105 | the mask of a prefix, or -1 beyond 128 |
| `Routes.MaskBits` | misc/pcap.c:81-105 | exactly the first bits of a mask are set |
| `Routes.MatchMeansPrefix` | misc/pcap.c:943-953 | the masked comparison holds if and only if the prefix bits agree and the route has no others |
| `Routes.SelectRoute6` | misc/pcap.c:934-973 | the chosen route has the longest matching prefix and the least metric among those, the first of equals; an error exactly if some prefix is too long |
| `Routes.LongerMaskIsLarger` | misc/pcap.c:1220-1222 | byte-swapped contiguous masks are ordered as their prefix lengths |
| `Routes.LooseMaskBeats` | misc/pcap.c:1207-1232 | a table of two routes in which the loop prefers eight bits at the bottom to twenty-four at the top |
| `Routes.SelectRoute4` | misc/pcap.c:1207-1232 | for any masks: the largest mask number among the matches, then the least metric, the first of equals |
| `Routes.LongestPrefix` | misc/pcap.c:1207-1232 | with contiguous masks that is the longest matching prefix |

## Left out

- Sockets, select, GnuTLS, packet capture, forks, curl, MQTT, Redis and logging: only their results enter, as arbitrary values.
- Round trip times, timeouts and load averages of the scanners: only whether a socket or packet has expired matters.
- The repeat of an interrupted select: its last answer is taken.
- `TcpScanner.Scanner.constructor`: requires the limits that `TcpScanner.LimitsSound` shows a process limit of at least 3, or none, to give.
- `TcpScanner.Scanner.RunPass`: the flag of dropped packets that it returns is that of its last turn, and is stated there, by `TcpScanner.Scanner.Serve`.
- The SYN scanner's IPv6 branch and its round trip estimate; what it hears is arbitrary.
- `SynScan.Scanner.RetryLoop`: describes any number of first iterations; that packets become dead in time is up to the clock.
- NASL: built-in functions other than exit, array elements and unnamed arguments as an array, unary and other operators, reference counts; binary operators and the conversion to a number are parameters.
- NASL expressions and statements that do not end: fuel stands for the depth of an evaluation, and running out of it for one that has not ended.
- `StreamBuffer.Stream.ReadMin`: requires a maximum of at least 1 if bytes are pending, as its callers ensure; a read of 0 bytes would refill the buffer over them.
- `StreamBuffer.Stream.SetBuffer`: a resized buffer is a new array rather than one grown in place.
- The TLS and UDP branches of the stream layer, and the table of connections.
- `PortArray.MarkAll`: requires ranges within the table of 65536 entries, or empty ones.
- `PortArray.Collect`: requires ports up to 65535 and at most 65535 of them, the room the array has besides the 0.
- `PortArray.GetPts`: requires listed ports to be at most 65535 and no more than 65535 in number, repeats included; the memory of the last call is not modelled, and qsort stands for any sort.
- strtol and atoi on numbers beyond the range of an int.
- `Md5.Context.Final`: the digest is stated with the context's compression function, which agrees with MD5's everywhere; `Md5.DigestOf` states it with MD5's own.
- `Checksum.MkTcp`: the packet is a value rather than a static buffer.
- `TlsPrf.Prf`: a keyed hash that works for the first block works for all.
- Seeding of the random generator: `Arc4.Cipher.Generate` starts from any state.
- The sine table of MD5 is given by its values.
- Reading route tables and interfaces, and what is done with the chosen route.
- Banner matching, lint, SMB, Kerberos, HTTP and certificate code.
