# XCSoar serial port and pixel geometry, in Dafny

This project models two pieces of the XCSoar glide computer.

**The serial-port transport `TTYPort`** (`src/Device/Port/TTYPort.cpp`). It opens a
serial device or a pseudo-terminal and keeps one asynchronous read armed at a time.
Each read completion either forwards the bytes to the buffering layer and re-arms, or
clears the liveness flag, tells the listener and stops. `Write` makes a non-blocking
write and retries once after waiting up to 5000 ms for writability. The destructor
closes in three steps: it suspends the buffering layer, cancels the pending read, and
then finalizes the buffering layer. The comment at the top of the read handler says
that a cancelled read's completion arrives after the port is gone, and the handler
returns at once. A completion the I/O loop had already dispatched before the
cancellation still runs its handler during destruction.

The model is a sequential state machine over an immutable `Port` value. Its fields
are:

- `open`: whether the handle is assigned;
- `valid`: the liveness flag;
- `baudRate`: the `baud_rate` member;
- `lineRate`: the device's line rate;
- `pendingReads`: the number of armed reads;
- `trace`: the recorded calls the port made, in order.

The trace records listener notifications, forwards to the buffering layer, the
close phases and the OS calls, except three: opening the device and `ptsname` are
seen only through their results below, and closing the handle only as the cleared
`open` field. Every OS or I/O-library result is a parameter of the
operation: whether the device opens, the `write_some` and `read_some` results, the
sign of the writability poll, whether `set_option`, `get_option` and `unlockpt`
succeed, and the completion, if any, already in flight when the port is destroyed.
`write_some` and `read_some` results are limited to what the I/O library can report.
They never hold more bytes than the buffer, and they hold none whenever an error is
reported. Module `TtyPort` holds the operations. Module `PortMachine` combines them into
runs and proves three things over whole runs:

- at most one read is ever outstanding;
- `FAILED` is sticky until the port is reopened;
- the read loop forwards in order and stops on failure.

**Pixel geometry** (`src/Screen/Point.hpp`): `PixelSize` equality, translation of a
point by a size, and the `OverlapsRect` test, as pure functions over integer records
(module `Geometry`).

Notable behaviours of the code, which the model keeps:

- When applying the baud rate fails, `Open` returns false and does not raise. The
  handle stays assigned and the port is not live.
- When `unlockpt` fails, `OpenPseudo` raises after the handle is assigned.
- When a `write_some` fails with an error other than "try again", `Write` returns
  that call's byte count. Because the I/O library reports 0 bytes with every error,
  this is 0.
- `GetState` reports only READY or FAILED.
- The zero-length check on received data sits in the transport's read handler, not
  in the buffering layer.

## Model

| member | source | states |
|---|---|---|
| `TtyPort.NewPort` | src/Device/Port/TTYPort.cpp:42-47 | a newly constructed port has no handle, reports FAILED, has no read armed and has done nothing |
| `TtyPort.AsyncRead` | src/Device/Port/TTYPort.cpp:232 | arming a read adds exactly one pending read and records it |
| `TtyPort.GetState` | src/Device/Port/TTYPort.cpp:59-65 | READY exactly when the liveness flag is set, FAILED exactly when it is clear |
| `TtyPort.Open` | src/Device/Port/TTYPort.cpp:78-105 | if the device does not open, raises with the path and leaves the port unchanged. Otherwise it returns whether the rate was applied, and the rate applied is the requested one. On failure the flag and reads are unchanged. On success the port is READY, one more read is armed and the listener is told once |
| `TtyPort.OpenPseudo` | src/Device/Port/TTYPort.cpp:107-127 | if `/dev/ptmx` does not open, raises and leaves the port unchanged. If it cannot be unlocked, raises with the handle assigned and the port not made live, after only the `unlockpt` call: no read armed, no notification, nothing forwarded. Otherwise the port is READY with one more read armed, the listener is told, and the call returns the peer name `ptsname` reported. Either way the line keeps the device's own rate |
| `TtyPort.Flush` | src/Device/Port/TTYPort.cpp:129-137 | on a port that is not live, changes nothing and makes no call. Otherwise it flushes the OS input queue and then the buffering layer, and changes no state |
| `TtyPort.Drain` | src/Device/Port/TTYPort.cpp:67-76 | succeeds exactly when `tcdrain` returns 0 and changes no state |
| `TtyPort.WaitWrite` | src/Device/Port/TTYPort.cpp:139-155 | FAILED without polling on a port that is not live. Otherwise one poll: READY if the poll is positive, TIMEOUT if it is 0, FAILED if it is negative. State unchanged |
| `TtyPort.Write` | src/Device/Port/TTYPort.cpp:157-177 | returns 0 with no `write_some` on a port that is not live. Otherwise it makes one or two `write_some` calls, two exactly when the first said "try again" and the wait was READY. The trace is exactly one `write_some`, or `write_some` then one 5000 ms poll, or `write_some`, the poll and a second `write_some`. It returns 0 when that wait is not READY, and otherwise the last attempt's count, which is 0 whenever that attempt reported an error. The result is never more than the length, and no state changes |
| `TtyPort.WriteRetriesExactlyWhenWaitReady` | src/Device/Port/TTYPort.cpp:166-176 | the retry happens exactly when the first write said "try again" and `WaitWrite(5000)` on the port answers READY |
| `TtyPort.SetBaudrate` | src/Device/Port/TTYPort.cpp:190-199 | returns whether `set_option` succeeded. It applies the `baud_rate` member, whatever rate it is asked for. Flag, reads and member are unchanged |
| `TtyPort.SetBaudrateIgnoresArgument` | src/Device/Port/TTYPort.cpp:191-197 | any two requested rates give the same result |
| `TtyPort.SetBaudrateRoundTripFails` | src/Device/Port/TTYPort.cpp:191-197 | with 4800 in the member, asking for 9600 succeeds, yet reading the rate back gives 4800 |
| `TtyPort.SetBaudrateFixed` | src/Device/Port/TTYPort.cpp:190-199 | corrected: after a successful set, `GetBaudrate` reads back the requested rate. After a failed one it reads back the old line rate |
| `TtyPort.SetBaudrateFixAgreesInOpen` | src/Device/Port/TTYPort.cpp:95-96 | when the member already holds the requested rate, which is how `Open` calls it, the as-written and corrected definitions agree |
| `TtyPort.GetBaudrate` | src/Device/Port/TTYPort.cpp:179-188 | the device's line rate, or 0 when the query fails; state unchanged |
| `TtyPort.OnReadReady` | src/Device/Port/TTYPort.cpp:201-233 | cancellation leaves the port untouched. A wait error, a read of no bytes, or a read error other than "try again" or "interrupted" clears the flag and arms nothing. Data leaves the flag alone and arms exactly one read. The events are exactly: notify and then report the error for a wait error; read and then notify for a read that ends the port; read, forward the bytes and then re-arm for data. Handle and rates unchanged |
| `TtyPort.OnReadReadyNotifies` | src/Device/Port/TTYPort.cpp:209-227 | the handler tells the listener exactly once when it ends the port, and never otherwise |
| `TtyPort.OnReadReadyForwards` | src/Device/Port/TTYPort.cpp:216-232 | the handler forwards exactly the bytes read, once, when it keeps the loop going, and forwards nothing otherwise |
| `TtyPort.ReadErrorAlwaysEndsPort` | src/Device/Port/TTYPort.cpp:222-223 | with the library's guarantee, every erroring read ends the port, including "try again" and "interrupted" |
| `TtyPort.TryAgainReadFailsPort` | src/Device/Port/TTYPort.cpp:222-227 | as written, a read that says "try again" clears the flag, notifies and arms nothing |
| `TtyPort.OnReadReadyFixed` | src/Device/Port/TTYPort.cpp:222-232 | corrected: a "try again" or "interrupted" read forwards nothing and re-arms, leaving the port live. Every other completion is handled as written |
| `TtyPort.Complete` | src/Device/Port/TTYPort.cpp:202-207 | an aborted completion only retires the pending read. Any other completion adds events |
| `TtyPort.Close` | src/Device/Port/TTYPort.cpp:49-57 | the trace begins with BeginClose and ends with EndClose, with CancelWait just before EndClose when the handle is assigned, and the handle is closed. With no completion in flight, or no read pending, the close adds exactly those events, notifies nobody, forwards nothing, and leaves the flag and the pending read as they were |
| `TtyPort.AbortedAfterCloseTouchesNothing` | src/Device/Port/TTYPort.cpp:204-207 | the aborted completion of a read cancelled by the destructor leaves the trace, the flag and the closed handle as the destructor left them |
| `PortMachine.ApplyKeepsInv` | src/Device/Port/TTYPort.cpp:99-104 | every operation keeps "at most one read outstanding, and only on a live, assigned port" |
| `PortMachine.ApplyKeepsFailed` | src/Device/Port/TTYPort.cpp:209-227 | no operation except an open call sets a cleared flag again |
| `PortMachine.RunKeepsInv` | src/Device/Port/TTYPort.cpp:229-232 | across any run of operations and completions, at most one read is outstanding |
| `PortMachine.RunKeepsFailed` | src/Device/Port/TTYPort.cpp:222-226 | a failed port reports FAILED after any run without an open call |
| `PortMachine.LifetimeCancelsAtMostOneRead` | src/Device/Port/TTYPort.cpp:49-57 | from a new port, any run leaves at most one read outstanding. Destruction with no completion in flight leaves at most that one, cancelled, and its aborted completion changes no event |
| `PortMachine.OpenArmsOneRead` | src/Device/Port/TTYPort.cpp:99-104 | a successful `Open` or `OpenPseudo` on a port with no handle leaves it READY with exactly one read outstanding |
| `PortMachine.ReadLoopForwardsInOrder` | src/Device/Port/TTYPort.cpp:229-232 | N data completions are forwarded N times, in delivery order, with no notification, and the port stays live with one read armed |
| `PortMachine.ReadLoopStopsOnFailure` | src/Device/Port/TTYPort.cpp:222-227 | a completion that ends the port notifies once and arms nothing, so later completions never happen |
| `PortMachine.CloseIsQuiet` | src/Device/Port/TTYPort.cpp:49-57 | destroying a port with no completion in flight adds no notification and no forward, and leaves the pending read to be aborted |
| `PortMachine.CloseRacingDataForwardsAfterBeginClose` | src/Device/Port/TTYPort.cpp:49-57 | a data completion already dispatched when destruction begins is forwarded after BeginClose and re-arms, and CancelWait then cancels the new read |
| `PortMachine.CloseRacingFailureNotifiesAfterBeginClose` | src/Device/Port/TTYPort.cpp:49-57 | a failing completion already dispatched when destruction begins notifies the listener once after BeginClose, forwards nothing, and leaves no read pending |
| `Geometry.SizeEquals` | src/Screen/Point.hpp:51-53 | `==` holds exactly when the two sizes are the same value |
| `Geometry.SizeEqualsIsEquivalence` | src/Screen/Point.hpp:51-53 | `==` is reflexive, symmetric and transitive |
| `Geometry.SizeDiffers` | src/Screen/Point.hpp:55-57 | `!=` holds exactly when the two sizes are different values, that is, when one of the two components differs |
| `Geometry.Translate` | src/Screen/Point.hpp:60-64 | the result is offset from the point by exactly the size, in each axis |
| `Geometry.TranslateByZero` | src/Screen/Point.hpp:60-64 | adding the size (0, 0) returns the point unchanged |
| `Geometry.TranslateRoundTrip` | src/Screen/Point.hpp:60-64 | translating by a size and then by its negation returns the point |
| `Geometry.TranslateInjective` | src/Screen/Point.hpp:60-64 | two points translated by the same size coincide exactly when they were equal |
| `Geometry.OverlapsRect` | src/Screen/Point.hpp:80-84 | any pixel the two rectangles share, with `a`'s columns read as closed and `b`'s as half-open, makes the test hold. For well-formed rectangles that pass, the pixel at the larger left edge and larger top edge is shared |
| `Geometry.OverlapsRectSplits` | src/Screen/Point.hpp:80-84 | `OverlapsRect` holds exactly when both its horizontal half and its vertical half hold |
| `Geometry.VerticalOverlapSymmetric` | src/Screen/Point.hpp:83 | the vertical half of the test is symmetric in the two rectangles |
| `Geometry.OverlapsRectNotSymmetric` | src/Screen/Point.hpp:82 | the whole test is not symmetric: a rectangle ending on the column where another starts overlaps it one way round only |
| `Geometry.OverlapsSelf` | src/Screen/Point.hpp:82-83 | a rectangle with left < right and top <= bottom overlaps itself |
| `Geometry.RightOfDoesNotOverlap` | src/Screen/Point.hpp:82 | if `a.left >= b.right`, `a` does not overlap `b` |
| `Geometry.OverlapsIffSharedPixel` | src/Screen/Point.hpp:80-84 | for well-formed rectangles, the test holds exactly when some pixel lies in both, reading `a`'s columns as closed and `b`'s as half-open |

## Left out

- The Android permission step in `Open`, which shells out to `chmod` the device, is external process execution.
- The `__BIONIC__` branch of `Drain`, which always succeeds, is not modelled. `Drain` models the `tcdrain` branch only.
- `tcflush`, `tcdrain`, `unlockpt` and the writability poll are OS calls. They appear only as oracle parameters and trace events. `tcflush`'s result is ignored, as in the code.
- Opening the device (in `Open` and `OpenPseudo`) and `ptsname` are OS calls that leave no trace event. They appear only as the oracle parameters `openOk` and `peer`, so a failed open returns the port with its trace unchanged. Closing the handle at the end of the destructor likewise leaves no event; only the cleared `open` field shows it.
- The asynchronous I/O library's internals are not modelled: the I/O service, the serial-port object, and the bodies of `get_option`, `set_option` and `AsyncRead`. Only their result kinds feed the model.
- `TtyPort.Close`: the cancel-and-wait helper's body is not part of this model. Only its `CancelWait` event is recorded. The read it cancels stays counted as pending, and the aborted completion that the handler's comment expects after deletion is delivered separately (`AbortedAfterCloseTouchesNothing`). Two cases are given as an input: a completion already dispatched, whose handler runs after BeginClose, or none.
- `PortMachine.CloseIsQuiet`: holds only when no completion was already dispatched when destruction began. Otherwise data is forwarded, or the listener notified, after BeginClose (`CloseRacingDataForwardsAfterBeginClose`, `CloseRacingFailureNotifiesAfterBeginClose`). Whether the buffering layer drops such a forward after BeginClose depends on its body, which is not part of this model.
- `PortMachine.LifetimeCancelsAtMostOneRead`: states the quiet case only, with no completion in flight when destruction begins. The racing case is covered by the two `CloseRacing` lemmas.
- The relaxed atomic accesses to the liveness flag, and any interleaving between the read handler and writers on other threads, are not modelled. The flag is a plain field and operations run one at a time.
- The bodies of the buffering layer's `BeginClose`, `EndClose`, `Flush` and `DataReceived` are not shown. They appear only as trace events.
- The text of exceptions and of the error message passed to `Error` is not modelled. An exception is the path it names, and the error message is an `ErrorReported` event.
- `TtyPort.Open`: calling `Open` or `OpenPseudo` on a port whose handle is already assigned is excluded by a precondition. The I/O library refuses to re-assign an open handle, and that library is not part of this model.
- The `baud_rate` member's initial value comes from a header that is not part of this model. `NewPort` starts it at 0.
- `TtyPort.NewPort`: the constructor does not initialize the liveness flag. Its initializer would be in the class header, which is not part of this model. The flag is assumed to start cleared, so a new port reports FAILED.
- `size_t` byte counts and `unsigned` baud rates are unbounded naturals.
- The port's `WaitConnected`, `StartRxThread` and the other members of the `Port` base class are not part of this model.
- `Geometry.Translate`: does not model C++ `int` overflow, because coordinates are unbounded integers.
- `PixelRect` and the `IntPoint2D` base of `PixelPoint` come from platform headers that are not part of this model. They are plain integer records.
- `src/RenderTaskPoint.hpp`, `src/Audio/Settings.hpp`, `test/src/LogPort.cpp` and `test/src/RunSkyLinesTracking.cpp` are rendering declarations, a settings struct and command-line test programs. They contain no logic of the modelled core.

## Findings

| source | as written | input that shows it | evidently intended | confidence | as-written member | corrected member |
|---|---|---|---|---|---|---|
| src/Device/Port/TTYPort.cpp:222-223 | the read handler ends the port when `nbytes == 0`, or on an error other than "try again" or "interrupted" | a wake-up whose `read_some` reports "try again" carries 0 bytes, as the I/O library reports with every error. The zero-byte test fires, so the port fails, notifies and stops reading | a "try again" or "interrupted" read re-arms and keeps the port live. The exemption and the `nbytes > 0` guard at line 229 show that intent | medium; not executed | `TtyPort.TryAgainReadFailsPort` | `TtyPort.OnReadReadyFixed` |
| src/Device/Port/TTYPort.cpp:191-197 | `SetBaudrate(BaudRate)` applies the `baud_rate` member and never reads its parameter | open the port at 4800, then call `SetBaudrate(9600)`. The call succeeds, but the line stays at 4800 and `GetBaudrate` returns 4800 | apply the requested rate | high; not executed | `TtyPort.SetBaudrateRoundTripFails` | `TtyPort.SetBaudrateFixed` |

`Open` stores the requested rate in the member before it calls `SetBaudrate`. There the
two definitions coincide (`TtyPort.SetBaudrateFixAgreesInOpen`), so every open path of
the model behaves as intended. The stand-alone `SetBaudrate` operation of `PortMachine`
keeps the as-written definition, so the model still shows the code's actual behaviour.
Every run-level property (`RunKeepsInv`, `RunKeepsFailed`) holds for either
definition. Neither one touches the liveness flag or the pending reads.

`TtyPort.ReadErrorAlwaysEndsPort` shows in general that the exemption for "try again"
and "interrupted" is unreachable under the library's guarantee. The read loop of
`PortMachine` dispatches to the as-written handler, so the run-level properties
describe the code's actual behaviour. On every completion other than a "try again" or
"interrupted" read, the corrected handler is proved equal to it.
