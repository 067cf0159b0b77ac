/** The serial-port transport (src/Device/Port/TTYPort.cpp) as a sequential
    state machine.

    A port is an immutable value. Every operation returns the port after the
    call, with a `trace` that records in order the listener notifications,
    the forwards to the buffering layer, the close phases and the OS and I/O
    library calls that have an event below. Three calls have none: opening
    the device and `ptsname` appear only through their oracle parameters,
    and closing the handle only as the cleared `open` field. Each result of
    the OS or of the asynchronous I/O library is passed in as a parameter
    (an oracle): whether the device opens, what `write_some`/`read_some`
    report, what the writability poll returns, and whether `set_option` or
    `get_option` succeeds. */
module TtyPort {

  newtype byte = x: int | 0 <= x < 256

  /** Size of the stack buffer each read completion reads into. */
  const ReadBufferSize: nat := 1024

  /** How long `Write` waits for writability before its single retry. */
  const WriteRetryTimeoutMs: nat := 5000

  /** The pseudo-terminal multiplexer that `OpenPseudo` opens. */
  const PseudoTerminalPath: string := "/dev/ptmx"

  /** What `GetState` reports. */
  datatype PortState = Ready | Failed

  /** What a writability wait reports. */
  datatype WaitResult = WaitReady | WaitTimeout | WaitFailed

  /** The error kinds of an asynchronous I/O result that the port tells apart. */
  datatype IoError = NoError | TryAgain | Interrupted | OperationAborted | OtherError

  /** The result of one `write_some`: bytes accepted and error kind. */
  datatype WriteReply = WriteReply(count: nat, err: IoError)

  /** The result of one `read_some`: the bytes read and error kind. */
  datatype ReadReply = ReadReply(data: seq<byte>, err: IoError)

  /** One completion of an armed read: the wait's error kind and the result
      of the `read_some` the handler then makes. */
  datatype Completion = Completion(ec: IoError, read: ReadReply)

  /** The exception `Open`/`OpenPseudo` raise, with the path they tried. */
  datatype OpenError = CannotOpen(path: string) | CannotUnlock(path: string)

  /** Either a returned value or a raised exception. */
  datatype Opening<T> = Done(value: T) | Raised(error: OpenError)

  /** Absence of a value, as `ptsname` reports it with a null pointer. */
  datatype Option<T> = None | Some(value: T)

  /** One thing the port did, in the order it did it. */
  datatype Event =
    | WriteSome(length: nat)      // serial_port.write_some
    | PollWritable(timeoutMs: nat) // FileDescriptor::WaitWritable
    | ReadSome                    // serial_port.read_some
    | ArmRead                     // AsyncRead: one asynchronous read is armed
    | SetOption(rate: nat)        // set_option(baud_rate(rate))
    | GetOption                   // get_option(baud_rate)
    | TcFlush                     // tcflush(TCIFLUSH)
    | TcDrain                     // tcdrain
    | Unlockpt                    // unlockpt on the pseudo-terminal
    | BufferFlush                 // BufferedPort::Flush
    | StateChanged                // the listener is notified
    | DataReceived(chunk: seq<byte>) // BufferedPort::DataReceived
    | ErrorReported               // Error(message)
    | BeginClose                  // BufferedPort::BeginClose
    | CancelWait                  // cancel the pending read and wait for it
    | EndClose                    // BufferedPort::EndClose

  /** The port: whether the handle is assigned, the liveness flag, the
      `baud_rate` member, the rate the device line currently runs at, the
      number of armed reads whose completion has not run, and the trace. */
  datatype Port = Port(
    open: bool,
    valid: bool,
    baudRate: nat,
    lineRate: nat,
    pendingReads: nat,
    trace: seq<Event>)

  /** An operation's result: the port afterwards and the returned value. */
  datatype Step<T> = Step(port: Port, value: T)

  /** A newly constructed port: no handle, not live, nothing armed, and
      nothing done yet. */
  function NewPort(): (r: Port)
    ensures !r.open && GetState(r) == Failed && r.pendingReads == 0 && r.trace == []
  {
    Port(false, false, 0, 0, 0, [])
  }

  /** Only the trace of `q` may differ from `p`. */
  predicate SameState(p: Port, q: Port)
  {
    q == p.(trace := q.trace)
  }

  /** Number of `write_some` calls in a trace. */
  function CountWrites(t: seq<Event>): nat
  {
    if |t| == 0 then 0
    else CountWrites(t[..|t| - 1]) + (if t[|t| - 1].WriteSome? then 1 else 0)
  }

  /** Number of listener notifications in a trace. */
  function CountStateChanged(t: seq<Event>): nat
  {
    if |t| == 0 then 0
    else CountStateChanged(t[..|t| - 1]) + (if t[|t| - 1].StateChanged? then 1 else 0)
  }

  /** The chunks forwarded to the buffering layer, in order. */
  function Forwarded(t: seq<Event>): seq<seq<byte>>
  {
    if |t| == 0 then []
    else Forwarded(t[..|t| - 1]) + (if t[|t| - 1].DataReceived? then [t[|t| - 1].chunk] else [])
  }

  /** How the three trace counters move when one event is appended. */
  lemma CountersAppendOne(t: seq<Event>, e: Event)
    ensures CountWrites(t + [e]) == CountWrites(t) + (if e.WriteSome? then 1 else 0)
    ensures CountStateChanged(t + [e]) == CountStateChanged(t) + (if e.StateChanged? then 1 else 0)
    ensures Forwarded(t + [e]) == Forwarded(t) + (if e.DataReceived? then [e.chunk] else [])
  {
    assert (t + [e])[..|t|] == t;
  }

  /** The three trace counters add up over concatenation. */
  lemma {:induction false} CountersAppend(t: seq<Event>, u: seq<Event>)
    ensures CountWrites(t + u) == CountWrites(t) + CountWrites(u)
    ensures CountStateChanged(t + u) == CountStateChanged(t) + CountStateChanged(u)
    ensures Forwarded(t + u) == Forwarded(t) + Forwarded(u)
    decreases |u|
  {
    if |u| == 0 {
      assert t + u == t;
    } else {
      var u', e := u[..|u| - 1], u[|u| - 1];
      assert u == u' + [e];
      assert t + u == (t + u') + [e];
      CountersAppend(t, u');
      CountersAppendOne(t + u', e);
      CountersAppendOne(u', e);
    }
  }

  /** No notification and no forward happens in `t`. */
  predicate Silent(t: seq<Event>)
  {
    forall i :: 0 <= i < |t| ==> !t[i].StateChanged? && !t[i].DataReceived?
  }

  /** A silent trace counts no notification and forwards nothing. */
  lemma {:induction false} SilentCountsNothing(t: seq<Event>)
    requires Silent(t)
    ensures CountStateChanged(t) == 0 && Forwarded(t) == []
    decreases |t|
  {
    if |t| > 0 {
      SilentCountsNothing(t[..|t| - 1]);
    }
  }

  // ---------------------------------------------------------------------
  // State query

  /** `GetState`: READY exactly when the liveness flag is set. */
  function GetState(p: Port): (r: PortState)
    ensures r == Ready <==> p.valid
    ensures r == Failed <==> !p.valid
  {
    if p.valid then Ready else Failed
  }

  // ---------------------------------------------------------------------
  // Reading

  /** `AsyncRead`: arm one asynchronous read. */
  function AsyncRead(p: Port): (r: Port)
    ensures r.pendingReads == p.pendingReads + 1
    ensures r.trace == p.trace + [ArmRead]
  {
    p.(pendingReads := p.pendingReads + 1, trace := p.trace + [ArmRead])
  }

  /** What the I/O library promises of a `read_some` result: it fills at
      most the buffer, and it reports no bytes whenever it reports an error. */
  predicate ValidReadReply(read: ReadReply)
  {
    |read.data| <= ReadBufferSize && (read.err != NoError ==> |read.data| == 0)
  }

  /** The `read_some` result ends the port: no bytes, or an error other than
      "try again" and "interrupted". */
  predicate ReadEndsPort(read: ReadReply)
  {
    |read.data| == 0 ||
    (read.err != NoError && read.err != TryAgain && read.err != Interrupted)
  }

  /** `OnReadReady`, the completion handler of an armed read. `p` is the port
      as the handler sees it, with the completed read no longer pending.
      Cancellation leaves the port alone; an error, no bytes or a hard read
      error clear the flag and stop the loop; data leaves the flag alone and
      arms the next read. `OnReadReadyNotifies` and `OnReadReadyForwards`
      count what the handler tells the listener and forwards. */
  function OnReadReady(p: Port, ec: IoError, read: ReadReply): (r: Port)
    requires ValidReadReply(read)
    ensures ec == OperationAborted ==> r == p
    ensures ec != OperationAborted && (ec != NoError || ReadEndsPort(read)) ==>
      !r.valid && r.pendingReads == p.pendingReads
    ensures ec == NoError && !ReadEndsPort(read) ==>
      r.valid == p.valid && r.pendingReads == p.pendingReads + 1
    ensures ec != OperationAborted && ec != NoError ==>
      r.trace == p.trace + [StateChanged, ErrorReported]
    ensures ec == NoError && ReadEndsPort(read) ==>
      r.trace == p.trace + [ReadSome, StateChanged]
    ensures ec == NoError && !ReadEndsPort(read) ==>
      r.trace == p.trace + [ReadSome, DataReceived(read.data), ArmRead]
    ensures p.trace <= r.trace
    ensures r.open == p.open && r.baudRate == p.baudRate && r.lineRate == p.lineRate
  {
    if ec == OperationAborted then
      p
    else if ec != NoError then
      p.(valid := false, trace := p.trace + [StateChanged] + [ErrorReported])
    else if ReadEndsPort(read) then
      p.(valid := false, trace := p.trace + [ReadSome] + [StateChanged])
    else
      AsyncRead(p.(trace := p.trace + [ReadSome] + [DataReceived(read.data)]))
  }

  /** The handler notifies the listener exactly once when it ends the port,
      and never otherwise. */
  lemma OnReadReadyNotifies(p: Port, ec: IoError, read: ReadReply)
    requires ValidReadReply(read)
    ensures var r := OnReadReady(p, ec, read);
      CountStateChanged(r.trace) ==
        CountStateChanged(p.trace) + (if ec != OperationAborted && (ec != NoError || ReadEndsPort(read)) then 1 else 0)
  {
    if ec == OperationAborted {
    } else if ec != NoError {
      CountersAppendOne(p.trace, StateChanged);
      CountersAppendOne(p.trace + [StateChanged], ErrorReported);
    } else if ReadEndsPort(read) {
      CountersAppendOne(p.trace, ReadSome);
      CountersAppendOne(p.trace + [ReadSome], StateChanged);
    } else {
      var t := p.trace + [ReadSome];
      CountersAppendOne(p.trace, ReadSome);
      CountersAppendOne(t, DataReceived(read.data));
      CountersAppendOne(t + [DataReceived(read.data)], ArmRead);
    }
  }

  /** The handler forwards exactly the bytes read, once, when it keeps the
      port going, and forwards nothing otherwise. */
  lemma OnReadReadyForwards(p: Port, ec: IoError, read: ReadReply)
    requires ValidReadReply(read)
    ensures var r := OnReadReady(p, ec, read);
      Forwarded(r.trace) ==
        Forwarded(p.trace) + (if ec == NoError && !ReadEndsPort(read) then [read.data] else [])
  {
    if ec == OperationAborted {
    } else if ec != NoError {
      CountersAppendOne(p.trace, StateChanged);
      CountersAppendOne(p.trace + [StateChanged], ErrorReported);
    } else if ReadEndsPort(read) {
      CountersAppendOne(p.trace, ReadSome);
      CountersAppendOne(p.trace + [ReadSome], StateChanged);
    } else {
      var t := p.trace + [ReadSome];
      CountersAppendOne(p.trace, ReadSome);
      CountersAppendOne(t, DataReceived(read.data));
      CountersAppendOne(t + [DataReceived(read.data)], ArmRead);
    }
  }

  /** With the library's guarantee, an erroring `read_some` always ends
      the port. The exemption for "try again" and "interrupted" never keeps
      it alive, because such a read reports no bytes and the zero-byte test
      fires first. */
  lemma ReadErrorAlwaysEndsPort(read: ReadReply)
    requires ValidReadReply(read) && read.err != NoError
    ensures ReadEndsPort(read)
  {
  }

  /** A concrete case: a wake-up whose read says "try again" makes the
      handler, as written, clear the flag, notify and arm nothing. */
  lemma TryAgainReadFailsPort(p: Port)
    ensures var r := OnReadReady(p, NoError, ReadReply([], TryAgain));
      !r.valid && r.pendingReads == p.pendingReads &&
      r.trace == p.trace + [ReadSome, StateChanged]
  {
  }

  /** The handler as evidently intended: a read that says "try again" or
      "interrupted" forwards nothing and arms the next read, leaving the port
      live. Every other completion is handled as written. */
  function OnReadReadyFixed(p: Port, ec: IoError, read: ReadReply): (r: Port)
    requires ValidReadReply(read)
    ensures ec == NoError && (read.err == TryAgain || read.err == Interrupted) ==>
      r.valid == p.valid && r.pendingReads == p.pendingReads + 1 &&
      r.trace == p.trace + [ReadSome, ArmRead]
    ensures ec != NoError || (read.err != TryAgain && read.err != Interrupted) ==>
      r == OnReadReady(p, ec, read)
  {
    if ec == NoError && (read.err == TryAgain || read.err == Interrupted) then
      AsyncRead(p.(trace := p.trace + [ReadSome]))
    else
      OnReadReady(p, ec, read)
  }

  // ---------------------------------------------------------------------
  // Writing

  /** `WaitWrite`: FAILED on a port that is not live, without polling;
      otherwise one poll, whose sign decides the answer. */
  function WaitWrite(p: Port, timeoutMs: nat, poll: int): (r: Step<WaitResult>)
    requires p.open
    ensures !p.valid ==> r.value == WaitFailed && r.port == p
    ensures p.valid ==> r.port.trace == p.trace + [PollWritable(timeoutMs)]
    ensures r.value == WaitReady <==> p.valid && poll > 0
    ensures r.value == WaitTimeout <==> p.valid && poll == 0
    ensures r.value == WaitFailed <==> !p.valid || poll < 0
    ensures SameState(p, r.port)
  {
    if !p.valid then Step(p, WaitFailed)
    else
      var q := p.(trace := p.trace + [PollWritable(timeoutMs)]);
      Step(q, if poll > 0 then WaitReady else if poll == 0 then WaitTimeout else WaitFailed)
  }

  /** What the I/O library promises of a `write_some` result: it never
      accepts more bytes than it was given, and it reports 0 bytes whenever
      it reports an error. */
  predicate ValidWriteReply(w: WriteReply, length: nat)
  {
    w.count <= length && (w.err != NoError ==> w.count == 0)
  }

  /** `Write`: nothing on a port that is not live; otherwise one
      `write_some`, and when it reports "try again", a wait of
      `WriteRetryTimeoutMs` for writability followed by exactly one more
      `write_some` if the wait says READY. The result is the last attempt's
      byte count, or 0 when the wait fails. `second` is the reply of the
      retry, unused when there is none. */
  function Write(p: Port, data: seq<byte>, first: WriteReply, poll: int, second: WriteReply): (r: Step<nat>)
    requires p.open
    requires ValidWriteReply(first, |data|) && ValidWriteReply(second, |data|)
    ensures r.value <= |data|
    ensures SameState(p, r.port)
    ensures p.trace <= r.port.trace
    ensures !p.valid ==> r.value == 0 && r.port == p
    ensures CountWrites(r.port.trace) <= CountWrites(p.trace) + 2
    ensures CountWrites(r.port.trace) == CountWrites(p.trace) + 2 <==>
      p.valid && first.err == TryAgain && poll > 0
    ensures p.valid ==> CountWrites(r.port.trace) > CountWrites(p.trace)
    ensures p.valid && first.err == TryAgain && poll <= 0 ==> r.value == 0
    ensures p.valid && first.err == TryAgain && poll > 0 ==> r.value == second.count
    ensures p.valid && first.err != TryAgain ==> r.value == first.count
    ensures p.valid && first.err != TryAgain ==> r.port.trace == p.trace + [WriteSome(|data|)]
    ensures p.valid && first.err == TryAgain && poll <= 0 ==>
      r.port.trace == p.trace + [WriteSome(|data|), PollWritable(WriteRetryTimeoutMs)]
    ensures p.valid && first.err == TryAgain && poll > 0 ==>
      r.port.trace == p.trace + [WriteSome(|data|), PollWritable(WriteRetryTimeoutMs), WriteSome(|data|)]
    ensures first.err != NoError && first.err != TryAgain ==> r.value == 0
    ensures first.err == TryAgain && second.err != NoError ==> r.value == 0
  {
    if !p.valid then Step(p, 0)
    else
      var q := p.(trace := p.trace + [WriteSome(|data|)]);
      assert q.trace[..|q.trace| - 1] == p.trace;
      if first.err == TryAgain then
        var w := WaitWrite(q, WriteRetryTimeoutMs, poll);
        if w.value != WaitReady then
          assert w.port.trace[..|w.port.trace| - 1] == q.trace;
          assert w.port.trace[..|p.trace|] == p.trace;
          Step(w.port, 0)
        else
          var s := w.port.(trace := w.port.trace + [WriteSome(|data|)]);
          assert s.trace[..|s.trace| - 1] == w.port.trace;
          assert w.port.trace[..|w.port.trace| - 1] == q.trace;
          assert s.trace[..|p.trace|] == p.trace;
          Step(s, second.count)
      else
        Step(q, first.count)
  }

  /** `Write` makes its second `write_some` exactly when the first one
      reported "try again" and `WaitWrite` with the retry timeout, asked of
      the port as it was, would answer READY. */
  lemma WriteRetriesExactlyWhenWaitReady(p: Port, data: seq<byte>, first: WriteReply, poll: int, second: WriteReply)
    requires p.open
    requires ValidWriteReply(first, |data|) && ValidWriteReply(second, |data|)
    ensures CountWrites(Write(p, data, first, poll, second).port.trace) == CountWrites(p.trace) + 2 <==>
      first.err == TryAgain && WaitWrite(p, WriteRetryTimeoutMs, poll).value == WaitReady
  {
  }

  // ---------------------------------------------------------------------
  // Line configuration

  /** `SetBaudrate`, as written: it applies the `baud_rate` member and
      ignores its argument `requested`. */
  function SetBaudrate(p: Port, requested: nat, setOk: bool): (r: Step<bool>)
    requires p.open
    ensures r.value == setOk
    ensures r.port.trace == p.trace + [SetOption(p.baudRate)]
    ensures setOk ==> r.port.lineRate == p.baudRate
    ensures !setOk ==> r.port.lineRate == p.lineRate
    ensures r.port.valid == p.valid && r.port.pendingReads == p.pendingReads
    ensures r.port.baudRate == p.baudRate && r.port.open
  {
    var q := p.(trace := p.trace + [SetOption(p.baudRate)]);
    Step(if setOk then q.(lineRate := p.baudRate) else q, setOk)
  }

  /** `SetBaudrate` as evidently intended: it applies its argument. */
  function SetBaudrateFixed(p: Port, requested: nat, setOk: bool): (r: Step<bool>)
    requires p.open
    ensures r.value == setOk
    ensures r.port.trace == p.trace + [SetOption(requested)]
    ensures r.port.open
    ensures setOk ==> GetBaudrate(r.port, true).value == requested
    ensures !setOk ==> GetBaudrate(r.port, true).value == p.lineRate
    ensures r.port.valid == p.valid && r.port.pendingReads == p.pendingReads
  {
    var q := p.(trace := p.trace + [SetOption(requested)]);
    Step(if setOk then q.(lineRate := requested) else q, setOk)
  }

  /** The as-written `SetBaudrate` never looks at its argument: any two
      requested rates give the same port. */
  lemma SetBaudrateIgnoresArgument(p: Port, a: nat, b: nat, setOk: bool)
    requires p.open
    ensures SetBaudrate(p, a, setOk) == SetBaudrate(p, b, setOk)
  {
  }

  /** A concrete case: with 4800 in the member, asking for 9600 leaves the
      line at 4800, so reading the rate back does not give 9600. */
  lemma SetBaudrateRoundTripFails()
    ensures var p := Port(true, true, 4800, 4800, 1, []);
      var s := SetBaudrate(p, 9600, true);
      s.value && GetBaudrate(s.port, true).value == 4800 != 9600
  {
  }

  /** Where the source itself calls `SetBaudrate` (in `Open`, right after
      storing the requested rate in the member) the as-written and the
      corrected definitions agree. */
  lemma SetBaudrateFixAgreesInOpen(p: Port, setOk: bool)
    requires p.open
    ensures SetBaudrate(p, p.baudRate, setOk) == SetBaudrateFixed(p, p.baudRate, setOk)
  {
  }

  /** `GetBaudrate`: the device's line rate, or 0 when the query fails. */
  function GetBaudrate(p: Port, queryOk: bool): (r: Step<nat>)
    requires p.open
    ensures queryOk ==> r.value == p.lineRate
    ensures !queryOk ==> r.value == 0
    ensures SameState(p, r.port) && r.port.trace == p.trace + [GetOption]
  {
    Step(p.(trace := p.trace + [GetOption]), if queryOk then p.lineRate else 0)
  }

  /** `Flush`: nothing on a port that is not live; otherwise the OS input
      queue and then the buffering layer are flushed. */
  function Flush(p: Port): (r: Port)
    ensures !p.valid ==> r == p
    ensures p.valid ==> r.trace == p.trace + [TcFlush, BufferFlush]
    ensures SameState(p, r)
  {
    if !p.valid then p else p.(trace := p.trace + [TcFlush, BufferFlush])
  }

  /** `Drain`: succeeds exactly when `tcdrain` returns 0. */
  function Drain(p: Port, tcdrainResult: int): (r: Step<bool>)
    ensures r.value <==> tcdrainResult == 0
    ensures SameState(p, r.port) && r.port.trace == p.trace + [TcDrain]
  {
    Step(p.(trace := p.trace + [TcDrain]), tcdrainResult == 0)
  }

  // ---------------------------------------------------------------------
  // Opening

  /** `Open`: raise if the device does not open; otherwise assign the
      handle, store the requested rate in the `baud_rate` member and apply
      it. If applying fails, return false with the handle assigned and the
      port not live. Otherwise set the flag, arm one read and notify.
      `deviceRate` is the line rate the device has when opened. */
  function Open(p: Port, path: string, baudRate: nat, openOk: bool, deviceRate: nat, setOk: bool)
    : (r: Step<Opening<bool>>)
    requires !p.open
    ensures !openOk ==> r == Step(p, Raised(CannotOpen(path)))
    ensures openOk ==> r.value == Done(setOk) && r.port.open && r.port.baudRate == baudRate
    ensures openOk && !setOk ==>
      r.port.valid == p.valid && r.port.pendingReads == p.pendingReads &&
      r.port.lineRate == deviceRate && r.port.trace == p.trace + [SetOption(baudRate)]
    ensures openOk && setOk ==>
      GetState(r.port) == Ready && r.port.pendingReads == p.pendingReads + 1 &&
      r.port.lineRate == baudRate &&
      r.port.trace == p.trace + [SetOption(baudRate), ArmRead, StateChanged]
  {
    if !openOk then Step(p, Raised(CannotOpen(path)))
    else
      var q := p.(open := true, lineRate := deviceRate, baudRate := baudRate);
      var s := SetBaudrate(q, q.baudRate, setOk);
      if !s.value then Step(s.port, Done(false))
      else
        var a := AsyncRead(s.port.(valid := true));
        Step(a.(trace := a.trace + [StateChanged]), Done(true))
  }

  /** `OpenPseudo`: raise if the multiplexer does not open or cannot be
      unlocked (the handle stays assigned in the second case); otherwise set
      the flag, arm one read, notify and return the peer's name as reported
      by `ptsname` (`None` when it reports none). No rate is applied: the
      line keeps the device's own. */
  function OpenPseudo(p: Port, openOk: bool, unlockOk: bool, deviceRate: nat, peer: Option<string>)
    : (r: Step<Opening<Option<string>>>)
    requires !p.open
    ensures !openOk ==> r == Step(p, Raised(CannotOpen(PseudoTerminalPath)))
    ensures openOk && !unlockOk ==>
      r.value == Raised(CannotUnlock(PseudoTerminalPath)) && r.port.open &&
      r.port.valid == p.valid && r.port.pendingReads == p.pendingReads &&
      r.port.lineRate == deviceRate && r.port.trace == p.trace + [Unlockpt]
    ensures openOk && unlockOk ==>
      r.value == Done(peer) && r.port.open &&
      GetState(r.port) == Ready && r.port.pendingReads == p.pendingReads + 1 &&
      r.port.lineRate == deviceRate &&
      r.port.trace == p.trace + [Unlockpt, ArmRead, StateChanged]
    ensures r.port.baudRate == p.baudRate
  {
    if !openOk then Step(p, Raised(CannotOpen(PseudoTerminalPath)))
    else
      var q := p.(open := true, lineRate := deviceRate, trace := p.trace + [Unlockpt]);
      if !unlockOk then Step(q, Raised(CannotUnlock(PseudoTerminalPath)))
      else
        var a := AsyncRead(q.(valid := true));
        Step(a.(trace := a.trace + [StateChanged]), Done(peer))
  }

  // ---------------------------------------------------------------------
  // Destruction

  /** Dispatch of one armed read's completion by the I/O loop: the read is
      no longer pending, then the handler runs. */
  function Complete(p: Port, ec: IoError, read: ReadReply): (r: Port)
    requires p.pendingReads > 0 && ValidReadReply(read)
    ensures ec == OperationAborted ==> r == p.(pendingReads := p.pendingReads - 1)
    ensures ec != OperationAborted ==> r.trace != p.trace
  {
    OnReadReady(p.(pendingReads := p.pendingReads - 1), ec, read)
  }

  /** The destructor. It suspends the buffering layer, cancels the pending
      read if the handle is assigned, finalizes the buffering layer, and then
      the handle is closed.

      `raced` is a completion the I/O loop had already dispatched when
      destruction began. Cancelling cannot abort it, so its handler runs after
      `BeginClose` and before the cancellation is processed. Without one, the
      pending read is cancelled. Its completion reports "operation aborted"
      and reaches the handler only after the port is gone
      (`AbortedAfterCloseTouchesNothing`). Either way the reads counted as
      pending afterwards are cancelled ones. */
  function Close(p: Port, raced: Option<Completion>): (r: Port)
    requires raced.Some? ==> ValidReadReply(raced.value.read)
    ensures !r.open
    ensures |r.trace| >= |p.trace| + 2 && r.trace[..|p.trace| + 1] == p.trace + [BeginClose]
    ensures r.trace[|r.trace| - 1] == EndClose
    ensures p.open ==> r.trace[|r.trace| - 2] == CancelWait
    ensures raced.None? || p.pendingReads == 0 ==>
      r.valid == p.valid && r.pendingReads == p.pendingReads &&
      r.trace == p.trace + (if p.open then [BeginClose, CancelWait, EndClose] else [BeginClose, EndClose])
    ensures raced.None? ==> Silent(r.trace[|p.trace|..])
  {
    var b := p.(trace := p.trace + [BeginClose]);
    var h := if raced.Some? && b.pendingReads > 0 then Complete(b, raced.value.ec, raced.value.read) else b;
    var c := if h.open then h.(trace := h.trace + [CancelWait]) else h;
    var r := c.(open := false, trace := c.trace + [EndClose]);
    assert b.trace <= h.trace;
    assert r.trace[..|p.trace| + 1] == b.trace;
    assert raced.None? || p.pendingReads == 0 ==>
      r.trace[|p.trace|..] == (if p.open then [BeginClose, CancelWait, EndClose] else [BeginClose, EndClose]);
    r
  }

  /** The "operation aborted" completion of a read cancelled by `Close`
      reaches a handler that returns at once: the port, its flag and its
      trace stay as `Close` left them; only the read stops being pending. */
  lemma AbortedAfterCloseTouchesNothing(p: Port, raced: Option<Completion>, read: ReadReply)
    requires raced.Some? ==> ValidReadReply(raced.value.read)
    requires ValidReadReply(read) && Close(p, raced).pendingReads > 0
    ensures var r := Close(p, raced);
      var a := Complete(r, OperationAborted, read);
      a.trace == r.trace && a.valid == r.valid && !a.open &&
      a.pendingReads == r.pendingReads - 1
  {
  }
}
