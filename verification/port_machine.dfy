/** The port's operations put together as one state machine, with the read
    completions delivered by the I/O loop, and the properties that hold over
    whole runs: at most one read is ever outstanding, a failed port stays
    failed until it is reopened, the read loop forwards in order and stops
    on failure, and destruction notifies and forwards nothing unless a
    completion was already dispatched when it began. */
module PortMachine {
  import opened TtyPort

  /** A call into the port, with the oracle results it will see, or a read
      completion delivered by the I/O loop. */
  datatype Op =
    | OpenOp(path: string, baudRate: nat, openOk: bool, deviceRate: nat, setOk: bool)
    | OpenPseudoOp(openOk: bool, unlockOk: bool, deviceRate: nat, peer: Option<string>)
    | WriteOp(data: seq<byte>, first: WriteReply, poll: int, second: WriteReply)
    | WaitWriteOp(timeoutMs: nat, poll: int)
    | FlushOp
    | DrainOp(tcdrainResult: int)
    | SetBaudrateOp(rate: nat, setOk: bool)
    | GetBaudrateOp(queryOk: bool)
    | CompleteOp(c: Completion)

  /** The completion's read result is one the I/O library can report. */
  predicate ValidCompletion(c: Completion)
  {
    ValidReadReply(c.read)
  }

  /** When `op` may happen: the open calls on a port without a handle, the
      calls that assert an assigned handle on one with it, and a completion
      only while a read is armed. */
  predicate Allowed(p: Port, op: Op)
  {
    match op
    case OpenOp(_, _, _, _, _) => !p.open
    case OpenPseudoOp(_, _, _, _) => !p.open
    case WriteOp(data, first, _, second) =>
      p.open && ValidWriteReply(first, |data|) && ValidWriteReply(second, |data|)
    case WaitWriteOp(_, _) => p.open
    case FlushOp => true
    case DrainOp(_) => true
    case SetBaudrateOp(_, _) => p.open
    case GetBaudrateOp(_) => p.open
    case CompleteOp(c) => p.pendingReads > 0 && ValidCompletion(c)
  }

  /** The port after `op`. */
  function Apply(p: Port, op: Op): Port
    requires Allowed(p, op)
  {
    match op
    case OpenOp(path, rate, openOk, deviceRate, setOk) =>
      Open(p, path, rate, openOk, deviceRate, setOk).port
    case OpenPseudoOp(openOk, unlockOk, deviceRate, peer) =>
      OpenPseudo(p, openOk, unlockOk, deviceRate, peer).port
    case WriteOp(data, first, poll, second) => Write(p, data, first, poll, second).port
    case WaitWriteOp(timeoutMs, poll) => WaitWrite(p, timeoutMs, poll).port
    case FlushOp => Flush(p)
    case DrainOp(result) => Drain(p, result).port
    case SetBaudrateOp(rate, setOk) => SetBaudrate(p, rate, setOk).port
    case GetBaudrateOp(queryOk) => GetBaudrate(p, queryOk).port
    case CompleteOp(c) => Complete(p, c.ec, c.read)
  }

  /** The operations that can make a port live. */
  predicate Reopens(op: Op)
  {
    op.OpenOp? || op.OpenPseudoOp?
  }

  /** At most one read is outstanding, and an outstanding read belongs to a
      live port whose handle is assigned. */
  predicate Inv(p: Port)
  {
    p.pendingReads <= 1 && (p.pendingReads == 1 ==> p.open && p.valid)
  }

  /** Every operation keeps the invariant. */
  lemma ApplyKeepsInv(p: Port, op: Op)
    requires Inv(p) && Allowed(p, op)
    ensures Inv(Apply(p, op))
  {
  }

  /** No operation except an open call makes a failed port live again. */
  lemma ApplyKeepsFailed(p: Port, op: Op)
    requires !p.valid && Allowed(p, op) && !Reopens(op)
    ensures !Apply(p, op).valid
  {
  }

  /** `ops` can be run one after the other from `p`. */
  predicate Executable(p: Port, ops: seq<Op>)
    decreases |ops|
  {
    |ops| == 0 || (Allowed(p, ops[0]) && Executable(Apply(p, ops[0]), ops[1..]))
  }

  /** The port after running `ops` from `p`. */
  function Run(p: Port, ops: seq<Op>): Port
    requires Executable(p, ops)
    decreases |ops|
  {
    if |ops| == 0 then p else Run(Apply(p, ops[0]), ops[1..])
  }

  /** Every run keeps the invariant: at most one read is ever outstanding. */
  lemma {:induction false} RunKeepsInv(p: Port, ops: seq<Op>)
    requires Inv(p) && Executable(p, ops)
    ensures Inv(Run(p, ops)) && Run(p, ops).pendingReads <= 1
    decreases |ops|
  {
    if |ops| > 0 {
      ApplyKeepsInv(p, ops[0]);
      RunKeepsInv(Apply(p, ops[0]), ops[1..]);
    }
  }

  /** Once failed, a port reports FAILED through any run without an open call. */
  lemma {:induction false} RunKeepsFailed(p: Port, ops: seq<Op>)
    requires !p.valid && Executable(p, ops)
    requires forall i :: 0 <= i < |ops| ==> !Reopens(ops[i])
    ensures GetState(Run(p, ops)) == Failed
    decreases |ops|
  {
    if |ops| > 0 {
      ApplyKeepsFailed(p, ops[0]);
      RunKeepsFailed(Apply(p, ops[0]), ops[1..]);
    }
  }

  /** From a newly constructed port, whatever happens, at most one read is
      outstanding. Destroying the port with no completion in flight cancels
      at most that one read, and its aborted completion changes nothing. */
  lemma LifetimeCancelsAtMostOneRead(ops: seq<Op>, read: ReadReply)
    requires Executable(NewPort(), ops) && ValidReadReply(read)
    ensures Run(NewPort(), ops).pendingReads <= 1
    ensures var r := Close(Run(NewPort(), ops), None);
      r.pendingReads <= 1 &&
      (r.pendingReads == 1 ==> Complete(r, OperationAborted, read).trace == r.trace &&
                               Complete(r, OperationAborted, read).pendingReads == 0)
  {
    RunKeepsInv(NewPort(), ops);
  }

  /** A successful open on a port that keeps the invariant leaves exactly
      one read outstanding, and the port READY. */
  lemma OpenArmsOneRead(p: Port, path: string, rate: nat, deviceRate: nat)
    requires Inv(p) && !p.open
    ensures var r := Open(p, path, rate, true, deviceRate, true);
      r.value == Done(true) && r.port.pendingReads == 1 && GetState(r.port) == Ready
    ensures var r := OpenPseudo(p, true, true, deviceRate, None);
      r.port.pendingReads == 1 && GetState(r.port) == Ready
  {
  }

  // ---------------------------------------------------------------------
  // The read loop

  /** The completion forwards data and keeps the loop going. */
  predicate Delivers(c: Completion)
  {
    c.ec == NoError && !ReadEndsPort(c.read)
  }

  /** The completion ends the port. */
  predicate Breaks(c: Completion)
  {
    c.ec != OperationAborted && (c.ec != NoError || ReadEndsPort(c.read))
  }

  /** The I/O loop delivers the completions `cs` in order for as long as a
      read is armed; those left when none is armed never happen. */
  function DeliverAll(p: Port, cs: seq<Completion>): Port
    requires forall i :: 0 <= i < |cs| ==> ValidCompletion(cs[i])
    decreases |cs|
  {
    if |cs| == 0 || p.pendingReads == 0 then p
    else
      assert ValidCompletion(cs[0]);
      DeliverAll(Complete(p, cs[0].ec, cs[0].read), cs[1..])
  }

  /** The bytes of the completions, in order. */
  function Chunks(cs: seq<Completion>): seq<seq<byte>>
    decreases |cs|
  {
    if |cs| == 0 then [] else [cs[0].read.data] + Chunks(cs[1..])
  }

  /** N completions that deliver data are forwarded N times, in order, with
      no notification, and the port stays live with one read armed. */
  lemma {:induction false} ReadLoopForwardsInOrder(p: Port, cs: seq<Completion>)
    requires p.valid && p.pendingReads == 1
    requires forall i :: 0 <= i < |cs| ==> ValidCompletion(cs[i]) && Delivers(cs[i])
    ensures var r := DeliverAll(p, cs);
      r.valid && r.pendingReads == 1 &&
      Forwarded(r.trace) == Forwarded(p.trace) + Chunks(cs) &&
      CountStateChanged(r.trace) == CountStateChanged(p.trace)
    decreases |cs|
  {
    if |cs| > 0 {
      var c := cs[0];
      var q := Complete(p, c.ec, c.read);
      OnReadReadyForwards(p.(pendingReads := 0), c.ec, c.read);
      OnReadReadyNotifies(p.(pendingReads := 0), c.ec, c.read);
      ReadLoopForwardsInOrder(q, cs[1..]);
      assert Forwarded(p.trace) + [c.read.data] + Chunks(cs[1..]) == Forwarded(p.trace) + Chunks(cs);
    }
  }

  /** A completion that ends the port clears the flag, notifies once, stops
      the loop, and every completion after it never happens. */
  lemma ReadLoopStopsOnFailure(p: Port, c: Completion, cs: seq<Completion>)
    requires Inv(p) && p.pendingReads == 1 && Breaks(c)
    requires ValidCompletion(c) && forall i :: 0 <= i < |cs| ==> ValidCompletion(cs[i])
    ensures var r := DeliverAll(p, [c] + cs);
      GetState(r) == Failed && r.pendingReads == 0 &&
      CountStateChanged(r.trace) == CountStateChanged(p.trace) + 1 &&
      Forwarded(r.trace) == Forwarded(p.trace)
  {
    var all := [c] + cs;
    assert all[0] == c && all[1..] == cs;
    OnReadReadyForwards(p.(pendingReads := 0), c.ec, c.read);
    OnReadReadyNotifies(p.(pendingReads := 0), c.ec, c.read);
  }

  /** Destruction with no completion in flight notifies nobody and
      forwards nothing; the pending read, if any, is left to be aborted. */
  lemma CloseIsQuiet(p: Port)
    ensures var r := Close(p, None);
      r.pendingReads == p.pendingReads &&
      CountStateChanged(r.trace) == CountStateChanged(p.trace) &&
      Forwarded(r.trace) == Forwarded(p.trace)
  {
    var r := Close(p, None);
    var u := r.trace[|p.trace|..];
    assert r.trace == p.trace + u;
    CountersAppend(p.trace, u);
    SilentCountsNothing(u);
  }

  /** A data completion already dispatched when destruction begins is
      forwarded after `BeginClose`, and its handler arms a new read, which
      `CancelWait` then cancels. Only the buffering layer, which is not
      modelled, can keep that data from its consumer. */
  lemma CloseRacingDataForwardsAfterBeginClose(p: Port, c: Completion)
    requires Inv(p) && p.pendingReads == 1 && ValidCompletion(c) && Delivers(c)
    ensures var r := Close(p, Some(c));
      r.trace[|p.trace|] == BeginClose &&
      r.trace[|p.trace|..] == [BeginClose, ReadSome, DataReceived(c.read.data), ArmRead, CancelWait, EndClose] &&
      Forwarded(r.trace) == Forwarded(p.trace) + [c.read.data] &&
      r.valid && r.pendingReads == 1
  {
    var r := Close(p, Some(c));
    var u := [BeginClose, ReadSome, DataReceived(c.read.data), ArmRead, CancelWait, EndClose];
    assert r.trace == p.trace + u;
    CountersAppend(p.trace, u);
    assert u == [BeginClose, ReadSome] + [DataReceived(c.read.data)] + [ArmRead, CancelWait, EndClose];
    CountersAppend([BeginClose, ReadSome], [DataReceived(c.read.data)]);
    CountersAppend([BeginClose, ReadSome] + [DataReceived(c.read.data)], [ArmRead, CancelWait, EndClose]);
    assert Forwarded([BeginClose, ReadSome]) == [] by {
      SilentCountsNothing([BeginClose, ReadSome]);
    }
    assert Forwarded([ArmRead, CancelWait, EndClose]) == [] by {
      SilentCountsNothing([ArmRead, CancelWait, EndClose]);
    }
    CountersAppendOne([], DataReceived(c.read.data));
  }

  /** A completion already dispatched when destruction begins that ends the
      port notifies the listener after `BeginClose`, once, forwards nothing,
      and leaves no read pending. */
  lemma CloseRacingFailureNotifiesAfterBeginClose(p: Port, c: Completion)
    requires Inv(p) && p.pendingReads == 1 && ValidCompletion(c) && Breaks(c)
    ensures var r := Close(p, Some(c));
      r.trace[|p.trace|] == BeginClose &&
      CountStateChanged(r.trace) == CountStateChanged(p.trace) + 1 &&
      Forwarded(r.trace) == Forwarded(p.trace) &&
      !r.valid && r.pendingReads == 0
  {
    var b := p.(trace := p.trace + [BeginClose]);
    var h := Complete(b, c.ec, c.read);
    OnReadReadyNotifies(b.(pendingReads := 0), c.ec, c.read);
    OnReadReadyForwards(b.(pendingReads := 0), c.ec, c.read);
    CountersAppendOne(p.trace, BeginClose);
    CountersAppendOne(h.trace, CancelWait);
    CountersAppendOne(h.trace + [CancelWait], EndClose);
  }
}
