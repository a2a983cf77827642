/** `TUDPTransport::Impl`: two byte buffers between the callers and an i/o thread.  Every
    section that runs under the mutex is one atomic step, and so is every notification after
    it; the completion of a socket operation is a step with a byte count and an error flag. */
module UdpState {
  import opened Wrappers
  import opened ByteStrings

  datatype Kind = Client | Server

  /** Where the i/o thread is in `write_async` or `read_async`; `Notifying` is a completion
      handler between its critical section and its notification. */
  datatype IoPc = Stopped | AtTop | AwaitingSubmit | InFlight | Notifying

  /** Where the closing thread is in `close_and_join`: before its notifications, before it
      stops the i/o context, or before the join. */
  datatype ClosePc = NotClosing | Unlocked | Stopping | Joining

  /** What became of a main buffer: moved to the help buffer, or cleared as oversized. */
  datatype Segment = Forwarded(bytes: Bytes) | Discarded(bytes: Bytes)

  datatype Outcome = Done | NotOpen | WrongKind | Concurrent | TooLarge | Blocked

  const MAX_UDP_PACKET_SIZE: nat := 65000
  const RECEIVE_SIZE: nat := 1440

  datatype Udp = Udp(
    kind: Kind,
    open: bool,
    inProgress: bool,
    main: Bytes,
    help: Bytes,
    io: IoPc,
    closing: ClosePc,
    stopped: bool,             // io_context_ was stopped; nothing restarts it
    waiters: nat,              // callers blocked in flush or read_virt
    notified: bool,            // the caller has been notified, and has not woken up yet
    accepted: Bytes,           // history, client: bytes taken by write_virt
    segments: seq<Segment>,    // history, client: the main buffers so far
    sent: Bytes,               // history, client: bytes the socket took
    received: Bytes,           // history, server: bytes the socket gave
    returned: Bytes)           // history, server: bytes given to callers

  function New(kind: Kind): Udp {
    Udp(kind, false, false, [], [], Stopped, NotClosing, false, 0, false, [], [], [], [], [])
  }

  datatype Step =
    | Open
    | Close
    | CloseNotify
    | StopIo
    | Join
    | WriteVirt(buf: Bytes)
    | FlushBegin
    | FlushEnd                            // notified or woken spuriously
    | ReadBegin
    | ReadAgain                           // woken with nothing to read
    | ReadEnd(len: nat)
    | IoTop
    | IoSubmit
    | IoNotify
    | SendComplete(error: bool, n: nat)
    | ReceiveComplete(error: bool, bytes: Bytes)

  predicate Enabled(s: Udp, step: Step) {
    match step
    case Open => !s.open ==> s.io == Stopped && s.closing == NotClosing
    case Close => true
    case CloseNotify => s.closing == Unlocked
    case StopIo => s.closing == Stopping
    case Join => s.closing == Joining && (s.io == Stopped || s.io == InFlight)
    case WriteVirt(_) => true
    case FlushBegin => true
    case FlushEnd => s.kind == Client && s.waiters > 0
    case ReadBegin => true
    case ReadAgain => s.kind == Server && s.waiters > 0 && s.open && s.main == []
    case ReadEnd(_) => s.kind == Server && s.waiters > 0 && (!s.open || s.main != [])
    case IoTop => s.io == AtTop
    case IoNotify => s.io == Notifying
    case IoSubmit => s.kind == Client && s.io == AwaitingSubmit && (s.inProgress || !s.open)
    // Completion handlers run only while the i/o context does.
    case SendComplete(_, n) => s.kind == Client && s.io == InFlight && !s.stopped && n <= |s.help|
    case ReceiveComplete(_, bytes) => s.kind == Server && s.io == InFlight && !s.stopped && |bytes| <= RECEIVE_SIZE
  }

  function WriteOutcome(s: Udp): Outcome {
    if !s.open then NotOpen else if s.kind != Client then WrongKind else Done
  }

  function FlushOutcome(s: Udp): Outcome {
    if !s.open then NotOpen
    else if s.kind != Client then WrongKind
    else if s.inProgress then Concurrent
    else if |s.main| == 0 then Done
    else if |s.main| > MAX_UDP_PACKET_SIZE then TooLarge
    else Blocked
  }

  function ReadOutcome(s: Udp): Outcome {
    if !s.open then NotOpen
    else if s.kind != Server then WrongKind
    else if s.inProgress then Concurrent
    else Blocked
  }

  /** The start of a send: the main buffer moves behind what is left of earlier sends. */
  function StartSend(s: Udp): Udp {
    s.(help := s.help + s.main, main := [], segments := s.segments + [Forwarded(s.main)], io := InFlight)
  }

  function Next(s: Udp, step: Step): Udp
    requires Enabled(s, step)
  {
    match step
    case Open => if s.open then s else s.(open := true, io := AtTop)
    case Close => if !s.open then s else s.(open := false, closing := Unlocked)
    case CloseNotify => Notify(s).(closing := Stopping)
    case StopIo => s.(closing := Joining, stopped := true)
    case Join => s.(io := Stopped, closing := NotClosing)
    case WriteVirt(buf) =>
      if WriteOutcome(s) != Done then s
      else s.(main := s.main + buf, accepted := s.accepted + buf)
    case FlushBegin =>
      (match FlushOutcome(s)
       case TooLarge => s.(main := [], segments := s.segments + [Discarded(s.main)])
       case Blocked => s.(inProgress := true, waiters := s.waiters + 1, notified := false)
       case _ => s)
    case FlushEnd => s.(inProgress := false, waiters := s.waiters - 1, notified := false)
    case ReadBegin =>
      // The wait has a predicate, so with bytes to read it ends at once.
      if ReadOutcome(s) != Blocked then s
      else s.(inProgress := true, waiters := s.waiters + 1, notified := s.main != [])
    case ReadAgain => s.(notified := false)
    case ReadEnd(len) =>
      var woken := s.(inProgress := false, waiters := s.waiters - 1, notified := false);
      if !s.open then woken
      else
        var offset := if len < |s.main| then len else |s.main|;
        woken.(main := s.main[offset..], returned := s.returned + s.main[..offset])
    case IoTop =>
      if s.kind == Server then s.(help := seq(RECEIVE_SIZE, _ => 0), io := InFlight)
      else if !s.open then s.(io := Stopped)
      else if s.inProgress then StartSend(s)
      else s.(io := AwaitingSubmit)
    case IoSubmit => if !s.open then s.(io := Stopped) else StartSend(s)
    case IoNotify => Notify(s).(io := AtTop)
    case SendComplete(error, n) =>
      if error || n == 0 then s.(io := Notifying)
      else s.(help := s.help[n..], sent := s.sent + s.help[..n], io := Notifying)
    case ReceiveComplete(error, bytes) =>
      if error || |bytes| == 0 then s.(io := AtTop)
      else s.(main := s.main + bytes, received := s.received + bytes, io := Notifying)
  }

  /** `receive_cv_.notify_one`: lost when nobody waits. */
  function Notify(s: Udp): Udp {
    s.(notified := s.notified || s.waiters > 0)
  }

  function Execute(s: Udp, steps: seq<Step>): Option<Udp> {
    if |steps| == 0 then Some(s)
    else
      var last := |steps| - 1;
      match Execute(s, steps[..last])
      case None => None
      case Some(s') => if Enabled(s', steps[last]) then Some(Next(s', steps[last])) else None
  }

  // ---------------------------------------------------------------- conservation

  function All(segments: seq<Segment>): Bytes {
    if |segments| == 0 then [] else All(segments[..|segments| - 1]) + segments[|segments| - 1].bytes
  }

  function Kept(segments: seq<Segment>): Bytes {
    if |segments| == 0 then []
    else
      var last := segments[|segments| - 1];
      Kept(segments[..|segments| - 1]) + if last.Forwarded? then last.bytes else []
  }

  lemma SegmentsAppend(segments: seq<Segment>, segment: Segment)
    ensures All(segments + [segment]) == All(segments) + segment.bytes
    ensures Kept(segments + [segment]) == Kept(segments) + if segment.Forwarded? then segment.bytes else []
  {
    assert (segments + [segment])[..|segments|] == segments;
  }

  ghost predicate ClientInv(s: Udp) {
    && s.accepted == All(s.segments) + s.main
    && s.sent + s.help == Kept(s.segments)
    && forall i :: 0 <= i < |s.segments| && s.segments[i].Discarded? ==> |s.segments[i].bytes| > MAX_UDP_PACKET_SIZE
  }

  predicate ServerInv(s: Udp) {
    s.received == s.returned + s.main
  }

  predicate WaiterInv(s: Udp) {
    s.waiters == if s.inProgress then 1 else 0
  }

  lemma StartSendKept(s: Udp)
    requires ClientInv(s)
    ensures ClientInv(StartSend(s))
  {
    SegmentsAppend(s.segments, Forwarded(s.main));
    assert s.sent + (s.help + s.main) == (s.sent + s.help) + s.main;
  }

  lemma DiscardKept(s: Udp)
    requires ClientInv(s) && |s.main| > MAX_UDP_PACKET_SIZE
    ensures ClientInv(s.(main := [], segments := s.segments + [Discarded(s.main)]))
  {
    SegmentsAppend(s.segments, Discarded(s.main));
  }

  lemma ClientInvKept(s: Udp, step: Step)
    requires ClientInv(s) && s.kind == Client && Enabled(s, step)
    ensures ClientInv(Next(s, step))
  {
    match step
    case WriteVirt(buf) => assert All(s.segments) + (s.main + buf) == (All(s.segments) + s.main) + buf;
    case FlushBegin => if FlushOutcome(s) == TooLarge { DiscardKept(s); }
    case SendComplete(_, n) => assert (s.sent + s.help[..n]) + s.help[n..] == s.sent + s.help;
    case IoTop => StartSendKept(s);
    case IoSubmit => StartSendKept(s);
    case _ =>
  }

  lemma ServerInvKept(s: Udp, step: Step)
    requires ServerInv(s) && s.kind == Server && Enabled(s, step)
    ensures ServerInv(Next(s, step))
  {
    match step
    case ReadEnd(len) =>
      var offset := if len < |s.main| then len else |s.main|;
      assert (s.returned + s.main[..offset]) + s.main[offset..] == s.returned + s.main;
    case ReceiveComplete(_, bytes) => assert (s.returned + s.main) + bytes == s.returned + (s.main + bytes);
    case _ =>
  }

  /** A blocked caller that has not been notified is not forgotten: the closing thread is
      about to notify it, or the transport is open and the i/o thread is at work.  A reader
      is not left alone with bytes to read either. */
  predicate WakeInv(s: Udp) {
    && (s.closing != NotClosing ==> !s.open)
    && (s.open ==> s.io != Stopped)
    && (s.open && s.stopped ==> s.io != Notifying)
    && (s.io == AwaitingSubmit ==> s.kind == Client)
    && (s.waiters > 0 && !s.notified ==> s.open || s.closing == Unlocked)
    && (s.kind == Server && s.waiters > 0 && !s.notified && s.open && s.main != [] ==> s.io == Notifying)
  }

  lemma WakeInvKept(s: Udp, step: Step)
    requires WakeInv(s) && WaiterInv(s) && Enabled(s, step)
    ensures WakeInv(Next(s, step))
  {
  }

  ghost predicate Inv(s: Udp) {
    && (s.kind == Client ==> ClientInv(s))
    && (s.kind == Server ==> ServerInv(s))
    && WaiterInv(s) && WakeInv(s)
  }

  lemma InvKept(s: Udp, step: Step)
    requires Inv(s) && Enabled(s, step)
    ensures Inv(Next(s, step)) && Next(s, step).kind == s.kind
  {
    WakeInvKept(s, step);
    if s.kind == Client { ClientInvKept(s, step); } else { ServerInvKept(s, step); }
  }

  lemma {:induction false} InvHolds(kind: Kind, steps: seq<Step>)
    ensures var r := Execute(New(kind), steps); r.Some? ==> Inv(r.value) && r.value.kind == kind
  {
    if |steps| > 0 {
      var last := |steps| - 1;
      InvHolds(kind, steps[..last]);
      var r := Execute(New(kind), steps[..last]);
      if r.Some? && Enabled(r.value, steps[last]) {
        InvKept(r.value, steps[last]);
      }
    }
  }

  lemma ExecuteMore(s: Udp, steps: seq<Step>, s': Udp, step: Step)
    requires Execute(s, steps) == Some(s') && Enabled(s', step)
    ensures Execute(s, steps + [step]) == Some(Next(s', step))
  {
    assert (steps + [step])[..|steps|] == steps;
  }

  ghost predicate Reachable(s: Udp) {
    exists steps :: Execute(New(s.kind), steps) == Some(s)
  }

  lemma StartReachable(kind: Kind)
    ensures Reachable(New(kind))
  {
    assert Execute(New(kind), []) == Some(New(kind));
  }

  lemma ReachableInv(s: Udp)
    requires Reachable(s)
    ensures Inv(s)
  {
    var steps :| Execute(New(s.kind), steps) == Some(s);
    InvHolds(s.kind, steps);
  }

  lemma ReachMore(s: Udp, step: Step)
    requires Reachable(s) && Enabled(s, step)
    ensures Reachable(Next(s, step))
  {
    var steps :| Execute(New(s.kind), steps) == Some(s);
    ExecuteMore(New(s.kind), steps, s, step);
    InvHolds(s.kind, steps);
    InvKept(s, step);
  }

  /** Client: in every run, through partial sends, send errors and spurious wakeups, the
      bytes accepted are the main buffers so far and the current one; the main buffers that
      were not discarded are, in order, what was sent and then the help buffer; and only
      buffers above the maximum packet size are discarded. */
  lemma ClientConservesBytes(steps: seq<Step>, s: Udp)
    requires Execute(New(Client), steps) == Some(s)
    ensures s.accepted == All(s.segments) + s.main
    ensures s.sent + s.help == Kept(s.segments)
    ensures forall i :: 0 <= i < |s.segments| && s.segments[i].Discarded? ==>
      |s.segments[i].bytes| > MAX_UDP_PACKET_SIZE
  {
    InvHolds(Client, steps);
  }

  lemma {:induction false} NothingDiscarded(segments: seq<Segment>)
    requires forall i :: 0 <= i < |segments| ==> segments[i].Forwarded?
    ensures Kept(segments) == All(segments)
  {
    if |segments| > 0 {
      NothingDiscarded(segments[..|segments| - 1]);
    }
  }

  /** So without an oversized buffer no byte is lost, repeated or moved. */
  lemma ClientStream(steps: seq<Step>, s: Udp)
    requires Execute(New(Client), steps) == Some(s)
    requires forall i :: 0 <= i < |s.segments| ==> s.segments[i].Forwarded?
    ensures s.accepted == s.sent + s.help + s.main
  {
    ClientConservesBytes(steps, s);
    NothingDiscarded(s.segments);
  }

  /** Server: the bytes received are the bytes returned and then the main buffer. */
  lemma ServerConservesBytes(steps: seq<Step>, s: Udp)
    requires Execute(New(Server), steps) == Some(s)
    ensures s.received == s.returned + s.main
  {
    InvHolds(Server, steps);
  }

  /** `in_progress_` marks the one operation that may be waiting. */
  lemma OneWaiter(kind: Kind, steps: seq<Step>, s: Udp)
    requires Execute(New(kind), steps) == Some(s)
    ensures s.waiters <= 1 && (s.inProgress <==> s.waiters == 1)
  {
    InvHolds(kind, steps);
  }

  /** The steps of the i/o thread, from where it is, up to its next notification. */
  function Nudge(s: Udp): seq<Step> {
    var complete := Completion(s.kind);
    match s.io
    case AtTop => [IoTop, complete, IoNotify]
    case AwaitingSubmit => [IoSubmit, complete, IoNotify]
    case InFlight => [complete, IoNotify]
    case Notifying => [IoNotify]
    case Stopped => []
  }

  function Completion(kind: Kind): Step {
    if kind == Client then SendComplete(false, 0) else ReceiveComplete(false, [0])
  }

  lemma CompletionNotifies(s: Udp, start: seq<Step>, started: Udp)
    requires Execute(s, start) == Some(started) && started.io == InFlight && !started.stopped && started.waiters > 0
    ensures var r := Execute(s, start + [Completion(started.kind), IoNotify]); r.Some? && r.value.notified
  {
    var complete := Completion(started.kind);
    ExecuteMore(s, start, started, complete);
    ExecuteMore(s, start + [complete], Next(started, complete), IoNotify);
    assert (start + [complete]) + [IoNotify] == start + [complete, IoNotify];
  }

  lemma NudgeNotifies(s: Udp)
    requires Inv(s) && s.waiters > 0 && s.open && !s.stopped
    ensures var r := Execute(s, Nudge(s)); r.Some? && r.value.notified
  {
    StartIo(s);
    match s.io
    case AtTop =>
      CompletionNotifies(s, [IoTop], Next(s, IoTop));
      assert [IoTop] + [Completion(s.kind), IoNotify] == Nudge(s);
    case AwaitingSubmit =>
      CompletionNotifies(s, [IoSubmit], Next(s, IoSubmit));
      assert [IoSubmit] + [Completion(s.kind), IoNotify] == Nudge(s);
    case InFlight =>
      CompletionNotifies(s, [], s);
      assert [] + [Completion(s.kind), IoNotify] == Nudge(s);
    case Notifying =>
      ExecuteMore(s, [], s, IoNotify);
      assert [] + [IoNotify] == Nudge(s);
    case Stopped =>
  }

  lemma StartIo(s: Udp)
    requires Inv(s) && s.waiters > 0 && s.open
    ensures s.io == AtTop ==> Execute(s, [IoTop]) == Some(Next(s, IoTop)) && Next(s, IoTop).io == InFlight
    ensures s.io == AwaitingSubmit ==>
      Execute(s, [IoSubmit]) == Some(Next(s, IoSubmit)) && Next(s, IoSubmit).io == InFlight
  {
    if s.io == AtTop {
      ExecuteMore(s, [], s, IoTop);
      assert [] + [IoTop] == [IoTop];
    } else if s.io == AwaitingSubmit {
      ExecuteMore(s, [], s, IoSubmit);
      assert [] + [IoSubmit] == [IoSubmit];
    }
  }

  /** No lost wakeup before a second `open`: in every run, a blocked `flush` or `read_virt` that
      has not been notified is about to be notified by `close`, or the i/o thread can run on,
      with the next completion of its operation, to a notification.  And in any case a blocked
      reader whose wait could end has a notification coming. */
  lemma BlockedIsNotForgotten(kind: Kind, steps: seq<Step>, s: Udp)
    requires Execute(New(kind), steps) == Some(s) && s.waiters > 0 && !s.notified
    ensures !(s.open && s.stopped) ==>
      Enabled(s, CloseNotify) || (var r := Execute(s, Nudge(s)); r.Some? && r.value.notified)
    ensures kind == Server && (!s.open || s.main != []) ==> Enabled(s, CloseNotify) || Enabled(s, IoNotify)
  {
    InvHolds(kind, steps);
    if s.open && !s.stopped {
      NudgeNotifies(s);
    }
  }

  /** A caller blocked on a transport that is open again: nothing will notify it before the
      next `close`. */
  predicate Forgotten(s: Udp) {
    && s.open && s.stopped && !s.notified && s.io != Notifying
    && (s.kind == Server ==> s.main == [])
  }

  /** After the first `close` nothing restarts the i/o context.  So once a transport is opened
      again, a blocked `flush`, or a `read_virt` with nothing left to read, is not notified
      whatever happens, until `close` is called. */
  lemma {:induction false} ReopenedIsForgotten(s: Udp, steps: seq<Step>)
    requires Inv(s) && s.waiters > 0 && !s.notified && s.open && s.stopped && (s.kind == Server ==> s.main == [])
    requires Close !in steps
    ensures var r := Execute(s, steps); r.Some? ==> Forgotten(r.value) && Inv(r.value)
  {
    if |steps| > 0 {
      var last := |steps| - 1;
      ReopenedIsForgotten(s, steps[..last]);
      var r := Execute(s, steps[..last]);
      if r.Some? && Enabled(r.value, steps[last]) {
        assert steps[last] in steps;
        InvKept(r.value, steps[last]);
        StillForgotten(r.value, steps[last]);
      }
    }
  }

  lemma StillForgotten(s: Udp, step: Step)
    requires Inv(s) && Forgotten(s) && Enabled(s, step) && step != Close
    ensures Forgotten(Next(s, step))
  {
  }

  /** That happens: opened, closed, opened again, and then a `flush` of one byte. */
  lemma ReopenedFlushHangs() returns (s: Udp)
    ensures Reachable(s) && s.kind == Client && s.waiters > 0 && Forgotten(s)
  {
    StartReachable(Client);
    s := New(Client);
    ReachMore(s, Open);
    s := Next(s, Open);
    ReachMore(s, Close);
    s := Next(s, Close);
    ReachMore(s, CloseNotify);
    s := Next(s, CloseNotify);
    ReachMore(s, StopIo);
    s := Next(s, StopIo);
    s := ReopenAndFlush(s);
  }

  lemma ReopenAndFlush(s: Udp) returns (s': Udp)
    requires Reachable(s) && s.kind == Client && !s.open && s.closing == Joining && s.stopped && s.io == AtTop
    requires s.main == [] && s.waiters == 0 && !s.inProgress && !s.notified
    ensures Reachable(s') && s'.kind == Client && s'.waiters > 0 && Forgotten(s')
  {
    ReachMore(s, IoTop);
    s' := Next(s, IoTop);
    ReachMore(s', Join);
    s' := Next(s', Join);
    ReachMore(s', Open);
    s' := Next(s', Open);
    ReachMore(s', WriteVirt([0]));
    s' := Next(s', WriteVirt([0]));
    ReachMore(s', FlushBegin);
    s' := Next(s', FlushBegin);
  }
}
