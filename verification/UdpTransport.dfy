/** The UDP transport with its fields updated in place: each method is one section under
    the mutex and takes the step of `UdpState` that it is named after.  So every object is
    in a state of some run, and keeps its byte streams. */
module UdpTransport {
  import opened ByteStrings
  import opened UdpState

  class Impl {
    const kind: Kind
    var isOpen: bool
    var inProgress: bool
    var mainBuffer: Bytes
    var helpBuffer: Bytes
    ghost var state: Udp     // with the other threads' places and the histories

    ghost predicate Valid()
      reads this
    {
      && Reachable(state)
      && state.kind == kind && state.open == isOpen && state.inProgress == inProgress
      && state.main == mainBuffer && state.help == helpBuffer
    }

    /** The streams of a valid object: no byte is lost, repeated or moved, but for main buffers
        dropped as oversized; and one caller at most is waiting. */
    lemma Conserved()
      requires Valid()
      ensures kind == Client ==>
        state.accepted == All(state.segments) + mainBuffer && state.sent + helpBuffer == Kept(state.segments)
      ensures kind == Client && (forall s :: s in state.segments ==> s.Forwarded?) ==>
        state.accepted == state.sent + helpBuffer + mainBuffer
      ensures kind == Server ==> state.received == state.returned + mainBuffer
      ensures state.waiters == if inProgress then 1 else 0
    {
      ReachableInv(state);
      if forall s :: s in state.segments ==> s.Forwarded? {
        NothingDiscarded(state.segments);
      }
    }

    constructor (kind: Kind)
      ensures Valid() && state == New(kind)
    {
      StartReachable(kind);
      this.kind := kind;
      isOpen, inProgress, mainBuffer, helpBuffer := false, false, [], [];
      state := New(kind);
    }

    /** `open`, after the socket is set up: the i/o thread starts. */
    method Open()
      requires Valid() && Enabled(state, Step.Open)
      modifies this`isOpen, this`state
      ensures Valid() && isOpen && state.io == if old(isOpen) then old(state.io) else AtTop
      ensures state == Next(old(state), Step.Open)
    {
      ReachMore(state, Step.Open);
      state := Next(state, Step.Open);
      if isOpen { return; }
      isOpen := true;
    }

    /** The critical section of `close_and_join`. */
    method Close()
      requires Valid()
      modifies this`isOpen, this`state
      ensures Valid() && !isOpen && state.closing == if old(isOpen) then Unlocked else old(state.closing)
      ensures state == Next(old(state), Step.Close)
    {
      ReachMore(state, Step.Close);
      state := Next(state, Step.Close);
      if !isOpen { return; }
      isOpen := false;
    }

    method WriteVirt(buf: Bytes) returns (outcome: Outcome)
      requires Valid()
      modifies this`mainBuffer, this`state
      ensures outcome == if !isOpen then NotOpen else if kind == Server then WrongKind else Done
      ensures mainBuffer == old(mainBuffer) + (if outcome == Done then buf else [])
      ensures state.accepted == old(state.accepted) + (if outcome == Done then buf else [])
      ensures Valid() && state == Next(old(state), Step.WriteVirt(buf))
    {
      ReachMore(state, Step.WriteVirt(buf));
      state := Next(state, Step.WriteVirt(buf));
      if !isOpen { return NotOpen; }
      if kind != Client { return WrongKind; }
      mainBuffer := mainBuffer + buf;
      return Done;
    }

    /** `flush` up to its wait. */
    method FlushBegin() returns (outcome: Outcome)
      requires Valid()
      modifies this`mainBuffer, this`inProgress, this`state
      ensures !isOpen ==> outcome == NotOpen
      ensures isOpen && kind == Server ==> outcome == WrongKind
      ensures isOpen && kind == Client && old(inProgress) ==> outcome == Concurrent
      ensures isOpen && kind == Client && !old(inProgress) ==>
        outcome == if |old(mainBuffer)| == 0 then Done else if |old(mainBuffer)| > 65000 then TooLarge else Blocked
      ensures inProgress == (old(inProgress) || outcome == Blocked)
      ensures mainBuffer == if outcome == TooLarge then [] else old(mainBuffer)
      ensures Valid() && state == Next(old(state), Step.FlushBegin)
    {
      ReachMore(state, Step.FlushBegin);
      state := Next(state, Step.FlushBegin);
      if !isOpen { return NotOpen; }
      if kind != Client { return WrongKind; }
      if inProgress { return Concurrent; }
      var size := |mainBuffer|;
      if size == 0 { return Done; }
      if size > MAX_UDP_PACKET_SIZE {
        mainBuffer := [];
        return TooLarge;
      }
      inProgress := true;
      return Blocked;
    }

    /** `flush` after its wait, which has no predicate. */
    method FlushEnd() returns (outcome: Outcome)
      requires Valid() && Enabled(state, Step.FlushEnd)
      modifies this`inProgress, this`state
      ensures !inProgress && outcome == if isOpen then Done else NotOpen
      ensures Valid() && state == Next(old(state), Step.FlushEnd)
    {
      ReachMore(state, Step.FlushEnd);
      state := Next(state, Step.FlushEnd);
      inProgress := false;
      if !isOpen { return NotOpen; }
      return Done;
    }

    /** `read_virt` up to its wait. */
    method ReadBegin() returns (outcome: Outcome)
      requires Valid()
      modifies this`inProgress, this`state
      ensures !isOpen ==> outcome == NotOpen
      ensures isOpen && kind == Client ==> outcome == WrongKind
      ensures isOpen && kind == Server ==> outcome == if old(inProgress) then Concurrent else Blocked
      ensures inProgress == (old(inProgress) || outcome == Blocked)
      ensures Valid() && state == Next(old(state), Step.ReadBegin)
    {
      ReachMore(state, Step.ReadBegin);
      state := Next(state, Step.ReadBegin);
      if !isOpen { return NotOpen; }
      if kind != Server { return WrongKind; }
      if inProgress { return Concurrent; }
      inProgress := true;
      return Blocked;
    }

    /** `read_virt` once its wait is over: it copies out a prefix of the main buffer, as much
        of it as fits, which continues what the calls before returned. */
    method ReadEnd(len: nat) returns (outcome: Outcome, buf: Bytes)
      requires Valid() && Enabled(state, Step.ReadEnd(len))
      modifies this`inProgress, this`mainBuffer, this`state
      ensures !inProgress && outcome == if isOpen then Done else NotOpen
      ensures |buf| == if !isOpen then 0 else if len <= |old(mainBuffer)| then len else |old(mainBuffer)|
      ensures Valid() && state == Next(old(state), Step.ReadEnd(len))
      ensures state.returned == old(state).returned + buf && buf + mainBuffer == old(mainBuffer)
    {
      ReachMore(state, Step.ReadEnd(len));
      state := Next(state, Step.ReadEnd(len));
      buf := [];
      if !isOpen {
        inProgress := false;
        return NotOpen, buf;
      }
      buf := CopyOut(len);
      inProgress := false;
      return Done, buf;
    }

    method CopyOut(len: nat) returns (buf: Bytes)
      modifies this`mainBuffer
      ensures var offset := if len < |old(mainBuffer)| then len else |old(mainBuffer)|;
        buf == old(mainBuffer)[..offset] && mainBuffer == old(mainBuffer)[offset..]
    {
      var offset := if len < |mainBuffer| then len else |mainBuffer|;
      buf := mainBuffer[..offset];
      if offset == |mainBuffer| {
        mainBuffer := [];
      } else {
        mainBuffer := mainBuffer[offset..];
      }
    }

    /** `write_async` from the end of its wait, or from its start when no wait is needed. */
    method StartSend()
      requires Valid() && kind == Client && isOpen && inProgress && (state.io == AtTop || state.io == AwaitingSubmit)
      modifies this`mainBuffer, this`helpBuffer, this`state
      ensures helpBuffer == old(helpBuffer) + old(mainBuffer) && mainBuffer == [] && state.io == InFlight
      ensures Valid() && state == Next(old(state), if old(state).io == AtTop then IoTop else IoSubmit)
    {
      ghost var step := if state.io == AtTop then IoTop else IoSubmit;
      ReachMore(state, step);
      state := Next(state, step);
      helpBuffer := helpBuffer + mainBuffer;
      mainBuffer := [];
    }

    /** The completion handler of a send, up to its notification. */
    method SendComplete(error: bool, bytesSent: nat)
      requires Valid() && Enabled(state, Step.SendComplete(error, bytesSent))
      modifies this`helpBuffer, this`state
      ensures !error ==>
        helpBuffer == old(helpBuffer)[bytesSent..] && state.sent == old(state.sent) + old(helpBuffer)[..bytesSent]
      ensures error ==> helpBuffer == old(helpBuffer) && state.sent == old(state.sent)
      ensures state.io == Notifying
      ensures Valid() && state == Next(old(state), Step.SendComplete(error, bytesSent))
    {
      ReachMore(state, Step.SendComplete(error, bytesSent));
      state := Next(state, Step.SendComplete(error, bytesSent));
      if !error && bytesSent > 0 {
        if bytesSent == |helpBuffer| {
          helpBuffer := [];
        } else {
          helpBuffer := helpBuffer[bytesSent..];
        }
      }
    }

    /** `read_async` up to its receive. */
    method StartReceive()
      requires Valid() && kind == Server && state.io == AtTop
      modifies this`helpBuffer, this`state
      ensures |helpBuffer| == 1440 && state.io == InFlight
      ensures Valid() && state == Next(old(state), IoTop)
    {
      ReachMore(state, IoTop);
      state := Next(state, IoTop);
      helpBuffer := [];
      helpBuffer := seq(RECEIVE_SIZE, _ => 0);
    }

    /** The completion handler of a receive, which finds its bytes in the help buffer, up to
        its notification. */
    method ReceiveComplete(error: bool, bytes: Bytes)
      requires Valid() && Enabled(state, Step.ReceiveComplete(error, bytes))
      modifies this`mainBuffer, this`state
      ensures mainBuffer == old(mainBuffer) + (if error then [] else bytes)
      ensures state.io == if error || bytes == [] then AtTop else Notifying
      ensures Valid() && state == Next(old(state), Step.ReceiveComplete(error, bytes))
    {
      ReachMore(state, Step.ReceiveComplete(error, bytes));
      state := Next(state, Step.ReceiveComplete(error, bytes));
      if !error && |bytes| > 0 {
        mainBuffer := mainBuffer + bytes;
      }
    }
  }
}
