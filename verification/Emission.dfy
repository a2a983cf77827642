/** The M3 client over the UDP transport: what becomes of the message of an emitted batch. */
module Emission {
  import opened Wrappers
  import opened ByteStrings
  import opened CompactStreams
  import opened M3Types
  import opened M3Client
  import opened M3Codec
  import U = UdpState
  import UdpTransport

  /** What a message meets at the transport: one write, and `flush` up to its wait. */
  method Send(transport: UdpTransport.Impl, message: Bytes) returns (outcome: U.Outcome)
    requires transport.Valid() && transport.kind == U.Client && message != []
    modifies transport`mainBuffer, transport`inProgress, transport`state
    ensures transport.Valid()
    ensures !transport.isOpen ==> outcome == U.NotOpen && transport.state == old(transport.state)
    ensures transport.isOpen ==> Sent(old(transport.state), transport.state, message, outcome)
  {
    outcome := transport.WriteVirt(message);
    if outcome == U.NotOpen {
      return;
    }
    outcome := transport.FlushBegin();
  }

  /** The transport accepts the whole message behind what it still holds.  It then drops all of
      that as oversized, exactly when no other flush is under way and it is more than 65000
      bytes, and otherwise keeps it for the next send. */
  predicate Sent(before: U.Udp, after: U.Udp, message: Bytes, outcome: U.Outcome) {
    var waiting := before.main + message;
    && after.accepted == before.accepted + message
    && (outcome == U.Concurrent <==> before.inProgress)
    && (outcome == U.TooLarge <==> !before.inProgress && |waiting| > 65000)
    && (outcome == U.Blocked <==> !before.inProgress && |waiting| <= 65000)
    && after.main == (if outcome == U.TooLarge then [] else waiting)
    && after.segments == before.segments + (if outcome == U.TooLarge then [U.Discarded(waiting)] else [])
  }

  /** `emitMetricBatch` up to the wait of the transport's `flush`. */
  method EmitMetricBatch(transport: UdpTransport.Impl, b: MetricBatch) returns (outcome: U.Outcome)
    requires transport.Valid() && transport.kind == U.Client
    modifies transport`mainBuffer, transport`inProgress, transport`state
    ensures transport.Valid()
    ensures !transport.isOpen ==> outcome == U.NotOpen && transport.state == old(transport.state)
    ensures transport.isOpen ==> Sent(old(transport.state), transport.state, MessageBytes(b), outcome)
    ensures transport.isOpen ==>
      transport.mainBuffer == if outcome == U.TooLarge then [] else old(transport.mainBuffer) + MessageBytes(b)
  {
    var oprot := new CompactWriter();
    SendEmitMetricBatch(oprot, b);
    assert oprot.out == MessageBytes(b);
    MessageIsNotEmpty(b);
    outcome := Send(transport, oprot.out);
  }

  lemma MessageIsNotEmpty(b: MetricBatch)
    ensures MessageBytes(b) != []
  {
    assert |ArgsBytes(b)| >= 1;
  }

  /** How the protocol cuts a message into writes does not matter to the transport. */
  lemma WritesJoin(s: U.Udp, a: Bytes, b: Bytes)
    requires s.open && s.kind == U.Client
    ensures U.Next(U.Next(s, U.WriteVirt(a)), U.WriteVirt(b)) == U.Next(s, U.WriteVirt(a + b))
  {
    assert (s.main + a) + b == s.main + (a + b);
    assert (s.accepted + a) + b == s.accepted + (a + b);
  }

  /** From end to end: when the messages of some batches are what the transport accepted, none
      was dropped, and nothing is left to send, then what the socket took reads as those
      batches, in order. */
  lemma SentStreamReadsBack(steps: seq<U.Step>, s: U.Udp, batches: seq<MetricBatch>)
    requires U.Execute(U.New(U.Client), steps) == Some(s)
    requires (forall i :: 0 <= i < |batches| ==> BatchFits(batches[i])) && s.accepted == Stream(batches)
    requires (forall i :: 0 <= i < |s.segments| ==> s.segments[i].Forwarded?) && s.help == [] && s.main == []
    ensures ReadStream(s.sent) == Some(Calls(batches))
  {
    U.ClientStream(steps, s);
    assert s.sent + s.help + s.main == s.sent;
    StreamRoundTrip(batches);
  }
}
