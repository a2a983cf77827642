/** The streams of a UDP transport in terms of its calls and completions alone: what callers
    wrote, what the socket said it took or gave, and what callers asked to read. */
module UdpRuns {
  import opened Wrappers
  import opened ByteStrings
  import opened UdpState

  /** Open after these steps: the last `open` or `close` was an `open`. */
  function OpenAfter(steps: seq<Step>): bool {
    if |steps| == 0 then false
    else
      match steps[|steps| - 1]
      case Open => true
      case Close => false
      case _ => OpenAfter(steps[..|steps| - 1])
  }

  /** The bytes of all `write_virt` calls on an open transport. */
  function Written(steps: seq<Step>): Bytes {
    if |steps| == 0 then []
    else
      var last := |steps| - 1;
      Written(steps[..last]) + match steps[last] case WriteVirt(buf) => if OpenAfter(steps[..last]) then buf else []
                                                 case _ => []
  }

  /** The byte counts of all sends that completed without an error, added up. */
  function Taken(steps: seq<Step>): nat {
    if |steps| == 0 then 0
    else
      var last := |steps| - 1;
      Taken(steps[..last]) + match steps[last] case SendComplete(error, n) => if error then 0 else n
                                               case _ => 0
  }

  /** The bytes of all receives that completed without an error. */
  function Given(steps: seq<Step>): Bytes {
    if |steps| == 0 then []
    else
      var last := |steps| - 1;
      Given(steps[..last]) + match steps[last] case ReceiveComplete(error, bytes) => if error then [] else bytes
                                               case _ => []
  }

  /** How many bytes the reads copied out: each as many as it asked for, or all that is left. */
  function Copied(steps: seq<Step>): nat {
    if |steps| == 0 then 0
    else
      var last := |steps| - 1;
      var before := Copied(steps[..last]);
      match steps[last]
      case ReadEnd(len) =>
        var left := |Given(steps[..last])| - before;
        if OpenAfter(steps[..last]) && left >= 0 then before + Min(len, left) else before
      case _ => before
  }

  function Min(a: nat, b: nat): nat {
    if a < b then a else b
  }

  lemma {:induction false} OpenIsLast(kind: Kind, steps: seq<Step>)
    ensures var r := Execute(New(kind), steps); r.Some? ==> r.value.open == OpenAfter(steps)
  {
    if |steps| > 0 {
      var last := |steps| - 1;
      OpenIsLast(kind, steps[..last]);
      var r := Execute(New(kind), steps[..last]);
      if r.Some? && Enabled(r.value, steps[last]) {
        OpenStep(r.value, steps[last]);
      }
    }
  }

  lemma OpenStep(s: Udp, step: Step)
    requires Enabled(s, step)
    ensures Next(s, step).open == (step.Open? || (!step.Close? && s.open))
  {
  }

  lemma {:induction false} ClientLedger(steps: seq<Step>)
    ensures var r := Execute(New(Client), steps);
      r.Some? ==> r.value.kind == Client && r.value.accepted == Written(steps) && |r.value.sent| == Taken(steps)
  {
    if |steps| > 0 {
      var last := |steps| - 1;
      ClientLedger(steps[..last]);
      OpenIsLast(Client, steps[..last]);
      var r := Execute(New(Client), steps[..last]);
      if r.Some? && Enabled(r.value, steps[last]) {
        ClientLedgerStep(r.value, steps[last]);
      }
    }
  }

  lemma ClientLedgerStep(s: Udp, step: Step)
    requires s.kind == Client && Enabled(s, step)
    ensures var s' := Next(s, step);
      && s'.kind == Client
      && s'.accepted == s.accepted + (if step.WriteVirt? && s.open then step.buf else [])
      && |s'.sent| == |s.sent| + (if step.SendComplete? && !step.error then step.n else 0)
  {
  }

  lemma {:induction false} ServerLedger(steps: seq<Step>)
    ensures var r := Execute(New(Server), steps);
      r.Some? ==> r.value.kind == Server && r.value.received == Given(steps) && |r.value.returned| == Copied(steps)
  {
    if |steps| > 0 {
      var last := |steps| - 1;
      ServerLedger(steps[..last]);
      OpenIsLast(Server, steps[..last]);
      var r := Execute(New(Server), steps[..last]);
      if r.Some? && Enabled(r.value, steps[last]) {
        InvHolds(Server, steps[..last]);
        ServerLedgerStep(r.value, steps[last]);
      }
    }
  }

  lemma ServerLedgerStep(s: Udp, step: Step)
    requires s.kind == Server && Enabled(s, step)
    ensures var s' := Next(s, step);
      && s'.kind == Server
      && s'.received == s.received + (if step.ReceiveComplete? && !step.error then step.bytes else [])
      && |s'.returned| == |s.returned| + (if step.ReadEnd? && s.open then Min(step.len, |s.main|) else 0)
  {
  }

  /** Client, in every run: the bytes accepted are those written while the transport was open,
      and as many were sent as the socket said it took.  So when nothing was discarded, what was
      sent is exactly the first so many of the bytes written. */
  lemma SentIsWritten(steps: seq<Step>, s: Udp)
    requires Execute(New(Client), steps) == Some(s)
    ensures s.accepted == Written(steps) && |s.sent| == Taken(steps)
    ensures |All(s.segments)| <= |Written(steps)| && Taken(steps) <= |Kept(s.segments)|
    ensures s.sent == Kept(s.segments)[..Taken(steps)]
    ensures (forall i :: 0 <= i < |s.segments| ==> s.segments[i].Forwarded?) ==>
      Taken(steps) <= |Written(steps)| && s.sent == Written(steps)[..Taken(steps)]
  {
    ClientLedger(steps);
    ClientConservesBytes(steps, s);
    assert s.sent == (s.sent + s.help)[..|s.sent|];
    if forall i :: 0 <= i < |s.segments| ==> s.segments[i].Forwarded? {
      ClientStream(steps, s);
      assert s.sent == (s.sent + s.help + s.main)[..|s.sent|];
    }
  }

  /** Server, in every run: the bytes received are those of the receives that completed, and
      what callers were given is exactly as many of the first of them as their reads copied. */
  lemma ReturnedIsGiven(steps: seq<Step>, s: Udp)
    requires Execute(New(Server), steps) == Some(s)
    ensures s.received == Given(steps) && |s.returned| == Copied(steps) <= |Given(steps)|
    ensures s.returned == Given(steps)[..Copied(steps)]
  {
    ServerLedger(steps);
    ServerConservesBytes(steps, s);
  }
}
