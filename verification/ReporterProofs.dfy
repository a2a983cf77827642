/** What holds in every interleaving of the M3 reporter's threads. */
module ReporterProofs {
  import opened Wrappers
  import opened ByteStrings
  import opened CompactProtocol
  import opened M3Types
  import opened M3Client
  import opened ReporterState
  import opened ReporterMachine

  // ------------------------------------------------------------------- invariants

  /** The accepted metrics the background thread still has to hand over, in order.  While
      draining, the metric in process is still the front of the queue; once it has been
      appended it is there but no longer pending. */
  function Pending(s: State): seq<Metric> {
    if s.pc.Popping? && s.store.queue != [] then s.store.queue[1..]
    else if InProcess(s.pc) && !s.pc.draining then [s.pc.m] + s.store.queue
    else s.store.queue
  }

  /** Exactly once, first in first out. */
  ghost predicate Fifo(s: State) {
    s.store.accepted == Handed(s.store) + Pending(s)
  }

  /** Where the threads can be relative to each other. */
  ghost predicate Control(c: Config, s: State) {
    && |s.store.queue| <= c.maxQueueSize
    && (s.store.run <==> s.dtor.NotCalled?)
    && (s.pc.Dequeuing? || s.pc.AboutToWait? || (InProcess(s.pc) && !s.pc.draining) ==> s.store.run)
    && (s.pc.Draining? || s.pc.Popping? || s.pc.FinalFlush? || s.pc.Finished? || (InProcess(s.pc) && s.pc.draining)
        ==> !s.store.run)
    && (InProcess(s.pc) && s.pc.draining ==> s.store.queue != [] && s.store.queue[0] == s.pc.m)
    && (s.pc.Popping? ==> s.store.queue != [])
    && (s.pc.AboutToWait? || s.pc.FinalFlush? || s.pc.Finished? ==> s.store.queue == [])
    && (s.pc.Finished? ==> s.store.batch == [])
    && (s.dtor.Joined? ==> s.pc.Finished?)
  }

  /** No wakeup is lost: an unnotified wait has nothing to wait for but new work, or the
      destructor is between its unlock and its notify. */
  ghost predicate Wakeup(s: State) {
    s.pc == Waiting(false) ==> s.store.queue == [] && (s.store.run || s.dtor.Cleared?)
  }

  ghost predicate AllEncodable(s: State) {
    && (forall m :: m in s.store.queue ==> Encodable(m))
    && (InProcess(s.pc) ==> Encodable(s.pc.m))
  }

  /** The bytes a batch is charged: its metrics, and the batch overhead once the estimator
      has been reset. */
  function Charge(c: Config, metrics: seq<Metric>, epoch: nat): nat {
    (if epoch > 0 then c.Overhead() else 0) + |MetricsBytes(metrics)|
  }

  ghost predicate Fits(c: Config, metrics: seq<Metric>, epoch: nat) {
    |metrics| <= 1 || Charge(c, metrics, epoch) <= c.Limit()
  }

  /** The estimator counts exactly what it was shown; that covers the current batch and the
      metric in process; and a batch of two or more metrics stays within the limit. */
  ghost predicate Estimator(c: Config, s: State) {
    var store := s.store;
    var inProcess := if s.pc.Overflowing? || s.pc.Appending? then |MetricBytes(s.pc.m)| else 0;
    && store.written == |store.since|
    && store.written <= (if s.pc.Overflowing? || s.pc.Resetting? then 3 else 2) * QUARTER
    && Charge(c, store.batch, store.resets) + inProcess <= store.written
    && Fits(c, store.batch, store.resets)
    && (s.pc.Resetting? ==> store.batch == [])
    && (s.pc.Appending? ==> store.batch == [] || store.written <= c.Limit())
  }

  ghost predicate EmittedFit(c: Config, s: State) {
    forall i :: 0 <= i < |s.store.emitted| ==>
      var e := s.store.emitted[i];
      e.metrics != [] && Fits(c, e.metrics, e.epoch)
  }

  ghost predicate Inv(c: Config, s: State) {
    Fifo(s) && Control(c, s) && Wakeup(s) && AllEncodable(s) && Estimator(c, s) && EmittedFit(c, s)
  }

  // ------------------------------------------------------ every step keeps them

  lemma FifoOnAppend(s: State, s': State)
    requires Fifo(s) && s.pc.Appending? && Pending(s) == [s.pc.m] + Pending(s')
    requires s'.store == AppendMetric(s.store, s.pc.m)
    ensures Fifo(s')
  {
    assert Handed(s'.store) == Handed(s.store) + [s.pc.m];
    assert (Handed(s.store) + [s.pc.m]) + Pending(s') == Handed(s.store) + ([s.pc.m] + Pending(s'));
  }

  lemma FifoOnEnqueue(c: Config, s: State, m: Metric)
    requires Fifo(s) && Control(c, s) && !HoldsRunMutex(s.pc)
    ensures Fifo(Next(c, s, Enqueue(m)))
  {
    assert Handed(s.store) + (s.store.queue + [m]) == (Handed(s.store) + s.store.queue) + [m];
  }

  lemma FifoOnFlush(s: State, s': State, delivered: bool)
    requires Fifo(s) && s'.store == FlushBatch(s.store, delivered) && Pending(s') == Pending(s)
    ensures Fifo(s')
  {
    FlushKeepsHanded(s.store, delivered);
  }

  lemma FifoOnTake(c: Config, s: State, delivered: bool)
    requires Fifo(s) && (s.pc.Dequeuing? || s.pc.Draining?)
    ensures Fifo(RunNext(c, s, delivered))
  {
    if s.store.queue != [] {
      assert [s.store.queue[0]] + s.store.queue[1..] == s.store.queue;
    }
  }

  lemma FifoOnRunStep(c: Config, s: State, delivered: bool)
    requires Fifo(s) && Control(c, s)
    ensures Fifo(RunNext(c, s, delivered))
  {
    var s' := RunNext(c, s, delivered);
    match s.pc
    case Dequeuing => FifoOnTake(c, s, delivered);
    case Draining => FifoOnTake(c, s, delivered);
    case Appending(m, draining) =>
      AppendedLeaves(c, s, delivered);
      FifoOnAppend(s, s');
    case Overflowing(_, _) => FifoOnFlush(s, s', delivered);
    case FinalFlush => FifoOnFlush(s, s', delivered);
    case _ => FifoElsewhere(s, s');
  }

  lemma AppendedLeaves(c: Config, s: State, delivered: bool)
    requires Control(c, s) && s.pc.Appending?
    ensures Pending(s) == [s.pc.m] + Pending(RunNext(c, s, delivered))
  {
    if s.pc.draining {
      assert s.store.queue == [s.pc.m] + s.store.queue[1..];
    }
  }

  lemma FifoKept(c: Config, s: State, step: Step)
    requires Fifo(s) && Control(c, s) && Enabled(s, step)
    ensures Fifo(Next(c, s, step))
  {
    match step
    case Enqueue(m) => FifoOnEnqueue(c, s, m);
    case RunStep(delivered) => FifoOnRunStep(c, s, delivered);
    case Flush(delivered) => FifoOnFlush(s, Next(c, s, step), delivered);
    case _ => FifoElsewhere(s, Next(c, s, step));
  }

  lemma FifoElsewhere(s: State, s': State)
    requires Fifo(s) && Pending(s') == Pending(s) && s'.store.accepted == s.store.accepted
    requires s'.store.emitted == s.store.emitted && s'.store.batch == s.store.batch
    ensures Fifo(s')
  {
  }

  lemma ControlKept(c: Config, s: State, step: Step)
    requires Control(c, s) && Enabled(s, step)
    ensures Control(c, Next(c, s, step))
  {
  }

  lemma WakeupKept(c: Config, s: State, step: Step)
    requires Control(c, s) && Wakeup(s) && Enabled(s, step)
    ensures Wakeup(Next(c, s, step))
  {
  }

  lemma AllEncodableKept(c: Config, s: State, step: Step)
    requires AllEncodable(s) && Control(c, s) && Enabled(s, step)
    ensures AllEncodable(Next(c, s, step))
  {
    var s' := Next(c, s, step);
    forall m | m in s'.store.queue ensures Encodable(m) {
      assert m in s.store.queue || (step.Enqueue? && m == step.m);
    }
  }

  lemma EstimatorOnFlush(c: Config, s: State, s': State, delivered: bool)
    requires Estimator(c, s) && s'.store == FlushBatch(s.store, delivered)
    requires s'.pc == s.pc || (s.pc.Overflowing? && s'.pc.Resetting?) || (s.pc.FinalFlush? && s'.pc.Finished?)
    ensures Estimator(c, s')
  {
    assert MetricsBytes([]) == [];
  }

  lemma EstimatorOnRunStep(c: Config, s: State, delivered: bool)
    requires ConfigOk(c) && Estimator(c, s) && AllEncodable(s)
    ensures Estimator(c, RunNext(c, s, delivered))
  {
    var s' := RunNext(c, s, delivered);
    match s.pc
    case Overflowing(_, _) => EstimatorOnFlush(c, s, s', delivered);
    case FinalFlush => EstimatorOnFlush(c, s, s', delivered);
    case Estimating(_, _) => EstimatorOnEstimate(c, s, delivered);
    case Resetting(_, _) => EstimatorOnReset(c, s, delivered);
    case Appending(_, _) => EstimatorOnAppend(c, s, delivered);
    case _ =>
  }

  lemma EstimatorOnEstimate(c: Config, s: State, delivered: bool)
    requires ConfigOk(c) && Estimator(c, s) && AllEncodable(s) && s.pc.Estimating?
    ensures Estimator(c, RunNext(c, s, delivered))
  {
  }

  lemma EstimatorOnReset(c: Config, s: State, delivered: bool)
    requires ConfigOk(c) && Estimator(c, s) && AllEncodable(s) && s.pc.Resetting?
    ensures Estimator(c, RunNext(c, s, delivered))
  {
    assert MetricsBytes([]) == [];
    assert |RunNext(c, s, delivered).store.since| == c.Overhead() + |MetricBytes(s.pc.m)|;
  }

  lemma EstimatorOnAppend(c: Config, s: State, delivered: bool)
    requires Estimator(c, s) && s.pc.Appending?
    ensures Estimator(c, RunNext(c, s, delivered))
  {
    MetricsBytesAppend(s.store.batch, s.pc.m);
  }

  lemma EstimatorKept(c: Config, s: State, step: Step)
    requires ConfigOk(c) && Estimator(c, s) && AllEncodable(s) && Enabled(s, step)
    ensures Estimator(c, Next(c, s, step))
  {
    match step
    case RunStep(delivered) => EstimatorOnRunStep(c, s, delivered);
    case Flush(delivered) => EstimatorOnFlush(c, s, Next(c, s, step), delivered);
    case _ =>
  }

  lemma OneMoreEmission(c: Config, s: State, step: Step)
    ensures var before, after := s.store.emitted, Next(c, s, step).store.emitted;
      after == before || (s.store.batch != [] && exists delivered ::
        after == before + [Emission(s.store.batch, s.store.resets, delivered)])
  {
  }

  lemma EmittedFitKept(c: Config, s: State, step: Step)
    requires EmittedFit(c, s) && Estimator(c, s) && Enabled(s, step)
    ensures EmittedFit(c, Next(c, s, step))
  {
    var s' := Next(c, s, step);
    OneMoreEmission(c, s, step);
    forall i | 0 <= i < |s'.store.emitted|
      ensures s'.store.emitted[i].metrics != [] && Fits(c, s'.store.emitted[i].metrics, s'.store.emitted[i].epoch)
    {
      if i < |s.store.emitted| {
        assert s'.store.emitted[i] == s.store.emitted[i];
      }
    }
  }

  lemma InvKept(c: Config, s: State, step: Step)
    requires ConfigOk(c) && Inv(c, s) && Enabled(s, step)
    ensures Inv(c, Next(c, s, step))
  {
    FifoKept(c, s, step);
    ControlKept(c, s, step);
    WakeupKept(c, s, step);
    AllEncodableKept(c, s, step);
    EstimatorKept(c, s, step);
    EmittedFitKept(c, s, step);
  }

  lemma {:induction false} InvHolds(c: Config, s: State, steps: seq<Step>)
    requires ConfigOk(c) && Inv(c, s)
    ensures var r := Execute(c, s, steps); r.Some? ==> Inv(c, r.value)
  {
    if |steps| > 0 {
      var last := |steps| - 1;
      InvHolds(c, s, steps[..last]);
      var r := Execute(c, s, steps[..last]);
      if r.Some? && Enabled(r.value, steps[last]) {
        InvKept(c, r.value, steps[last]);
      }
    }
  }

  ghost predicate Reachable(c: Config, s: State) {
    exists steps :: Execute(c, START, steps) == Some(s)
  }

  lemma ReachableInv(c: Config, s: State)
    requires ConfigOk(c) && Reachable(c, s)
    ensures Inv(c, s)
  {
    var steps :| Execute(c, START, steps) == Some(s);
    InvHolds(c, START, steps);
  }

  // ------------------------------------------------------------------ main results

  /** No loss, no duplication, no reordering, and a bounded queue, in every interleaving:
      what was accepted is what was handed to the client, then the current batch, then the
      metric in process, then the queue. */
  lemma AcceptedInOrder(c: Config, s: State)
    requires ConfigOk(c) && Reachable(c, s)
    ensures s.store.accepted == Flat(s.store.emitted) + s.store.batch + Pending(s)
    ensures |s.store.queue| <= c.maxQueueSize
  {
    ReachableInv(c, s);
  }

  /** When the background thread waits unnotified there is nothing it should be doing; and
      as long as it has not returned, pending work means that it, or the destructor that is
      about to notify it, can step. */
  lemma NoLostWakeupNoDeadlock(c: Config, s: State)
    requires ConfigOk(c) && Reachable(c, s)
    ensures s.pc == Waiting(false) ==> s.store.queue == [] && (s.store.run || s.dtor.Cleared?)
    ensures s.pc != Finished && (Pending(s) != [] || !s.store.run) ==>
      Enabled(s, RunStep(true)) || (s.dtor.Cleared? && Enabled(s, DtorStep))
    ensures s.pc == Finished && !s.dtor.Joined? ==> Enabled(s, DtorStep)
  {
    ReachableInv(c, s);
  }

  /** The estimator is sound however flushes interleave with `Process`: it equals the bytes
      written to it since its last reset, covers the metrics of the current batch, and the
      batch has at most one metric or its metrics total at most `max_packet_size_`. */
  lemma EstimatorSound(c: Config, s: State)
    requires ConfigOk(c) && Reachable(c, s)
    ensures s.store.written == |s.store.since|
    ensures |MetricsBytes(s.store.batch)| <= s.store.written
    ensures |s.store.batch| <= 1 || |MetricsBytes(s.store.batch)| <= c.Limit()
  {
    ReachableInv(c, s);
  }

  // ------------------------------------------------------------------ packet bound

  /** The bytes that go to the transport for an emitted batch. */
  function Packet(c: Config, e: Emission): Bytes {
    MessageBytes(MetricBatch(e.metrics, Some(c.commonTags)))
  }

  /** The envelope and the list header of `n` metrics fit next to metrics up to the limit. */
  ghost predicate Room(c: Config, n: nat) {
    c.Limit() + ENVELOPE + ListExtra(n) <= c.maxPacketSize
  }

  lemma LongListRoom(c: Config, n: nat)
    requires c.maxPacketSize < 0x1_0000 && 3 * n <= c.Limit()
    requires c.maxPacketSize - c.Limit() > ENVELOPE
    ensures Room(c, n)
  {
    Pow128Values();
    if 14 < n < 0x80 {
      VarintLength(n, 1);
    } else if 0x80 <= n < 0x4000 {
      VarintLength(n, 2);
    } else if 0x4000 <= n {
      VarintLength(n, 3);
    }
  }

  /** Packet bound: every batch but a lone oversized metric goes out as a message of at
      most the limit plus the envelope and the list header; when the fifth that is kept back
      is larger than the envelope, that is at most the configured packet size.  Only the
      batches before the estimator's first reset may add the batch overhead, which the
      estimator has not counted by then.  `PacketLimits` says when these bounds are met. */
  lemma PacketBound(c: Config, s: State, i: nat)
    requires ConfigOk(c) && Reachable(c, s)
    requires i < |s.store.emitted|
    ensures var e := s.store.emitted[i];
      var uncounted := if e.epoch > 0 then 0 else c.Overhead();
      |e.metrics| > 1 || Charge(c, e.metrics, e.epoch) <= c.Limit() ==>
        && |Packet(c, e)| <= c.Limit() + ENVELOPE + ListExtra(|e.metrics|) + uncounted
        && (c.maxPacketSize - c.Limit() > ENVELOPE ==> |Packet(c, e)| <= c.maxPacketSize + uncounted)
  {
    ReachableInv(c, s);
    var e := s.store.emitted[i];
    MessageSize(e.metrics, c.commonTags);
    if |e.metrics| > 1 || Charge(c, e.metrics, e.epoch) <= c.Limit() {
      assert Fits(c, e.metrics, e.epoch);
      MetricsLength(e.metrics);
      if c.maxPacketSize - c.Limit() > ENVELOPE {
        LongListRoom(c, |e.metrics|);
      }
    }
  }

  /** A lone metric is the only way to a larger packet, and its size is its own. */
  lemma LoneMetricPacket(c: Config, m: Metric, epoch: nat, delivered: bool)
    ensures |Packet(c, Emission([m], epoch, delivered))| == ENVELOPE + c.Overhead() + |MetricBytes(m)|
  {
    MessageSize([m], c.commonTags);
    assert MetricsBytes([m]) == MetricBytes(m) + MetricsBytes([]);
  }

  // ---------------------------------------------------------------------- shutdown

  function Rank(pc: RunPc): nat {
    match pc
    case Finished => 0
    case FinalFlush => 1
    case AboutToWait => 1
    case Popping => 2
    case Dequeuing => 3
    case Appending(_, draining) => if draining then 3 else 7
    case Resetting(_, draining) => if draining then 4 else 8
    case Overflowing(_, draining) => if draining then 5 else 9
    case Estimating(_, draining) => if draining then 6 else 10
    case Draining => 7
    case Checking => 8
    case Starting => 9
    case Waiting(notified) => if notified then 9 else 10
  }

  /** A bound on the background thread's steps before it waits or returns. */
  function Work(s: State): nat {
    8 * |s.store.queue| + Rank(s.pc)
  }

  /** Nothing but the thread's own progress changes the work it has left while it holds
      `run_mutex_` or the reporter is shutting down: so it gives the mutex back after
      finitely many of its own steps, and a shutdown ends. */
  lemma WorkShrinks(c: Config, s: State, step: Step)
    requires Control(c, s) && Enabled(s, step)
    requires HoldsRunMutex(s.pc) || !s.store.run
    ensures step.RunStep? && !s.pc.AboutToWait? ==> Work(Next(c, s, step)) < Work(s)
    ensures !step.RunStep? ==> Work(Next(c, s, step)) <= Work(s)
  {
  }

  function RunSteps(steps: seq<Step>): nat {
    if |steps| == 0 then 0
    else RunSteps(steps[..|steps| - 1]) + if steps[|steps| - 1].RunStep? then 1 else 0
  }

  lemma {:induction false} WorkBudget(c: Config, s: State, steps: seq<Step>)
    requires ConfigOk(c) && Inv(c, s) && !s.store.run
    ensures var r := Execute(c, s, steps);
      r.Some? ==> !r.value.store.run && Work(r.value) + RunSteps(steps) <= Work(s)
  {
    if |steps| > 0 {
      var last := |steps| - 1;
      WorkBudget(c, s, steps[..last]);
      var r := Execute(c, s, steps[..last]);
      if r.Some? && Enabled(r.value, steps[last]) {
        InvHolds(c, s, steps[..last]);
        WorkShrinks(c, r.value, steps[last]);
      }
    }
  }

  /** Shutdown terminates: after `run_` is cleared, whatever the other threads do, the
      background thread takes at most `Work(s)` more steps, can always take one once the
      destructor has notified it, and so has returned when it has taken them all. */
  lemma ShutdownTerminates(c: Config, s: State, steps: seq<Step>, s': State)
    requires ConfigOk(c) && Reachable(c, s) && !s.store.run
    requires Execute(c, s, steps) == Some(s')
    ensures RunSteps(steps) <= Work(s)
    ensures RunSteps(steps) == Work(s) ==> s'.pc == Finished
    ensures s'.pc == Finished || Enabled(s', RunStep(true)) || s'.dtor.Cleared?
  {
    ReachableInv(c, s);
    WorkBudget(c, s, steps);
    InvHolds(c, s, steps);
  }

  /** When the destructor has joined the thread, every accepted metric has been handed to
      the client exactly once, in order, and nothing is left behind. */
  lemma DestructorDrains(c: Config, s: State)
    requires ConfigOk(c) && Reachable(c, s) && s.dtor.Joined?
    ensures s.store.queue == [] && s.store.batch == []
    ensures Flat(s.store.emitted) == s.store.accepted
  {
    ReachableInv(c, s);
  }

  /** While the reporter runs, what was accepted before the background thread goes to wait
      is in the batch or with the client. */
  lemma WaitMeansCaughtUp(c: Config, s: State)
    requires ConfigOk(c) && Reachable(c, s) && s.pc == Waiting(false)
    ensures s.store.accepted == Handed(s.store)
  {
    ReachableInv(c, s);
  }

  // -------------------------------------------------- one thread's view of Process

  lemma ExecuteMore(c: Config, s: State, steps: seq<Step>, s': State, step: Step)
    requires Execute(c, s, steps) == Some(s') && Enabled(s', step)
    ensures Execute(c, s, steps + [step]) == Some(Next(c, s', step))
  {
    assert (steps + [step])[..|steps|] == steps;
  }

  lemma ExecuteTwo(c: Config, s: State, step: Step)
    requires Enabled(s, step) && Enabled(Next(c, s, step), step)
    ensures Execute(c, s, [step, step]) == Some(Next(c, Next(c, s, step), step))
  {
    ExecuteMore(c, s, [], s, step);
    assert [] + [step] == [step];
    ExecuteMore(c, s, [step], Next(c, s, step), step);
    assert [step] + [step] == [step, step];
  }

  lemma ExecuteFour(c: Config, s: State, step: Step)
    requires Enabled(s, step) && Enabled(Next(c, s, step), step)
    requires var s2 := Next(c, Next(c, s, step), step); Enabled(s2, step) && Enabled(Next(c, s2, step), step)
    ensures Execute(c, s, [step, step, step, step]) ==
      Some(Next(c, Next(c, Next(c, Next(c, s, step), step), step), step))
  {
    var s2 := Next(c, Next(c, s, step), step);
    ExecuteTwo(c, s, step);
    ExecuteMore(c, s, [step, step], s2, step);
    assert [step, step] + [step] == [step, step, step];
    ExecuteMore(c, s, [step, step, step], Next(c, s2, step), step);
    assert [step, step, step] + [step] == [step, step, step, step];
  }

  function Processed(c: Config, s: State, delivered: bool): State
    requires s.pc.Estimating?
  {
    State(ProcessAlone(c, s.store, s.pc.m, delivered), if s.pc.draining then Popping else Dequeuing, s.dtor)
  }

  /** The steps of `Process`, taken without interruption, are the whole call: two when the
      estimate stays within the limit and four when it overflows. */
  lemma ProcessStepsCompose(c: Config, s: State, delivered: bool)
    requires s.pc.Estimating?
    ensures Estimate(s.store, s.pc.m).written <= c.Limit() ==>
      Execute(c, s, [RunStep(delivered), RunStep(delivered)]) == Some(Processed(c, s, delivered))
    ensures Estimate(s.store, s.pc.m).written > c.Limit() ==>
      Execute(c, s, [RunStep(delivered), RunStep(delivered), RunStep(delivered), RunStep(delivered)])
      == Some(Processed(c, s, delivered))
  {
    var s1 := RunNext(c, s, delivered);
    var s2 := RunNext(c, s1, delivered);
    if Estimate(s.store, s.pc.m).written <= c.Limit() {
      assert s2 == Processed(c, s, delivered);
      ExecuteTwo(c, s, RunStep(delivered));
    } else {
      assert RunNext(c, RunNext(c, s2, delivered), delivered) == Processed(c, s, delivered);
      ExecuteFour(c, s, RunStep(delivered));
    }
  }
}
