/** `Reporter::Impl` with its fields updated in place.  Each method is one of the sections
    that the state machine of `ReporterMachine` takes as atomic, or one of the background
    thread's loops over them as it runs while no other thread interferes. */
module ReporterImpl {
  import opened Wrappers
  import opened ByteStrings
  import opened CompactProtocol
  import opened CompactStreams
  import opened TagSets
  import opened M3Types
  import opened M3Client
  import opened M3Codec
  import opened CalcTransport
  import opened ReporterState
  import opened ReporterProofs

  class Impl {
    const config: Config
    var run: bool
    var queue: seq<Metric>
    var metrics: seq<Metric>        // emission_batch_.metrics; its common tags never change
    var wire: seq<Bytes>            // the messages the client has written to its transport
    ghost var emitted: seq<Emission>
    ghost var accepted: seq<Metric>
    ghost var resets: nat

    /** The queue is bounded, and the client has written one message for every batch, in
        order. */
    ghost predicate Valid()
      reads this
    {
      && |queue| <= config.maxQueueSize
      && |wire| == |emitted|
      && forall i :: 0 <= i < |wire| ==> wire[i] == Packet(config, emitted[i])
    }

    /** The object, with the state of the background thread's estimator, as the machine's
        store. */
    ghost function Abs(written: nat, since: Bytes): Store
      reads this
    {
      Store(run, queue, metrics, written, since, resets, emitted, accepted)
    }

    constructor (config: Config)
      ensures this.config == config && Valid()
      ensures run && queue == [] && metrics == [] && emitted == [] && accepted == [] && resets == 0
    {
      this.config := config;
      run, queue, metrics, wire := true, [], [], [];
      emitted, accepted, resets := [], [], 0;
    }

    method Enqueue(metric: Metric)
      requires Valid()
      modifies this`queue, this`accepted
      ensures Valid()
      ensures run && |old(queue)| < config.maxQueueSize ==>
        queue == old(queue) + [metric] && accepted == old(accepted) + [metric]
      ensures !run || |old(queue)| == config.maxQueueSize ==> queue == old(queue) && accepted == old(accepted)
      ensures forall written, since :: Abs(written, since) == EnqueueMetric(config, old(Abs(written, since)), metric)
    {
      if !run {
        return;
      }
      if |queue| == config.maxQueueSize {
        return;
      }
      queue := queue + [metric];
      accepted := accepted + [metric];
    }

    /** `ReportCounter`, `ReportGauge` and `ReportTimer`, which build a metric from what they
        are given and the clock's reading, and enqueue it. */
    method Report(name: Bytes, tags: map<Bytes, Bytes>, reading: Reading, now: Int64) returns (metric: Metric)
      requires Valid()
      modifies this`queue, this`accepted
      ensures Valid() && FromReport(metric) && metric.name == name && metric.timestamp == Some(now)
      ensures metric.metricValue == Some(CreateValue(reading))
      ensures reading.CounterReading? ==> metric.metricValue.value.count == Some(CountValue(Some(reading.delta)))
      ensures reading.GaugeReading? ==> metric.metricValue.value.gauge == Some(NumberValue(None, Some(reading.value)))
      ensures reading.TimerReading? ==> metric.metricValue.value.timer == Some(NumberValue(Some(reading.nanos), None))
      ensures Sorted(metric.tags.value)
      ensures forall t :: t in metric.tags.value <==>
        t.tagValue.Some? && t.tagName in tags && tags[t.tagName] == t.tagValue.value
      ensures run && |old(queue)| < config.maxQueueSize ==> queue == old(queue) + [metric]
      ensures !run || |old(queue)| == config.maxQueueSize ==> queue == old(queue)
      ensures forall written, since :: Abs(written, since) == EnqueueMetric(config, old(Abs(written, since)), metric)
    {
      var metricTags := ConvertTags(tags);
      metric := Metric(name, Some(CreateValue(reading)), Some(now), Some(metricTags));
      Enqueue(metric);
    }

    /** `delivered` is false when the client's exception is caught. */
    method Flush() returns (delivered: bool)
      requires Valid()
      modifies this`metrics, this`wire, this`emitted
      ensures Valid() && metrics == []
      ensures old(metrics) == [] ==> wire == old(wire) && emitted == old(emitted)
      ensures old(metrics) != [] ==>
        && wire == old(wire) + [MessageBytes(MetricBatch(old(metrics), Some(config.commonTags)))]
        && emitted == old(emitted) + [Emission(old(metrics), resets, delivered)]
      ensures forall written, since :: Abs(written, since) == FlushBatch(old(Abs(written, since)), delivered)
    {
      delivered := true;
      if metrics == [] {
        return;
      }
      var oprot := new CompactWriter();
      SendEmitMetricBatch(oprot, MetricBatch(metrics, Some(config.commonTags)));
      assert oprot.out == MessageBytes(MetricBatch(metrics, Some(config.commonTags)));
      wire := wire + [oprot.out];
      delivered := *;
      emitted := emitted + [Emission(metrics, resets, delivered)];
      metrics := [];
    }

    /** End to end: reading the stream of all messages gives back the emitted batches with
        the common tags, in order. */
    lemma WireReadsBack()
      requires Valid() && forall b :: b in Batches(config, emitted) ==> BatchFits(b)
      ensures ReadStream(Concat(wire)) == Some(Calls(Batches(config, emitted)))
    {
      ConcatIsStream(config, wire, emitted);
      StreamRoundTrip(Batches(config, emitted));
    }

    /** The part of `Process` that shows a metric to the estimator, and reads the estimate. */
    method Show(metric: Metric, estimator: TCalcTransport) returns (size: nat)
      requires estimator.Valid()
      modifies estimator
      ensures estimator.Valid() && estimator.since == old(estimator.since) + MetricBytes(metric)
      ensures size == estimator.written == (old(estimator.written) + |MetricBytes(metric)|) % 0x1_0000_0000
    {
      var calcProtocol := new CompactWriter();
      WriteMetric(calcProtocol, metric);
      assert calcProtocol.out == MetricBytes(metric);
      estimator.WriteVirt(calcProtocol.out);
      size := estimator.Size();
    }

    /** The part of `Process` that restarts the estimator: from the overhead of an empty
        batch and the metric that did not fit. */
    method Restart(metric: Metric, estimator: TCalcTransport)
      modifies estimator
      ensures estimator.Valid()
      ensures estimator.since == BatchBytes(MetricBatch([], Some(config.commonTags))) + MetricBytes(metric)
      ensures estimator.written == (config.Overhead() + |MetricBytes(metric)|) % 0x1_0000_0000
    {
      estimator.Flush();
      var calcProtocol := new CompactWriter();
      ghost var header := BatchBytes(MetricBatch([], Some(config.commonTags)));
      WriteBatch(calcProtocol, MetricBatch([], Some(config.commonTags)));
      assert calcProtocol.out == header;
      WriteMetric(calcProtocol, metric);
      assert calcProtocol.out == header + MetricBytes(metric);
      estimator.WriteVirt(calcProtocol.out);
    }

    /** With the metric the estimate exceeds four fifths of the packet. */
    ghost predicate Overflows(written: nat, metric: Metric) {
      (written + |MetricBytes(metric)|) % 0x1_0000_0000 > (config.maxPacketSize / 5) * 4
    }

    method Process(metric: Metric, estimator: TCalcTransport) returns (delivered: bool)
      requires Valid() && estimator.Valid()
      modifies this`metrics, this`wire, this`emitted, this`resets, estimator
      ensures Valid() && estimator.Valid()
      ensures Abs(estimator.written, estimator.since) ==
        ProcessAlone(config, old(Abs(estimator.written, estimator.since)), metric, delivered)
      ensures Overflows(old(estimator.written), metric) ==>
        && metrics == [metric] && resets == old(resets) + 1
        && estimator.written == (config.Overhead() + |MetricBytes(metric)|) % 0x1_0000_0000
        && emitted == old(emitted)
             + (if old(metrics) == [] then [] else [Emission(old(metrics), old(resets), delivered)])
      ensures !Overflows(old(estimator.written), metric) ==>
        && metrics == old(metrics) + [metric] && resets == old(resets)
        && estimator.written == (old(estimator.written) + |MetricBytes(metric)|) % 0x1_0000_0000
        && wire == old(wire) && emitted == old(emitted)
    {
      ghost var start := Abs(estimator.written, estimator.since);
      var size := Show(metric, estimator);
      assert Abs(estimator.written, estimator.since) == Estimate(start, metric);

      delivered := true;
      if size > config.Limit() {
        delivered := Flush();
        Restart(metric, estimator);
        resets := resets + 1;
      }
      metrics := metrics + [metric];
    }

    /** The background thread's inner loop: it empties the queue in order, and emits only where
        the estimator overflowed. */
    method DequeueAll(estimator: TCalcTransport)
      requires Valid() && estimator.Valid()
      modifies this`queue, this`metrics, this`wire, this`emitted, this`resets, estimator
      ensures Valid() && estimator.Valid() && queue == []
      ensures Flat(emitted) + metrics == old(Flat(emitted) + metrics + queue)
      ensures resets - old(resets) >= |emitted| - |old(emitted)|
    {
      ghost var all := Flat(emitted) + metrics + queue;
      while |queue| != 0
        invariant Valid() && estimator.Valid()
        invariant (Flat(emitted) + metrics) + queue == all
        invariant resets - old(resets) >= |emitted| - |old(emitted)|
      {
        var metric := queue[0];
        ghost var handed := Flat(emitted) + metrics;
        Shift(handed, queue);
        queue := queue[1..];
        ghost var popped := Abs(estimator.written, estimator.since);
        var delivered := Process(metric, estimator);
        ProcessHands(config, popped, metric, delivered);
      }
    }

    /** The shutdown branch's loop, which pops each metric once it is processed. */
    method Drain(estimator: TCalcTransport)
      requires Valid() && estimator.Valid()
      modifies this`queue, this`metrics, this`wire, this`emitted, this`resets, estimator
      ensures Valid() && estimator.Valid() && queue == []
      ensures Flat(emitted) + metrics == old(Flat(emitted) + metrics + queue)
      ensures resets - old(resets) >= |emitted| - |old(emitted)|
    {
      ghost var all := Flat(emitted) + metrics + queue;
      while |queue| > 0
        invariant Valid() && estimator.Valid()
        invariant (Flat(emitted) + metrics) + queue == all
        invariant resets - old(resets) >= |emitted| - |old(emitted)|
      {
        var metric := queue[0];
        ghost var before := Abs(estimator.written, estimator.since);
        Shift(Handed(before), queue);
        var delivered := Process(metric, estimator);
        ProcessHands(config, before, metric, delivered);
        queue := queue[1..];
      }
    }

    /** The shutdown branch: drain the queue, then flush.  Every metric has then been handed to
        the client. */
    method DrainAndFlush(estimator: TCalcTransport)
      requires Valid() && estimator.Valid()
      modifies this`queue, this`metrics, this`wire, this`emitted, this`resets, estimator
      ensures Valid() && estimator.Valid() && queue == [] && metrics == []
      ensures Flat(emitted) == old(Flat(emitted) + metrics + queue)
      ensures resets - old(resets) + 1 >= |emitted| - |old(emitted)|
    {
      Drain(estimator);
      ghost var drained := Abs(estimator.written, estimator.since);
      var delivered := Flush();
      FlushKeepsHanded(drained, delivered);
    }
  }

  function Concat(messages: seq<Bytes>): Bytes {
    if |messages| == 0 then [] else messages[0] + Concat(messages[1..])
  }

  function Batches(c: Config, emitted: seq<Emission>): seq<MetricBatch> {
    seq(|emitted|, i requires 0 <= i < |emitted| => MetricBatch(emitted[i].metrics, Some(c.commonTags)))
  }

  lemma {:induction false} ConcatIsStream(c: Config, wire: seq<Bytes>, emitted: seq<Emission>)
    requires |wire| == |emitted| && forall i :: 0 <= i < |wire| ==> wire[i] == Packet(c, emitted[i])
    ensures Concat(wire) == Stream(Batches(c, emitted))
  {
    if |wire| > 0 {
      ConcatIsStream(c, wire[1..], emitted[1..]);
      assert Batches(c, emitted)[1..] == Batches(c, emitted[1..]);
    }
  }

  lemma Shift<T>(handed: seq<T>, queue: seq<T>)
    requires queue != []
    ensures (handed + [queue[0]]) + queue[1..] == handed + queue
  {
  }

  /** Processing moves one metric behind everything handed over so far, and touches the
      queue not at all. */
  lemma ProcessHands(c: Config, s: Store, m: Metric, delivered: bool)
    ensures var s' := ProcessAlone(c, s, m, delivered);
      Handed(s') == Handed(s) + [m] && s'.queue == s.queue && s'.accepted == s.accepted
  {
    var s1 := Estimate(s, m);
    FlushKeepsHanded(s1, delivered);
    var s2 := if s1.written > c.Limit() then ResetEstimate(c, FlushBatch(s1, delivered), m) else s1;
    assert Handed(s2) == Handed(s);
    assert Flat(s2.emitted) + (s2.batch + [m]) == (Flat(s2.emitted) + s2.batch) + [m];
  }
}
