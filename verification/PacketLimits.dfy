/** Exactly when the M3 reporter's packets keep to the configured size: the bound that holds
    in every run, and runs that reach it. */
module PacketLimits {
  import opened Wrappers
  import opened CompactProtocol
  import opened M3Types
  import opened M3RoundTrip
  import opened M3Client
  import opened ReporterState
  import opened ReporterMachine
  import opened ReporterProofs

  // ------------------------------------------------------------------------ sizes

  lemma {:induction false} VarintGrows(a: nat, b: nat)
    requires a <= b
    ensures |Varint(a)| <= |Varint(b)|
  {
    if a >= 0x80 {
      VarintGrows(a / 0x80, b / 0x80);
    }
  }

  lemma ListExtraGrows(a: nat, b: nat)
    requires a <= b
    ensures ListExtra(a) <= ListExtra(b)
  {
    VarintGrows(a, b);
  }

  const LEAST: nat := 13

  /** A metric that is reported takes at least 13 bytes: four field headers, the lengths of
      the name and the tags, five bytes of value, one of timestamp and the stop. */
  lemma ReportedLength(m: Metric)
    requires FromReport(m)
    ensures LEAST <= |MetricBytes(m)|
  {
    var reading :| m.metricValue.value == CreateValue(reading);
    assert 1 <= |BinaryBytes(m.name)|;
    ReadingLength(reading);
    assert 1 <= |TagSetBytes(m.tags.value)|;
    assert 3 <= |TagsFieldBytes(3, m)|;
    assert 5 <= |TimestampFieldBytes(2, m)|;
    assert 11 <= |ValueFieldBytes(1, m)|;
  }

  lemma ReadingLength(reading: Reading)
    ensures 5 <= |ValueBytes(CreateValue(reading))|
  {
    var v := CreateValue(reading);
    match reading
    case CounterReading(delta) =>
      assert |CountBytes(v.count.value)| == 2 + |I64Bytes(delta)|;
      assert |GaugeFieldBytes(1, v)| == 1;
    case GaugeReading(value) =>
      assert |NumberBytes(v.gauge.value)| == 2 + 8;
      assert |TimerFieldBytes(2, v)| == 1;
    case TimerReading(nanos) =>
      assert |NumberBytes(v.timer.value)| == 2 + |I64Bytes(nanos)|;
  }

  lemma {:induction false} ReportedMetricsLength(metrics: seq<Metric>)
    requires forall m :: m in metrics ==> FromReport(m)
    ensures LEAST * |metrics| <= |MetricsBytes(metrics)|
  {
    if |metrics| > 0 {
      ReportedLength(metrics[0]);
      ReportedMetricsLength(metrics[1..]);
    }
  }

  /** A counter of zero at time zero, without tags, with a name of n bytes. */
  function Small(n: nat): Metric {
    Metric(seq(n, _ => 97), Some(CreateValue(CounterReading(0))), Some(0), Some([]))
  }

  lemma SmallLength(n: nat)
    ensures |MetricBytes(Small(n))| == LEAST - 1 + |Varint(n)| + n
  {
    var m := Small(n);
    assert |I64Bytes(0)| == 1;
    assert |TagSetBytes([])| == 1;
    assert |TagsFieldBytes(3, m)| == 3;
    assert |TimestampFieldBytes(2, m)| == 5;
    SmallValueLength();
    assert |ValueFieldBytes(1, m)| == 11;
    assert |BinaryBytes(m.name)| == |Varint(n)| + n;
  }

  lemma SmallValueLength()
    ensures |ValueBytes(CreateValue(CounterReading(0)))| == 5
  {
    var v := CreateValue(CounterReading(0));
    assert |I64Bytes(0)| == 1;
    assert |CountBytes(v.count.value)| == 3;
    assert |GaugeFieldBytes(1, v)| == 1;
  }

  lemma SmallCanBeReported(n: nat)
    requires n < 0x1_0000
    ensures FromReport(Small(n)) && Encodable(Small(n))
  {
    SmallLength(n);
    Pow128Values();
    VarintGrows(n, 0x1_0000);
    VarintLength(0x1_0000, 3);
  }

  /** k metrics that take 13k + r bytes. */
  function Smallest(k: nat, r: nat): seq<Metric>
    requires k > 0
  {
    if k == 1 then [Small(r)] else [Small(0)] + Smallest(k - 1, r)
  }

  ghost predicate CanBeReported(ms: seq<Metric>) {
    forall m :: m in ms ==> FromReport(m) && Encodable(m)
  }

  lemma {:induction false} SmallestSize(k: nat, r: nat)
    requires k > 0 && r < 0x80
    ensures |Smallest(k, r)| == k && |MetricsBytes(Smallest(k, r))| == LEAST * k + r
    ensures CanBeReported(Smallest(k, r))
  {
    SmallLength(0);
    SmallLength(r);
    SmallCanBeReported(0);
    SmallCanBeReported(r);
    if k == 1 {
      assert MetricsBytes([Small(r)]) == MetricBytes(Small(r)) + MetricsBytes([]);
    } else {
      SmallestSize(k - 1, r);
      assert Smallest(k, r)[1..] == Smallest(k - 1, r);
    }
  }

  // ------------------------------------------------------------- reachable states

  lemma Take(c: Config, s: State, step: Step)
    requires Reachable(c, s) && Enabled(s, step)
    ensures Reachable(c, Next(c, s, step))
  {
    var steps :| Execute(c, START, steps) == Some(s);
    ExecuteMore(c, START, steps, s, step);
  }

  lemma {:induction false} TakeAll(c: Config, s: State, steps: seq<Step>, s': State)
    requires Reachable(c, s) && Execute(c, s, steps) == Some(s')
    ensures Reachable(c, s')
  {
    if |steps| > 0 {
      var last := |steps| - 1;
      var mid := Execute(c, s, steps[..last]).value;
      TakeAll(c, s, steps[..last], mid);
      Take(c, mid, steps[last]);
    }
  }

  lemma StartReachable(c: Config)
    ensures Reachable(c, START)
  {
    assert Execute(c, START, []) == Some(START);
  }

  /** The background thread has caught up and waits. */
  ghost predicate Idle(c: Config, s: State) {
    Reachable(c, s) && s.pc == Waiting(false) && s.dtor.NotCalled? && s.store.run && s.store.queue == []
  }

  const RUN := RunStep(true)

  lemma StartsIdle(c: Config) returns (s: State)
    ensures Idle(c, s) && s.store == INITIAL
  {
    StartReachable(c);
    s := START;
    Take(c, s, RUN);
    s := Next(c, s, RUN);
    Take(c, s, RUN);
    s := Next(c, s, RUN);
    Take(c, s, RUN);
    s := Next(c, s, RUN);
    Take(c, s, RUN);
    s := Next(c, s, RUN);
  }

  /** A producer enqueues, and the background thread wakes up and takes the metric. */
  lemma WakesUp(c: Config, s: State, m: Metric) returns (s': State)
    requires Idle(c, s) && FromReport(m) && Encodable(m) && c.maxQueueSize > 0
    ensures Reachable(c, s') && s'.dtor.NotCalled? && s'.pc == Estimating(m, false)
    ensures s'.store == s.store.(accepted := s.store.accepted + [m])
  {
    Take(c, s, Enqueue(m));
    s' := Next(c, s, Enqueue(m));
    assert s'.store.queue == [m];
    s' := Dequeues(c, s', m);
  }

  lemma Dequeues(c: Config, s: State, m: Metric) returns (s': State)
    requires Reachable(c, s) && s.pc == Waiting(true) && s.store.run && s.store.queue == [m]
    ensures Reachable(c, s') && s'.dtor == s.dtor && s'.pc == Estimating(m, false)
    ensures s'.store == s.store.(queue := [])
  {
    Take(c, s, RUN);
    s' := Next(c, s, RUN);
    Take(c, s', RUN);
    s' := Next(c, s', RUN);
    Take(c, s', RUN);
    s' := Next(c, s', RUN);
  }

  lemma FallsAsleep(c: Config, s: State) returns (s': State)
    requires Reachable(c, s) && s.dtor.NotCalled? && s.store.run && s.pc == Dequeuing && s.store.queue == []
    ensures Idle(c, s') && s'.store == s.store
  {
    Take(c, s, RUN);
    s' := Next(c, s, RUN);
    Take(c, s', RUN);
    s' := Next(c, s', RUN);
  }

  /** One metric goes all the way through `Process`. */
  lemma Deliver(c: Config, s: State, m: Metric) returns (s': State)
    requires Idle(c, s) && FromReport(m) && Encodable(m) && c.maxQueueSize > 0
    ensures Idle(c, s')
    ensures s'.store == ProcessAlone(c, s.store.(accepted := s.store.accepted + [m]), m, true)
  {
    var s1 := WakesUp(c, s, m);
    ProcessStepsCompose(c, s1, true);
    var s2 := Processed(c, s1, true);
    if Estimate(s1.store, m).written <= c.Limit() {
      TakeAll(c, s1, [RUN, RUN], s2);
    } else {
      TakeAll(c, s1, [RUN, RUN, RUN, RUN], s2);
    }
    s' := FallsAsleep(c, s2);
  }

  lemma DeliverFits(c: Config, s: State, m: Metric) returns (s': State)
    requires ConfigOk(c) && Idle(c, s) && FromReport(m) && Encodable(m) && c.maxQueueSize > 0
    requires s.store.written + |MetricBytes(m)| <= c.Limit()
    ensures Idle(c, s') && s'.store.batch == s.store.batch + [m]
    ensures s'.store.written == s.store.written + |MetricBytes(m)|
    ensures s'.store.resets == s.store.resets && s'.store.emitted == s.store.emitted
  {
    s' := Deliver(c, s, m);
  }

  lemma DeliverOverflows(c: Config, s: State, m: Metric) returns (s': State)
    requires ConfigOk(c) && Idle(c, s) && FromReport(m) && Encodable(m) && c.maxQueueSize > 0
    requires c.Limit() < s.store.written < 3 * QUARTER && |s.store.batch| == 1
    ensures Idle(c, s') && s'.store.batch == [m]
    ensures s'.store.written == c.Overhead() + |MetricBytes(m)|
    ensures s'.store.resets == s.store.resets + 1 && |s'.store.emitted| == |s.store.emitted| + 1
  {
    s' := Deliver(c, s, m);
  }

  /** Metrics that fit under the limit gather in the batch. */
  lemma {:induction false} Gather(c: Config, s: State, ms: seq<Metric>) returns (s': State)
    requires ConfigOk(c) && c.maxQueueSize > 0 && Idle(c, s) && CanBeReported(ms)
    requires s.store.written + |MetricsBytes(ms)| <= c.Limit()
    ensures Idle(c, s') && s'.store.batch == s.store.batch + ms
    ensures s'.store.resets == s.store.resets && s'.store.emitted == s.store.emitted
    decreases |ms|
  {
    if |ms| == 0 {
      s' := s;
    } else {
      assert |MetricsBytes(ms)| == |MetricBytes(ms[0])| + |MetricsBytes(ms[1..])|;
      var s1 := DeliverFits(c, s, ms[0]);
      s' := Gather(c, s1, ms[1..]);
      MoveMetric(s.store.batch, ms);
    }
  }

  /** Any thread flushes: the batch is emitted. */
  lemma EmitBatch(c: Config, s: State) returns (s': State)
    requires Idle(c, s) && s.store.batch != []
    ensures Reachable(c, s')
    ensures s'.store.emitted == s.store.emitted + [Emission(s.store.batch, s.store.resets, true)]
  {
    Take(c, s, Flush(true));
    s' := Next(c, s, Flush(true));
  }

  // ---------------------------------------------------------------- largest packets

  function SizeOf(c: Config, n: nat, bytes: nat): nat {
    ENVELOPE + c.Overhead() + ListExtra(n) + bytes
  }

  lemma PacketSize(c: Config, e: Emission)
    ensures |Packet(c, e)| == SizeOf(c, |e.metrics|, |MetricsBytes(e.metrics)|)
  {
    MessageSize(e.metrics, c.commonTags);
  }

  /** A run whose first batch fills the limit with as many metrics as possible. */
  lemma FullFirstBatch(c: Config) returns (s: State)
    requires ConfigOk(c) && c.maxQueueSize > 0 && c.Limit() >= 2 * LEAST
    ensures Reachable(c, s) && |s.store.emitted| == 1
    ensures var e := s.store.emitted[0];
      |e.metrics| > 1 && e.epoch == 0 && |Packet(c, e)| == SizeOf(c, c.Limit() / LEAST, c.Limit())
  {
    var k, r := c.Limit() / LEAST, c.Limit() % LEAST;
    SmallestSize(k, r);
    var s0 := StartsIdle(c);
    var s1 := Gather(c, s0, Smallest(k, r));
    assert s1.store.batch == Smallest(k, r);
    s := EmitBatch(c, s1);
    PacketSize(c, s.store.emitted[0]);
  }

  /** A metric above the limit resets the estimator. */
  lemma AfterOversized(c: Config) returns (s: State)
    requires ConfigOk(c) && c.maxQueueSize > 0
    ensures Idle(c, s) && |s.store.batch| == 1 && s.store.emitted == [] && s.store.resets == 1
    ensures c.Limit() < s.store.written < 3 * QUARTER
  {
    var m := Small(c.Limit());
    SmallLength(c.Limit());
    SmallCanBeReported(c.Limit());
    var s0 := StartsIdle(c);
    s := Deliver(c, s0, m);
  }

  /** A run with a batch that fills the limit in the same way after estimator resets. */
  lemma FullLaterBatch(c: Config) returns (s: State)
    requires ConfigOk(c) && c.maxQueueSize > 0 && c.Limit() >= c.Overhead() + 2 * LEAST
    ensures Reachable(c, s) && |s.store.emitted| == 2
    ensures var e := s.store.emitted[1];
      && |e.metrics| > 1 && e.epoch > 0
      && |Packet(c, e)| == SizeOf(c, (c.Limit() - c.Overhead()) / LEAST, c.Limit() - c.Overhead())
  {
    var room := c.Limit() - c.Overhead();
    var k, r := room / LEAST, room % LEAST;
    var ms := Smallest(k, r);
    SmallestSize(k, r);
    var s0 := AfterOversized(c);
    assert |MetricsBytes(ms)| == |MetricBytes(ms[0])| + |MetricsBytes(ms[1..])|;
    assert [ms[0]] + ms[1..] == ms;
    var s1 := DeliverOverflows(c, s0, ms[0]);
    var s2 := Gather(c, s1, ms[1..]);
    s := EmitBatch(c, s2);
    PacketSize(c, s.store.emitted[1]);
  }

  // ------------------------------------------------------------- exact conditions

  /** Every emitted batch of two or more metrics goes out as a message of at most the
      configured packet size; `late` asks that of the batches after an estimator reset only. */
  ghost predicate PacketsFit(c: Config, late: bool) {
    forall s, i: nat :: Reachable(c, s) && i < |s.store.emitted| ==> FitsPacket(c, s.store.emitted[i], late)
  }

  ghost predicate FitsPacket(c: Config, e: Emission, late: bool) {
    |e.metrics| > 1 && (late ==> e.epoch > 0) ==> |Packet(c, e)| <= c.maxPacketSize
  }

  lemma EmittedFits(c: Config, s: State, i: nat)
    requires ConfigOk(c) && Reachable(c, s) && i < |s.store.emitted|
    ensures var e := s.store.emitted[i]; Fits(c, e.metrics, e.epoch) && forall m :: m in e.metrics ==> FromReport(m)
  {
    ReachableInv(c, s);
    var steps :| Execute(c, START, steps) == Some(s);
    AcceptedFromReport(c, steps);
    forall m | m in s.store.emitted[i].metrics ensures FromReport(m) {
      EmittedIsFlat(s.store.emitted, i, m);
      assert m in s.store.accepted;
    }
  }

  lemma {:induction false} EmittedIsFlat(emitted: seq<Emission>, i: nat, m: Metric)
    requires i < |emitted| && m in emitted[i].metrics
    ensures m in Flat(emitted)
  {
    if i < |emitted| - 1 {
      EmittedIsFlat(emitted[..|emitted| - 1], i, m);
    }
  }

  ghost predicate AllFromReport(ms: seq<Metric>) {
    forall m :: m in ms ==> FromReport(m)
  }

  /** Whatever is accepted was built by `ReportMetric`. */
  lemma {:induction false} AcceptedFromReport(c: Config, steps: seq<Step>)
    ensures var r := Execute(c, START, steps); r.Some? ==> AllFromReport(r.value.store.accepted)
  {
    if |steps| > 0 {
      var last := |steps| - 1;
      AcceptedFromReport(c, steps[..last]);
      var r := Execute(c, START, steps[..last]);
      if r.Some? && Enabled(r.value, steps[last]) {
        AcceptedGrows(c, r.value, steps[last]);
      }
    }
  }

  lemma AcceptedGrows(c: Config, s: State, step: Step)
    requires Enabled(s, step)
    ensures var accepted := Next(c, s, step).store.accepted;
      accepted == s.store.accepted || (step.Enqueue? && FromReport(step.m) && accepted == s.store.accepted + [step.m])
  {
  }

  lemma FittingPacket(c: Config, e: Emission)
    requires Fits(c, e.metrics, e.epoch) && |e.metrics| > 1 && forall m :: m in e.metrics ==> FromReport(m)
    ensures var room := c.Limit() - if e.epoch > 0 then c.Overhead() else 0;
      room >= 2 * LEAST && |Packet(c, e)| <= SizeOf(c, room / LEAST, room)
  {
    var room := c.Limit() - if e.epoch > 0 then c.Overhead() else 0;
    ReportedMetricsLength(e.metrics);
    ListExtraGrows(|e.metrics|, room / LEAST);
    PacketSize(c, e);
  }

  lemma {:induction false} EmittedCount(emitted: seq<Emission>)
    requires forall i :: 0 <= i < |emitted| ==> emitted[i].metrics != []
    ensures |emitted| <= |Flat(emitted)|
  {
    if |emitted| > 0 {
      EmittedCount(emitted[..|emitted| - 1]);
    }
  }

  lemma NothingEmitted(c: Config, s: State)
    requires ConfigOk(c) && c.maxQueueSize == 0 && Reachable(c, s)
    ensures s.store.emitted == []
  {
    var steps :| Execute(c, START, steps) == Some(s);
    NothingAccepted(c, steps);
    ReachableInv(c, s);
    EmittedCount(s.store.emitted);
  }

  lemma NoQueueFits(c: Config, late: bool)
    requires ConfigOk(c) && c.maxQueueSize == 0
    ensures PacketsFit(c, late)
  {
    forall s | Reachable(c, s) ensures s.store.emitted == [] {
      NothingEmitted(c, s);
    }
  }

  lemma {:induction false} NothingAccepted(c: Config, steps: seq<Step>)
    requires ConfigOk(c) && c.maxQueueSize == 0
    ensures var r := Execute(c, START, steps); r.Some? ==> r.value.store.accepted == []
  {
    if |steps| > 0 {
      var last := |steps| - 1;
      NothingAccepted(c, steps[..last]);
      var r := Execute(c, START, steps[..last]);
      if r.Some? && Enabled(r.value, steps[last]) {
        InvHolds(c, START, steps[..last]);
        StillNothing(c, r.value, steps[last]);
      }
    }
  }

  lemma StillNothing(c: Config, s: State, step: Step)
    requires c.maxQueueSize == 0 && Control(c, s) && Enabled(s, step) && s.store.accepted == []
    ensures Next(c, s, step).store.accepted == []
  {
  }

  /** What the largest batch of two or more metrics, if there is one, takes. */
  ghost predicate LargestFits(c: Config, late: bool) {
    var room := c.Limit() - if late then c.Overhead() else 0;
    room < 2 * LEAST || SizeOf(c, room / LEAST, room) <= c.maxPacketSize
  }

  lemma LargestFitsLate(c: Config)
    requires LargestFits(c, false)
    ensures LargestFits(c, true)
  {
    var room := c.Limit() - c.Overhead();
    if room >= 2 * LEAST {
      ListExtraGrows(room / LEAST, c.Limit() / LEAST);
    }
  }

  lemma LargestFitsOne(c: Config, e: Emission, late: bool)
    requires LargestFits(c, late) && (!late ==> LargestFits(c, true))
    requires Fits(c, e.metrics, e.epoch) && forall m :: m in e.metrics ==> FromReport(m)
    ensures FitsPacket(c, e, late)
  {
    if |e.metrics| > 1 && (late ==> e.epoch > 0) {
      assert LargestFits(c, e.epoch > 0);
      FittingIsSmall(c, e);
    }
  }

  lemma FittingIsSmall(c: Config, e: Emission)
    requires Fits(c, e.metrics, e.epoch) && |e.metrics| > 1 && forall m :: m in e.metrics ==> FromReport(m)
    requires LargestFits(c, e.epoch > 0)
    ensures |Packet(c, e)| <= c.maxPacketSize
  {
    FittingPacket(c, e);
  }

  lemma LargestFitsAll(c: Config, late: bool)
    requires ConfigOk(c) && LargestFits(c, late)
    ensures PacketsFit(c, late)
  {
    if !late {
      LargestFitsLate(c);
    }
    forall s, i: nat | Reachable(c, s) && i < |s.store.emitted| ensures FitsPacket(c, s.store.emitted[i], late) {
      EmittedFits(c, s, i);
      LargestFitsOne(c, s.store.emitted[i], late);
    }
  }

  lemma OneTooLarge(c: Config, s: State, i: nat, late: bool)
    requires Reachable(c, s) && i < |s.store.emitted|
    requires var e := s.store.emitted[i]; |e.metrics| > 1 && (late ==> e.epoch > 0) && |Packet(c, e)| > c.maxPacketSize
    ensures !PacketsFit(c, late)
  {
    assert !FitsPacket(c, s.store.emitted[i], late);
  }

  lemma FirstIsTooLarge(c: Config)
    requires ConfigOk(c) && c.maxQueueSize > 0 && !LargestFits(c, false)
    ensures !PacketsFit(c, false)
  {
    var s := FullFirstBatch(c);
    OneTooLarge(c, s, 0, false);
  }

  lemma LaterIsTooLarge(c: Config)
    requires ConfigOk(c) && c.maxQueueSize > 0 && !LargestFits(c, true)
    ensures !PacketsFit(c, true)
  {
    var s := FullLaterBatch(c);
    OneTooLarge(c, s, 1, true);
  }

  lemma FitExactly(c: Config, late: bool)
    requires ConfigOk(c)
    ensures PacketsFit(c, late) <==> c.maxQueueSize == 0 || LargestFits(c, late)
  {
    if c.maxQueueSize == 0 {
      NoQueueFits(c, late);
    } else if LargestFits(c, late) {
      LargestFitsAll(c, late);
    } else {
      if late { LaterIsTooLarge(c); } else { FirstIsTooLarge(c); }
    }
  }

  /** In all runs the packets keep to their size exactly when nothing is ever queued, or no two
      metrics fit under the limit, or the fullest first batch fits with its common tags. */
  lemma PacketsFitExactly(c: Config)
    requires ConfigOk(c)
    ensures PacketsFit(c, false) <==>
      c.maxQueueSize == 0 || c.Limit() < 2 * LEAST
      || c.Limit() + ENVELOPE + ListExtra(c.Limit() / LEAST) + c.Overhead() <= c.maxPacketSize
  {
    FitExactly(c, false);
  }

  /** After an estimator reset the fifth that is kept back has to hold the envelope and the
      longest list header only. */
  lemma ReservedFifthSuffices(c: Config, limit: nat, overhead: nat)
    requires ConfigOk(c) && limit == c.Limit() && overhead == c.Overhead()
    ensures PacketsFit(c, true) <==>
      c.maxQueueSize == 0 || limit < overhead + 2 * LEAST
      || limit + ENVELOPE + ListExtra((limit - overhead) / LEAST) <= c.maxPacketSize
  {
    FitExactly(c, true);
    LateCondition(c, limit, overhead);
  }

  lemma LateCondition(c: Config, limit: nat, overhead: nat)
    requires limit == c.Limit() && overhead == c.Overhead()
    ensures LargestFits(c, true) <==>
      limit < overhead + 2 * LEAST || limit + ENVELOPE + ListExtra((limit - overhead) / LEAST) <= c.maxPacketSize
  {
    var room := limit - overhead;
    if room >= 2 * LEAST {
      assert SizeOf(c, room / LEAST, room) == ENVELOPE + overhead + ListExtra(room / LEAST) + room;
    }
  }

  /** So from 101 bytes on the fifth suffices, whatever the common tags. */
  lemma From101(c: Config)
    requires ConfigOk(c) && c.maxPacketSize >= 101
    ensures PacketsFit(c, true)
  {
    var limit, overhead := c.Limit(), c.Overhead();
    ReservedFifthSuffices(c, limit, overhead);
    if limit >= overhead + 2 * LEAST {
      RoomFrom101(c, (limit - overhead) / LEAST);
    }
  }

  lemma RoomFrom101(c: Config, n: nat)
    requires 101 <= c.maxPacketSize < 0x1_0000 && LEAST * n <= c.Limit()
    ensures c.Limit() + ENVELOPE + ListExtra(n) <= c.maxPacketSize
  {
    if n > 14 {
      LongListRoom(c, n);
    }
  }

  // -------------------------------------------------------------- a failing input

  const SMALL_PACKETS := Config([], 1, 110)

  /** Packets of 110 bytes, even without common tags: in some run the first batch, of two or
      more metrics, goes out as a message of 114. */
  lemma FirstBatchOverflows() returns (s: State)
    ensures ConfigOk(SMALL_PACKETS) && Reachable(SMALL_PACKETS, s) && |s.store.emitted| == 1
    ensures var e := s.store.emitted[0]; |e.metrics| > 1 && |Packet(SMALL_PACKETS, e)| == 114
  {
    var c := SMALL_PACKETS;
    NoTagsOverhead();
    assert c.Limit() == 88 && c.Limit() / LEAST == 6;
    s := FullFirstBatch(c);
  }

  lemma NoTagsOverhead()
    ensures BatchOverhead([]) == 5
  {
    var empty := MetricBatch([], Some([]));
    assert |MetricListBytes([])| == 1 && |TagSetBytes([])| == 1;
    assert |CommonTagsFieldBytes(1, empty)| == 3;
  }
}
