/** The data the M3 reporter shares between threads, the estimator its background thread
    owns, and the atomic actions on them: one function for each section that runs under a
    mutex or touches thread-local state only. */
module ReporterState {
  import opened Wrappers
  import opened ByteStrings
  import opened CompactProtocol
  import opened TagSets
  import opened M3Types
  import opened M3Client

  datatype Config = Config(commonTags: seq<MetricTag>, maxQueueSize: nat, maxPacketSize: nat) {
    /** `max_packet_size_`: a fifth of the packet is kept for the encoding. */
    function Limit(): nat {
      (maxPacketSize / 5) * 4
    }

    /** What a fresh estimator is charged with after an overflow. */
    function Overhead(): nat {
      BatchOverhead(commonTags)
    }
  }

  const QUARTER: nat := 0x4000_0000

  ghost predicate ConfigOk(c: Config) {
    c.maxPacketSize < 0x1_0000 && c.maxQueueSize < TWO_32 && TagSetFits(c.commonTags) && c.Overhead() <= QUARTER
  }

  /** A metric the protocol can carry; the bound keeps the 32-bit estimator from wrapping. */
  ghost predicate Encodable(m: Metric) {
    MetricFits(m) && |MetricBytes(m)| <= QUARTER
  }

  /** What is reported: a counter's delta, a gauge's value, or a timer's duration. */
  datatype Reading = CounterReading(delta: Int64) | GaugeReading(value: Double) | TimerReading(nanos: Int64)

  /** `CreateCounter`, `CreateGauge` and `CreateTimer`. */
  function CreateValue(reading: Reading): MetricValue {
    match reading
    case CounterReading(delta) => MetricValue(Some(CountValue(Some(delta))), None, None)
    case GaugeReading(value) => MetricValue(None, Some(NumberValue(None, Some(value))), None)
    case TimerReading(nanos) => MetricValue(None, None, Some(NumberValue(Some(nanos), None)))
  }

  /** The metrics that `ReportMetric` makes, the only ones to be enqueued: every member is
      set, the value is one reading, and every tag has a value. */
  ghost predicate FromReport(m: Metric) {
    && m.timestamp.Some? && m.tags.Some? && (forall t :: t in m.tags.value ==> t.tagValue.Some?)
    && m.metricValue.Some? && exists reading :: m.metricValue.value == CreateValue(reading)
  }

  /** A batch as handed to the client: `epoch` counts the estimator resets before it, and
      `delivered` is false when the client threw. */
  datatype Emission = Emission(metrics: seq<Metric>, epoch: nat, delivered: bool)

  datatype Store = Store(
    run: bool,
    queue: seq<Metric>,
    batch: seq<Metric>,           // emission_batch_.metrics
    written: nat,                 // the estimator's counter
    since: Bytes,                 // history: what the estimator was shown since its last reset
    resets: nat,                  // history: how often it was reset
    emitted: seq<Emission>,       // history: batches handed to the client
    accepted: seq<Metric>)        // history: metrics put on the queue

  const INITIAL: Store := Store(true, [], [], 0, [], 0, [], [])

  function Flat(emitted: seq<Emission>): seq<Metric> {
    if |emitted| == 0 then [] else Flat(emitted[..|emitted| - 1]) + emitted[|emitted| - 1].metrics
  }

  lemma FlatAppend(emitted: seq<Emission>, e: Emission)
    ensures Flat(emitted + [e]) == Flat(emitted) + e.metrics
  {
    assert (emitted + [e])[..|emitted|] == emitted;
  }

  /** Everything the background thread is done with, in the order it was done. */
  function Handed(s: Store): seq<Metric> {
    Flat(s.emitted) + s.batch
  }

  // --------------------------------------------------------------- atomic actions

  /** Full means exactly at the maximum: the code compares with ==. */
  predicate Accepts(c: Config, s: Store) {
    s.run && |s.queue| != c.maxQueueSize
  }

  function EnqueueMetric(c: Config, s: Store, m: Metric): Store {
    if !Accepts(c, s) then s
    else s.(queue := s.queue + [m], accepted := s.accepted + [m])
  }

  function FlushBatch(s: Store, delivered: bool): Store {
    if s.batch == [] then s
    else s.(batch := [], emitted := s.emitted + [Emission(s.batch, s.resets, delivered)])
  }

  lemma FlushKeepsHanded(s: Store, delivered: bool)
    ensures Handed(FlushBatch(s, delivered)) == Handed(s)
  {
    FlatAppend(s.emitted, Emission(s.batch, s.resets, delivered));
  }

  function Estimate(s: Store, m: Metric): Store {
    s.(written := Mod32(s.written + |MetricBytes(m)|), since := s.since + MetricBytes(m))
  }

  function ResetEstimate(c: Config, s: Store, m: Metric): Store {
    var shown := BatchBytes(MetricBatch([], Some(c.commonTags))) + MetricBytes(m);
    s.(written := Mod32(|shown|), since := shown, resets := s.resets + 1)
  }

  function AppendMetric(s: Store, m: Metric): Store {
    s.(batch := s.batch + [m])
  }

  /** `Process` when no other thread runs in between. */
  function ProcessAlone(c: Config, s: Store, m: Metric, delivered: bool): Store {
    var s1 := Estimate(s, m);
    if s1.written > c.Limit() then AppendMetric(ResetEstimate(c, FlushBatch(s1, delivered), m), m)
    else AppendMetric(s1, m)
  }
}
