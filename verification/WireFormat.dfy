/** The bytes on the wire, written out with the numbers of the compact protocol's standard and
    of the Thrift definition: what any other implementation would have to read. */
module WireFormat {
  import opened ByteStrings
  import opened CompactProtocol
  import opened TagSets
  import opened M3Types
  import opened M3Client
  import opened ReporterState

  // ---------------------------------------------------------------------- integers

  /** Seven bits a byte, the least significant ones first. */
  function Septets(s: Bytes): nat {
    if |s| == 0 then 0 else s[0] % 0x80 + 0x80 * Septets(s[1..])
  }

  /** A varint carries its number in septets, marks every byte but the last, and is as short as
      that allows: so it is the only one. */
  lemma {:induction false} VarintOnTheWire(n: nat)
    ensures var s := Varint(n);
      && Septets(s) == n
      && (forall i :: 0 <= i < |s| - 1 ==> s[i] >= 0x80)
      && s[|s| - 1] < 0x80 && (|s| > 1 ==> s[|s| - 1] != 0)
  {
    if n >= 0x80 {
      VarintOnTheWire(n / 0x80);
      assert Varint(n)[1..] == Varint(n / 0x80);
    }
  }

  /** A signed integer is written with its sign in the lowest bit. */
  lemma SignedOnTheWire(v: Int64)
    ensures v >= 0 ==> I64Bytes(v) == Varint(2 * v)
    ensures v < 0 ==> I64Bytes(v) == Varint(-2 * v - 1)
  {
  }

  lemma SomeIntegers()
    ensures Varint(0) == [0x00] && Varint(300) == [0xAC, 0x02]
    ensures I64Bytes(0) == [0x00] && I64Bytes(-1) == [0x01] && I64Bytes(1) == [0x02] && I64Bytes(-150) == [0xAB, 0x02]
  {
    assert Varint(2) == [0x02];
  }

  /** A string is its length and its bytes. */
  lemma StringOnTheWire(s: Bytes)
    ensures BinaryBytes(s) == Varint(|s|) + s
  {
  }

  /** A list or a set of structs: up to 14 elements are counted in the high half of one byte. */
  lemma ContainerOnTheWire(n: nat)
    ensures n <= 14 ==> ListHeader(n, 0x0C) == [0x10 * n + 0x0C]
    ensures n > 14 ==> ListHeader(n, 0x0C) == [0xFC] + Varint(n)
  {
  }

  // ----------------------------------------------------------------------- structs

  // The first byte of a field is sixteen times its distance to the field before it, plus its
  // type: 6 for an i64, 7 for a double, 8 for a string, 9 for a list, 10 for a set and 12 for a
  // struct.  A zero byte ends a struct.

  lemma CountOnTheWire(v: CountValue)
    ensures CountBytes(v) == (if v.i64Value.Some? then [0x16] + I64Bytes(v.i64Value.value) else []) + [0x00]
  {
  }

  lemma NumberOnTheWire(v: NumberValue)
    ensures NumberBytes(v) ==
      (if v.i64Value.Some? then [0x16] + I64Bytes(v.i64Value.value) else [])
      + (if v.dValue.Some? then [if v.i64Value.Some? then 0x17 else 0x27] + v.dValue.value else [])
      + [0x00]
  {
  }

  function CountPart(v: MetricValue): Bytes {
    if v.count.Some? then [0x1C] + CountBytes(v.count.value) else []
  }

  function GaugePart(v: MetricValue): Bytes {
    if v.gauge.Some? then [if v.count.Some? then 0x1C else 0x2C] + NumberBytes(v.gauge.value) else []
  }

  function TimerPart(v: MetricValue): Bytes {
    if v.timer.Some?
    then [if v.gauge.Some? then 0x1C else if v.count.Some? then 0x2C else 0x3C] + NumberBytes(v.timer.value)
    else []
  }

  lemma TimerFieldOnTheWire(last: int, v: MetricValue)
    requires last == (if v.gauge.Some? then 2 else if v.count.Some? then 1 else 0)
    ensures TimerFieldBytes(last, v) == TimerPart(v) + [0x00]
  {
  }

  lemma GaugeFieldOnTheWire(last: int, v: MetricValue)
    requires last == if v.count.Some? then 1 else 0
    ensures GaugeFieldBytes(last, v) == GaugePart(v) + (TimerPart(v) + [0x00])
  {
    TimerFieldOnTheWire(if v.gauge.Some? then 2 else last, v);
  }

  lemma ValueOnTheWire(v: MetricValue)
    ensures ValueBytes(v) == CountPart(v) + (GaugePart(v) + (TimerPart(v) + [0x00]))
  {
    GaugeFieldOnTheWire(if v.count.Some? then 1 else 0, v);
  }

  /** What is reported is told apart by the field of the value: 1 for a counter, 2 for a gauge
      and 3 for a timer. */
  lemma ReadingOnTheWire(reading: Reading)
    ensures ValueBytes(CreateValue(reading)) ==
      (match reading
       case CounterReading(delta) => [0x1C, 0x16] + I64Bytes(delta) + [0x00, 0x00]
       case GaugeReading(value) => [0x2C, 0x27] + value + [0x00, 0x00]
       case TimerReading(nanos) => [0x3C, 0x16] + I64Bytes(nanos) + [0x00, 0x00])
  {
    var v := CreateValue(reading);
    ValueOnTheWire(v);
    match reading
    case CounterReading(delta) =>
      CountOnTheWire(v.count.value);
      Around(0x1C, 0x16, I64Bytes(delta));
    case GaugeReading(value) =>
      NumberOnTheWire(v.gauge.value);
      Around(0x2C, 0x27, value);
    case TimerReading(nanos) =>
      NumberOnTheWire(v.timer.value);
      Around(0x3C, 0x16, I64Bytes(nanos));
  }

  lemma Around(field: Byte, inner: Byte, body: Bytes)
    ensures [field] + (([inner] + body) + [0x00]) + [0x00] == [field, inner] + body + [0x00, 0x00]
    ensures [field] + (([inner] + body) + [] + [0x00]) + [0x00] == [field, inner] + body + [0x00, 0x00]
    ensures [field] + ([] + ([inner] + body) + [0x00]) + [0x00] == [field, inner] + body + [0x00, 0x00]
  {
  }

  lemma TagOnTheWire(t: MetricTag)
    ensures TagBytes(t) ==
      [0x18] + BinaryBytes(t.tagName)
      + (if t.tagValue.Some? then [0x18] + BinaryBytes(t.tagValue.value) else [])
      + [0x00]
  {
  }

  /** The tags follow each other in their order. */
  lemma {:induction false} TagsOnTheWire(a: seq<MetricTag>, b: seq<MetricTag>)
    ensures TagsBytes(a + b) == TagsBytes(a) + TagsBytes(b)
  {
    if |a| == 0 {
      assert a + b == b;
    } else {
      assert (a + b)[1..] == a[1..] + b;
      TagsOnTheWire(a[1..], b);
      Join(TagBytes(a[0]), TagsBytes(a[1..]), TagsBytes(b));
    }
  }

  lemma TagSetOnTheWire(tags: seq<MetricTag>)
    ensures TagSetBytes(tags) == ListHeader(|tags|, 0x0C) + TagsBytes(tags)
    ensures tags == [] ==> TagsBytes(tags) == []
    ensures |tags| == 1 ==> TagsBytes(tags) == TagBytes(tags[0])
  {
  }

  function ValuePart(m: Metric): Bytes {
    if m.metricValue.Some? then [0x1C] + ValueBytes(m.metricValue.value) else []
  }

  function TimestampPart(m: Metric): Bytes {
    if m.timestamp.Some?
    then [if m.metricValue.Some? then 0x16 else 0x26] + I64Bytes(m.timestamp.value)
    else []
  }

  function TagsPart(m: Metric): Bytes {
    if m.tags.Some?
    then [if m.timestamp.Some? then 0x1A else if m.metricValue.Some? then 0x2A else 0x3A] + TagSetBytes(m.tags.value)
    else []
  }

  lemma TagsFieldOnTheWire(last: int, m: Metric)
    requires last == (if m.timestamp.Some? then 3 else if m.metricValue.Some? then 2 else 1)
    ensures TagsFieldBytes(last, m) == TagsPart(m) + [0x00]
  {
  }

  lemma TimestampFieldOnTheWire(last: int, m: Metric)
    requires last == if m.metricValue.Some? then 2 else 1
    ensures TimestampFieldBytes(last, m) == TimestampPart(m) + (TagsPart(m) + [0x00])
  {
    TagsFieldOnTheWire(if m.timestamp.Some? then 3 else last, m);
  }

  lemma MetricOnTheWire(m: Metric)
    ensures MetricBytes(m) ==
      [0x18] + BinaryBytes(m.name) + (ValuePart(m) + (TimestampPart(m) + (TagsPart(m) + [0x00])))
  {
    TimestampFieldOnTheWire(if m.metricValue.Some? then 2 else 1, m);
  }

  lemma {:induction false} MetricsOnTheWire(a: seq<Metric>, b: seq<Metric>)
    ensures MetricsBytes([]) == []
    ensures MetricsBytes(a + b) == MetricsBytes(a) + MetricsBytes(b)
    ensures |a| == 1 ==> MetricsBytes(a) == MetricBytes(a[0])
  {
    MetricsBytesConcat(a, b);
  }

  lemma BatchOnTheWire(b: MetricBatch)
    ensures BatchBytes(b) ==
      [0x19] + (ListHeader(|b.metrics|, 0x0C) + MetricsBytes(b.metrics))
      + ((if b.commonTags.Some? then [0x1A] + TagSetBytes(b.commonTags.value) else []) + [0x00])
  {
  }

  // ----------------------------------------------------------------------- messages

  /** Protocol 0x82; kind 4, one-way, over version 1; sequence number 0; the 15 letters of
      emitMetricBatch; and the only argument, field 1, a struct. */
  const PREAMBLE: Bytes :=
    [0x82, 0x81, 0x00, 0x0F, 101, 109, 105, 116, 77, 101, 116, 114, 105, 99, 66, 97, 116, 99, 104, 0x1C]

  lemma HeaderOnTheWire()
    ensures MessageHeader(METHOD_NAME, T_ONEWAY, 0) + [0x1C] == PREAMBLE
  {
    assert Varint(0) == [0x00] && Varint(15) == [0x0F];
  }

  lemma MessageOnTheWire(b: MetricBatch)
    ensures |MessageBytes(b)| > 20 && MessageBytes(b)[..20] == PREAMBLE
    ensures MessageBytes(b)[20..] == BatchBytes(b) + [0x00]
  {
    HeaderOnTheWire();
    assert ArgsBytes(b) == [0x1C] + (BatchBytes(b) + [0x00]);
    Join(MessageHeader(METHOD_NAME, T_ONEWAY, 0), [0x1C], BatchBytes(b) + [0x00]);
    Cut(PREAMBLE, BatchBytes(b) + [0x00]);
  }

  lemma MessageIsPreambleAndBatch(b: MetricBatch)
    ensures MessageBytes(b) == PREAMBLE + (BatchBytes(b) + [0x00])
  {
    MessageOnTheWire(b);
    assert MessageBytes(b) == MessageBytes(b)[..20] + MessageBytes(b)[20..];
  }

  lemma Join(a: Bytes, b: Bytes, c: Bytes)
    ensures a + (b + c) == (a + b) + c
  {
  }

  lemma Cut(a: Bytes, b: Bytes)
    ensures (a + b)[..|a|] == a && (a + b)[|a|..] == b
  {
  }
}
