/** The M3 wire types: what `write` puts on a compact protocol and what `read` takes
    from one, as functions.  An optional member with its `__isset` flag is an `Option`:
    the generated equality ignores the value of a member whose flag is off. */
module M3Types {
  import opened Wrappers
  import opened ByteStrings
  import opened CompactProtocol
  import opened TagSets

  datatype CountValue = CountValue(i64Value: Option<Int64>)

  /** `GaugeValue` and `TimerValue`: two structs with the same members and the same code. */
  datatype NumberValue = NumberValue(i64Value: Option<Int64>, dValue: Option<Double>)

  datatype MetricValue = MetricValue(count: Option<CountValue>, gauge: Option<NumberValue>, timer: Option<NumberValue>)

  datatype Metric = Metric(
    name: Bytes, metricValue: Option<MetricValue>, timestamp: Option<Int64>, tags: Option<seq<MetricTag>>)

  datatype MetricBatch = MetricBatch(metrics: seq<Metric>, commonTags: Option<seq<MetricTag>>)

  // The objects a default constructor makes.
  const NEW_COUNT := CountValue(None)
  const NEW_NUMBER := NumberValue(None, None)
  const NEW_VALUE := MetricValue(None, None, None)
  const NEW_TAG := MetricTag([], None)
  const NEW_METRIC := Metric([], None, None, None)
  const NEW_BATCH := MetricBatch([], None)

  // ------------------------------------------------------------ well-formedness

  predicate TagFits(t: MetricTag) {
    |t.tagName| < TWO_31 && |t.Text()| < TWO_31
  }

  ghost predicate TagSetFits(tags: seq<MetricTag>) {
    |tags| < TWO_31 && Sorted(tags) && forall t :: t in tags ==> TagFits(t)
  }

  /** A metric in the protocol's range: 31-bit lengths, and tags that form a set. */
  ghost predicate MetricFits(m: Metric) {
    |m.name| < TWO_31 && (m.tags.Some? ==> TagSetFits(m.tags.value))
  }

  ghost predicate BatchFits(b: MetricBatch) {
    && |b.metrics| < TWO_31
    && (forall m :: m in b.metrics ==> MetricFits(m))
    && (b.commonTags.Some? ==> TagSetFits(b.commonTags.value))
  }

  // -------------------------------------------------------------------- writing

  function CountBytes(v: CountValue): Bytes {
    if v.i64Value.Some? then FieldHeader(0, 1, C_I64) + I64Bytes(v.i64Value.value) + [STOP] else [STOP]
  }

  function DValueBytes(last: int, v: NumberValue): Bytes {
    if v.dValue.Some? then FieldHeader(last, 2, C_DOUBLE) + v.dValue.value + [STOP] else [STOP]
  }

  function NumberBytes(v: NumberValue): Bytes {
    if v.i64Value.Some? then FieldHeader(0, 1, C_I64) + I64Bytes(v.i64Value.value) + DValueBytes(1, v)
    else DValueBytes(0, v)
  }

  function TimerFieldBytes(last: int, v: MetricValue): Bytes {
    if v.timer.Some? then FieldHeader(last, 3, C_STRUCT) + NumberBytes(v.timer.value) + [STOP] else [STOP]
  }

  function GaugeFieldBytes(last: int, v: MetricValue): Bytes {
    if v.gauge.Some? then FieldHeader(last, 2, C_STRUCT) + NumberBytes(v.gauge.value) + TimerFieldBytes(2, v)
    else TimerFieldBytes(last, v)
  }

  function ValueBytes(v: MetricValue): Bytes {
    if v.count.Some? then FieldHeader(0, 1, C_STRUCT) + CountBytes(v.count.value) + GaugeFieldBytes(1, v)
    else GaugeFieldBytes(0, v)
  }

  function TagValueBytes(t: MetricTag): Bytes {
    if t.tagValue.Some? then FieldHeader(1, 2, C_BINARY) + BinaryBytes(t.tagValue.value) + [STOP] else [STOP]
  }

  function TagBytes(t: MetricTag): Bytes {
    FieldHeader(0, 1, C_BINARY) + BinaryBytes(t.tagName) + TagValueBytes(t)
  }

  function TagsBytes(tags: seq<MetricTag>): Bytes {
    if |tags| == 0 then [] else TagBytes(tags[0]) + TagsBytes(tags[1..])
  }

  function TagSetBytes(tags: seq<MetricTag>): Bytes {
    ListHeader(|tags|, C_STRUCT) + TagsBytes(tags)
  }

  function TagsFieldBytes(last: int, m: Metric): Bytes {
    if m.tags.Some? then FieldHeader(last, 4, C_SET) + TagSetBytes(m.tags.value) + [STOP] else [STOP]
  }

  function TimestampFieldBytes(last: int, m: Metric): Bytes {
    if m.timestamp.Some? then FieldHeader(last, 3, C_I64) + I64Bytes(m.timestamp.value) + TagsFieldBytes(3, m)
    else TagsFieldBytes(last, m)
  }

  function ValueFieldBytes(last: int, m: Metric): Bytes {
    if m.metricValue.Some?
    then FieldHeader(last, 2, C_STRUCT) + ValueBytes(m.metricValue.value) + TimestampFieldBytes(2, m)
    else TimestampFieldBytes(last, m)
  }

  function MetricBytes(m: Metric): Bytes {
    FieldHeader(0, 1, C_BINARY) + BinaryBytes(m.name) + ValueFieldBytes(1, m)
  }

  function MetricsBytes(metrics: seq<Metric>): Bytes {
    if |metrics| == 0 then [] else MetricBytes(metrics[0]) + MetricsBytes(metrics[1..])
  }

  function MetricListBytes(metrics: seq<Metric>): Bytes {
    ListHeader(|metrics|, C_STRUCT) + MetricsBytes(metrics)
  }

  function CommonTagsFieldBytes(last: int, b: MetricBatch): Bytes {
    if b.commonTags.Some? then FieldHeader(last, 2, C_SET) + TagSetBytes(b.commonTags.value) + [STOP] else [STOP]
  }

  function BatchBytes(b: MetricBatch): Bytes {
    FieldHeader(0, 1, C_LIST) + MetricListBytes(b.metrics) + CommonTagsFieldBytes(1, b)
  }

  // -------------------------------------------------------------------- reading

  // Each reader fills in an existing object: `acc` is the object so far and `last` the
  // previous field's identifier.  A field with an unknown identifier, or a known one
  // with another type, is skipped.

  function ReadCount(last: int, acc: CountValue, input: Bytes): (r: Parse<CountValue>)
    ensures r.Got? ==> |r.rest| < |input|
    decreases |input|
  {
    var (header, rest) :- ReadFieldHeader(last, input);
    match header
    case Stop => Got(acc, rest)
    case Field(code, id) =>
      if id == 1 && code == C_I64 then
        var (v, rest') :- ReadI64(rest);
        ReadCount(id, acc.(i64Value := Some(v)), rest')
      else
        var (_, rest') :- Skip(code, true, rest);
        ReadCount(id, acc, rest')
  }

  function ReadNumber(last: int, acc: NumberValue, input: Bytes): (r: Parse<NumberValue>)
    ensures r.Got? ==> |r.rest| < |input|
    decreases |input|
  {
    var (header, rest) :- ReadFieldHeader(last, input);
    match header
    case Stop => Got(acc, rest)
    case Field(code, id) =>
      if id == 1 && code == C_I64 then
        var (v, rest') :- ReadI64(rest);
        ReadNumber(id, acc.(i64Value := Some(v)), rest')
      else if id == 2 && code == C_DOUBLE then
        var (v, rest') :- ReadDouble(rest);
        ReadNumber(id, acc.(dValue := Some(v)), rest')
      else
        var (_, rest') :- Skip(code, true, rest);
        ReadNumber(id, acc, rest')
  }

  function ReadValue(last: int, acc: MetricValue, input: Bytes): (r: Parse<MetricValue>)
    ensures r.Got? ==> |r.rest| < |input|
    decreases |input|
  {
    var (header, rest) :- ReadFieldHeader(last, input);
    match header
    case Stop => Got(acc, rest)
    case Field(code, id) =>
      if id == 1 && code == C_STRUCT then
        var (v, rest') :- ReadCount(0, acc.count.GetOr(NEW_COUNT), rest);
        ReadValue(id, acc.(count := Some(v)), rest')
      else if id == 2 && code == C_STRUCT then
        var (v, rest') :- ReadNumber(0, acc.gauge.GetOr(NEW_NUMBER), rest);
        ReadValue(id, acc.(gauge := Some(v)), rest')
      else if id == 3 && code == C_STRUCT then
        var (v, rest') :- ReadNumber(0, acc.timer.GetOr(NEW_NUMBER), rest);
        ReadValue(id, acc.(timer := Some(v)), rest')
      else
        var (_, rest') :- Skip(code, true, rest);
        ReadValue(id, acc, rest')
  }

  function ReadTag(last: int, acc: MetricTag, input: Bytes): (r: Parse<MetricTag>)
    ensures r.Got? ==> |r.rest| < |input|
    decreases |input|
  {
    var (header, rest) :- ReadFieldHeader(last, input);
    match header
    case Stop => Got(acc, rest)
    case Field(code, id) =>
      if id == 1 && code == C_BINARY then
        var (v, rest') :- ReadBinary(rest);
        ReadTag(id, acc.(tagName := v), rest')
      else if id == 2 && code == C_BINARY then
        var (v, rest') :- ReadBinary(rest);
        ReadTag(id, acc.(tagValue := Some(v)), rest')
      else
        var (_, rest') :- Skip(code, true, rest);
        ReadTag(id, acc, rest')
  }

  /** Reads `n` tags, each into a fresh object that is then inserted into the set. */
  function ReadTags(n: nat, acc: seq<MetricTag>, input: Bytes): (r: Parse<seq<MetricTag>>)
    ensures r.Got? ==> |r.rest| <= |input|
  {
    if n == 0 then Got(acc, input)
    else
      var (t, rest) :- ReadTag(0, NEW_TAG, input);
      ReadTags(n - 1, Insert(acc, t), rest)
  }

  /** The generated code ignores the element type that the set header announces. */
  function ReadTagSet(input: Bytes): (r: Parse<seq<MetricTag>>)
    ensures r.Got? ==> |r.rest| < |input|
  {
    var (header, rest) :- ReadListHeader(input);
    ReadTags(header.1, [], rest)
  }

  function ReadMetric(last: int, acc: Metric, input: Bytes): (r: Parse<Metric>)
    ensures r.Got? ==> |r.rest| < |input|
    decreases |input|
  {
    var (header, rest) :- ReadFieldHeader(last, input);
    match header
    case Stop => Got(acc, rest)
    case Field(code, id) =>
      if id == 1 && code == C_BINARY then
        var (v, rest') :- ReadBinary(rest);
        ReadMetric(id, acc.(name := v), rest')
      else if id == 2 && code == C_STRUCT then
        var (v, rest') :- ReadValue(0, acc.metricValue.GetOr(NEW_VALUE), rest);
        ReadMetric(id, acc.(metricValue := Some(v)), rest')
      else if id == 3 && code == C_I64 then
        var (v, rest') :- ReadI64(rest);
        ReadMetric(id, acc.(timestamp := Some(v)), rest')
      else if id == 4 && code == C_SET then
        var (v, rest') :- ReadTagSet(rest);
        ReadMetric(id, acc.(tags := Some(v)), rest')
      else
        var (_, rest') :- Skip(code, true, rest);
        ReadMetric(id, acc, rest')
  }

  function ReadMetrics(n: nat, acc: seq<Metric>, input: Bytes): (r: Parse<seq<Metric>>)
    ensures r.Got? ==> |r.rest| <= |input|
  {
    if n == 0 then Got(acc, input)
    else
      var (m, rest) :- ReadMetric(0, NEW_METRIC, input);
      ReadMetrics(n - 1, acc + [m], rest)
  }

  function ReadMetricList(input: Bytes): (r: Parse<seq<Metric>>)
    ensures r.Got? ==> |r.rest| < |input|
  {
    var (header, rest) :- ReadListHeader(input);
    ReadMetrics(header.1, [], rest)
  }

  function ReadBatch(last: int, acc: MetricBatch, input: Bytes): (r: Parse<MetricBatch>)
    ensures r.Got? ==> |r.rest| < |input|
    decreases |input|
  {
    var (header, rest) :- ReadFieldHeader(last, input);
    match header
    case Stop => Got(acc, rest)
    case Field(code, id) =>
      if id == 1 && code == C_LIST then
        var (v, rest') :- ReadMetricList(rest);
        ReadBatch(id, acc.(metrics := v), rest')
      else if id == 2 && code == C_SET then
        var (v, rest') :- ReadTagSet(rest);
        ReadBatch(id, acc.(commonTags := Some(v)), rest')
      else
        var (_, rest') :- Skip(code, true, rest);
        ReadBatch(id, acc, rest')
  }
}
