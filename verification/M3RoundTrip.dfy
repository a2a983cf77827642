/** Reading what was written gives back the value and leaves exactly the bytes that
    followed it, for every type of the wire format. */
module M3RoundTrip {
  import opened Wrappers
  import opened ByteStrings
  import opened CompactProtocol
  import opened TagSets
  import opened M3Types

  lemma CountRoundTrip(v: CountValue, rest: Bytes)
    ensures ReadCount(0, NEW_COUNT, CountBytes(v) + rest) == Got(v, rest)
  {
    if v.i64Value.Some? {
      var i := v.i64Value.value;
      var tail := [STOP] + rest;
      assert CountBytes(v) + rest == FieldHeader(0, 1, C_I64) + (I64Bytes(i) + tail);
      FieldHeaderRoundTrip(0, 1, C_I64, I64Bytes(i) + tail);
      I64RoundTrip(i, tail);
      StopRoundTrip(1, rest);
    } else {
      StopRoundTrip(0, rest);
    }
  }

  lemma DValueRoundTrip(last: int, acc: NumberValue, v: NumberValue, rest: Bytes)
    requires 0 <= last < 2 && acc == v.(dValue := None)
    ensures ReadNumber(last, acc, DValueBytes(last, v) + rest) == Got(v, rest)
  {
    if v.dValue.Some? {
      var d := v.dValue.value;
      var tail := [STOP] + rest;
      assert DValueBytes(last, v) + rest == FieldHeader(last, 2, C_DOUBLE) + (d + tail);
      FieldHeaderRoundTrip(last, 2, C_DOUBLE, d + tail);
      DoubleRoundTrip(d, tail);
      StopRoundTrip(2, rest);
    } else {
      StopRoundTrip(last, rest);
    }
  }

  lemma NumberRoundTrip(v: NumberValue, rest: Bytes)
    ensures ReadNumber(0, NEW_NUMBER, NumberBytes(v) + rest) == Got(v, rest)
  {
    if v.i64Value.Some? {
      var i := v.i64Value.value;
      var tail := DValueBytes(1, v) + rest;
      assert NumberBytes(v) + rest == FieldHeader(0, 1, C_I64) + (I64Bytes(i) + tail);
      FieldHeaderRoundTrip(0, 1, C_I64, I64Bytes(i) + tail);
      I64RoundTrip(i, tail);
      DValueRoundTrip(1, NumberValue(Some(i), None), v, rest);
    } else {
      DValueRoundTrip(0, NEW_NUMBER, v, rest);
    }
  }

  lemma TimerFieldRoundTrip(last: int, acc: MetricValue, v: MetricValue, rest: Bytes)
    requires 0 <= last < 3 && acc == v.(timer := None)
    ensures ReadValue(last, acc, TimerFieldBytes(last, v) + rest) == Got(v, rest)
  {
    if v.timer.Some? {
      var t := v.timer.value;
      var tail := [STOP] + rest;
      assert TimerFieldBytes(last, v) + rest == FieldHeader(last, 3, C_STRUCT) + (NumberBytes(t) + tail);
      FieldHeaderRoundTrip(last, 3, C_STRUCT, NumberBytes(t) + tail);
      NumberRoundTrip(t, tail);
      StopRoundTrip(3, rest);
    } else {
      StopRoundTrip(last, rest);
    }
  }

  lemma GaugeFieldRoundTrip(last: int, acc: MetricValue, v: MetricValue, rest: Bytes)
    requires 0 <= last < 2 && acc == v.(gauge := None, timer := None)
    ensures ReadValue(last, acc, GaugeFieldBytes(last, v) + rest) == Got(v, rest)
  {
    if v.gauge.Some? {
      var g := v.gauge.value;
      var tail := TimerFieldBytes(2, v) + rest;
      assert GaugeFieldBytes(last, v) + rest == FieldHeader(last, 2, C_STRUCT) + (NumberBytes(g) + tail);
      FieldHeaderRoundTrip(last, 2, C_STRUCT, NumberBytes(g) + tail);
      NumberRoundTrip(g, tail);
      TimerFieldRoundTrip(2, acc.(gauge := Some(g)), v, rest);
    } else {
      TimerFieldRoundTrip(last, acc, v, rest);
    }
  }

  lemma ValueRoundTrip(v: MetricValue, rest: Bytes)
    ensures ReadValue(0, NEW_VALUE, ValueBytes(v) + rest) == Got(v, rest)
  {
    if v.count.Some? {
      var c := v.count.value;
      var tail := GaugeFieldBytes(1, v) + rest;
      assert ValueBytes(v) + rest == FieldHeader(0, 1, C_STRUCT) + (CountBytes(c) + tail);
      FieldHeaderRoundTrip(0, 1, C_STRUCT, CountBytes(c) + tail);
      CountRoundTrip(c, tail);
      GaugeFieldRoundTrip(1, NEW_VALUE.(count := Some(c)), v, rest);
    } else {
      GaugeFieldRoundTrip(0, NEW_VALUE, v, rest);
    }
  }

  lemma TagValueRoundTrip(t: MetricTag, rest: Bytes)
    requires TagFits(t)
    ensures ReadTag(1, MetricTag(t.tagName, None), TagValueBytes(t) + rest) == Got(t, rest)
  {
    if t.tagValue.Some? {
      var value := t.tagValue.value;
      var tail := [STOP] + rest;
      assert TagValueBytes(t) + rest == FieldHeader(1, 2, C_BINARY) + (BinaryBytes(value) + tail);
      FieldHeaderRoundTrip(1, 2, C_BINARY, BinaryBytes(value) + tail);
      BinaryRoundTrip(value, tail);
      StopRoundTrip(2, rest);
    } else {
      StopRoundTrip(1, rest);
    }
  }

  lemma TagRoundTrip(t: MetricTag, rest: Bytes)
    requires TagFits(t)
    ensures ReadTag(0, NEW_TAG, TagBytes(t) + rest) == Got(t, rest)
  {
    var tail := TagValueBytes(t) + rest;
    assert TagBytes(t) + rest == FieldHeader(0, 1, C_BINARY) + (BinaryBytes(t.tagName) + tail);
    FieldHeaderRoundTrip(0, 1, C_BINARY, BinaryBytes(t.tagName) + tail);
    BinaryRoundTrip(t.tagName, tail);
    TagValueRoundTrip(t, rest);
  }

  lemma MoveFront(acc: seq<MetricTag>, tags: seq<MetricTag>)
    requires |tags| > 0 && Sorted(acc + tags)
    ensures acc + tags == (acc + [tags[0]]) + tags[1..] && Sorted(acc + [tags[0]])
  {
    assert acc + [tags[0]] == (acc + tags)[..|acc| + 1];
  }

  lemma ReadFirstTag(acc: seq<MetricTag>, tags: seq<MetricTag>, rest: Bytes)
    requires |tags| > 0 && TagFits(tags[0]) && Sorted(acc + [tags[0]])
    ensures ReadTags(|tags|, acc, TagsBytes(tags) + rest)
         == ReadTags(|tags| - 1, acc + [tags[0]], TagsBytes(tags[1..]) + rest)
  {
    var tail := TagsBytes(tags[1..]) + rest;
    assert TagsBytes(tags) + rest == TagBytes(tags[0]) + tail;
    TagRoundTrip(tags[0], tail);
    InsertLast(acc, tags[0]);
  }

  lemma TagsFrontRoundTrip(acc: seq<MetricTag>, tags: seq<MetricTag>, rest: Bytes)
    requires |tags| > 0 && Sorted(acc + tags) && forall t :: t in tags ==> TagFits(t)
    ensures ReadTags(|tags|, acc, TagsBytes(tags) + rest)
         == ReadTags(|tags[1..]|, acc + [tags[0]], TagsBytes(tags[1..]) + rest)
    ensures acc + tags == (acc + [tags[0]]) + tags[1..] && forall t :: t in tags[1..] ==> TagFits(t)
  {
    MoveFront(acc, tags);
    ReadFirstTag(acc, tags, rest);
  }

  lemma NoTagsRoundTrip(acc: seq<MetricTag>, rest: Bytes)
    ensures ReadTags(0, acc, TagsBytes([]) + rest) == Got(acc + [], rest)
  {
    assert TagsBytes([]) + rest == rest && acc + [] == acc;
  }

  lemma {:induction false} TagsRoundTrip(acc: seq<MetricTag>, tags: seq<MetricTag>, rest: Bytes)
    requires Sorted(acc + tags) && forall t :: t in tags ==> TagFits(t)
    ensures ReadTags(|tags|, acc, TagsBytes(tags) + rest) == Got(acc + tags, rest)
    decreases |tags|
  {
    if |tags| == 0 {
      assert tags == [];
      NoTagsRoundTrip(acc, rest);
    } else {
      TagsFrontRoundTrip(acc, tags, rest);
      TagsRoundTrip(acc + [tags[0]], tags[1..], rest);
    }
  }

  lemma TagSetRoundTrip(tags: seq<MetricTag>, rest: Bytes)
    requires TagSetFits(tags)
    ensures ReadTagSet(TagSetBytes(tags) + rest) == Got(tags, rest)
  {
    assert TagSetBytes(tags) + rest == ListHeader(|tags|, C_STRUCT) + (TagsBytes(tags) + rest);
    ListHeaderRoundTrip(|tags|, C_STRUCT, TagsBytes(tags) + rest);
    assert [] + tags == tags;
    TagsRoundTrip([], tags, rest);
  }

  lemma TagsFieldRoundTrip(last: int, acc: Metric, m: Metric, rest: Bytes)
    requires MetricFits(m) && 0 <= last < 4 && acc == m.(tags := None)
    ensures ReadMetric(last, acc, TagsFieldBytes(last, m) + rest) == Got(m, rest)
  {
    if m.tags.Some? {
      var tags := m.tags.value;
      var tail := [STOP] + rest;
      assert TagsFieldBytes(last, m) + rest == FieldHeader(last, 4, C_SET) + (TagSetBytes(tags) + tail);
      FieldHeaderRoundTrip(last, 4, C_SET, TagSetBytes(tags) + tail);
      TagSetRoundTrip(tags, tail);
      StopRoundTrip(4, rest);
    } else {
      StopRoundTrip(last, rest);
    }
  }

  lemma TimestampFieldRoundTrip(last: int, acc: Metric, m: Metric, rest: Bytes)
    requires MetricFits(m) && 0 <= last < 3 && acc == m.(timestamp := None, tags := None)
    ensures ReadMetric(last, acc, TimestampFieldBytes(last, m) + rest) == Got(m, rest)
  {
    if m.timestamp.Some? {
      var i := m.timestamp.value;
      var tail := TagsFieldBytes(3, m) + rest;
      assert TimestampFieldBytes(last, m) + rest == FieldHeader(last, 3, C_I64) + (I64Bytes(i) + tail);
      FieldHeaderRoundTrip(last, 3, C_I64, I64Bytes(i) + tail);
      I64RoundTrip(i, tail);
      TagsFieldRoundTrip(3, acc.(timestamp := Some(i)), m, rest);
    } else {
      TagsFieldRoundTrip(last, acc, m, rest);
    }
  }

  lemma ValueFieldRoundTrip(acc: Metric, m: Metric, rest: Bytes)
    requires MetricFits(m) && acc == Metric(m.name, None, None, None)
    ensures ReadMetric(1, acc, ValueFieldBytes(1, m) + rest) == Got(m, rest)
  {
    if m.metricValue.Some? {
      var v := m.metricValue.value;
      var tail := TimestampFieldBytes(2, m) + rest;
      assert ValueFieldBytes(1, m) + rest == FieldHeader(1, 2, C_STRUCT) + (ValueBytes(v) + tail);
      FieldHeaderRoundTrip(1, 2, C_STRUCT, ValueBytes(v) + tail);
      ValueRoundTrip(v, tail);
      TimestampFieldRoundTrip(2, acc.(metricValue := Some(v)), m, rest);
    } else {
      TimestampFieldRoundTrip(1, acc, m, rest);
    }
  }

  lemma MetricRoundTrip(m: Metric, rest: Bytes)
    requires MetricFits(m)
    ensures ReadMetric(0, NEW_METRIC, MetricBytes(m) + rest) == Got(m, rest)
  {
    var tail := ValueFieldBytes(1, m) + rest;
    assert MetricBytes(m) + rest == FieldHeader(0, 1, C_BINARY) + (BinaryBytes(m.name) + tail);
    FieldHeaderRoundTrip(0, 1, C_BINARY, BinaryBytes(m.name) + tail);
    BinaryRoundTrip(m.name, tail);
    ValueFieldRoundTrip(NEW_METRIC.(name := m.name), m, rest);
  }

  lemma ReadFirstMetric(acc: seq<Metric>, metrics: seq<Metric>, rest: Bytes)
    requires |metrics| > 0 && MetricFits(metrics[0])
    ensures ReadMetrics(|metrics|, acc, MetricsBytes(metrics) + rest)
         == ReadMetrics(|metrics| - 1, acc + [metrics[0]], MetricsBytes(metrics[1..]) + rest)
  {
    var tail := MetricsBytes(metrics[1..]) + rest;
    assert MetricsBytes(metrics) + rest == MetricBytes(metrics[0]) + tail;
    MetricRoundTrip(metrics[0], tail);
  }

  lemma MoveMetric(acc: seq<Metric>, metrics: seq<Metric>)
    requires |metrics| > 0
    ensures acc + metrics == (acc + [metrics[0]]) + metrics[1..]
  {
  }

  lemma {:induction false} MetricsRoundTrip(acc: seq<Metric>, metrics: seq<Metric>, rest: Bytes)
    requires forall m :: m in metrics ==> MetricFits(m)
    ensures ReadMetrics(|metrics|, acc, MetricsBytes(metrics) + rest) == Got(acc + metrics, rest)
    decreases |metrics|
  {
    if |metrics| == 0 {
      assert MetricsBytes(metrics) + rest == rest;
      assert acc + metrics == acc;
    } else {
      MoveMetric(acc, metrics);
      ReadFirstMetric(acc, metrics, rest);
      MetricsRoundTrip(acc + [metrics[0]], metrics[1..], rest);
    }
  }

  lemma MetricListRoundTrip(metrics: seq<Metric>, rest: Bytes)
    requires |metrics| < TWO_31 && forall m :: m in metrics ==> MetricFits(m)
    ensures ReadMetricList(MetricListBytes(metrics) + rest) == Got(metrics, rest)
  {
    var tail := MetricsBytes(metrics) + rest;
    assert MetricListBytes(metrics) + rest == ListHeader(|metrics|, C_STRUCT) + tail;
    ListHeaderRoundTrip(|metrics|, C_STRUCT, tail);
    assert [] + metrics == metrics;
    MetricsRoundTrip([], metrics, rest);
  }

  lemma CommonTagsRoundTrip(acc: MetricBatch, b: MetricBatch, rest: Bytes)
    requires BatchFits(b) && acc == b.(commonTags := None)
    ensures ReadBatch(1, acc, CommonTagsFieldBytes(1, b) + rest) == Got(b, rest)
  {
    if b.commonTags.Some? {
      var tags := b.commonTags.value;
      var tail := [STOP] + rest;
      assert CommonTagsFieldBytes(1, b) + rest == FieldHeader(1, 2, C_SET) + (TagSetBytes(tags) + tail);
      FieldHeaderRoundTrip(1, 2, C_SET, TagSetBytes(tags) + tail);
      TagSetRoundTrip(tags, tail);
      StopRoundTrip(2, rest);
    } else {
      StopRoundTrip(1, rest);
    }
  }

  lemma MetricsFieldRoundTrip(metrics: seq<Metric>, tail: Bytes)
    requires |metrics| < TWO_31 && forall m :: m in metrics ==> MetricFits(m)
    ensures ReadBatch(0, NEW_BATCH, FieldHeader(0, 1, C_LIST) + (MetricListBytes(metrics) + tail))
         == ReadBatch(1, NEW_BATCH.(metrics := metrics), tail)
  {
    FieldHeaderRoundTrip(0, 1, C_LIST, MetricListBytes(metrics) + tail);
    MetricListRoundTrip(metrics, tail);
  }

  /** Codec round trip: a well-formed batch, read back into a fresh object, is that
      batch, and the reader stops exactly where the writer stopped. */
  lemma BatchRoundTrip(b: MetricBatch, rest: Bytes)
    requires BatchFits(b)
    ensures ReadBatch(0, NEW_BATCH, BatchBytes(b) + rest) == Got(b, rest)
  {
    var tail := CommonTagsFieldBytes(1, b) + rest;
    assert BatchBytes(b) + rest == FieldHeader(0, 1, C_LIST) + (MetricListBytes(b.metrics) + tail);
    MetricsFieldRoundTrip(b.metrics, tail);
    CommonTagsRoundTrip(NEW_BATCH.(metrics := b.metrics), b, rest);
  }

  /** So no two batches share an encoding, nor is one encoding a prefix of another. */
  lemma BatchEncodingIsPrefixFree(a: MetricBatch, b: MetricBatch, more: Bytes)
    requires BatchFits(a) && BatchFits(b)
    requires BatchBytes(b) == BatchBytes(a) + more
    ensures a == b && more == []
  {
    BatchRoundTrip(a, more);
    BatchRoundTrip(b, []);
    assert BatchBytes(b) + [] == BatchBytes(b);
  }
}
