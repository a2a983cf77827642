/** What each reader does with one field, whatever was read before: a known field sets its
    member, a repeated one replaces or extends it, and any other field is skipped.  And skipping
    consumes exactly what a writer wrote. */
module WireReading {
  import opened Wrappers
  import opened ByteStrings
  import opened CompactProtocol
  import opened TagSets
  import opened M3Types
  import opened M3RoundTrip

  lemma RegroupField(a: Bytes, b: Bytes, c: Bytes, rest: Bytes)
    ensures a + b + c + rest == a + (b + (c + rest)) == a + b + (c + rest)
  {
  }

  predicate Id16(id: int) {
    -0x8000 <= id < 0x8000
  }

  // -------------------------------------------------------------------- known fields

  lemma CountValueRead(last: int, acc: CountValue, v: Int64, rest: Bytes)
    requires Id16(last)
    ensures ReadCount(last, acc, FieldHeader(last, 1, 6) + (I64Bytes(v) + rest))
         == ReadCount(1, acc.(i64Value := Some(v)), rest)
  {
    FieldHeaderRoundTrip(last, 1, 6, I64Bytes(v) + rest);
    I64RoundTrip(v, rest);
  }

  lemma NumberI64Read(last: int, acc: NumberValue, v: Int64, rest: Bytes)
    requires Id16(last)
    ensures ReadNumber(last, acc, FieldHeader(last, 1, 6) + (I64Bytes(v) + rest))
         == ReadNumber(1, acc.(i64Value := Some(v)), rest)
  {
    FieldHeaderRoundTrip(last, 1, 6, I64Bytes(v) + rest);
    I64RoundTrip(v, rest);
  }

  lemma NumberDoubleRead(last: int, acc: NumberValue, v: Double, rest: Bytes)
    requires Id16(last)
    ensures ReadNumber(last, acc, FieldHeader(last, 2, 7) + (v + rest))
         == ReadNumber(2, acc.(dValue := Some(v)), rest)
  {
    FieldHeaderRoundTrip(last, 2, 7, v + rest);
    DoubleRoundTrip(v, rest);
  }

  /** A struct that is read onto an object sets the members it has, and leaves the others. */
  function CountOnto(acc: CountValue, v: CountValue): CountValue {
    if v.i64Value.Some? then v else acc
  }

  function NumberOnto(acc: NumberValue, v: NumberValue): NumberValue {
    NumberValue(if v.i64Value.Some? then v.i64Value else acc.i64Value, if v.dValue.Some? then v.dValue else acc.dValue)
  }

  lemma CountReadOnto(acc: CountValue, v: CountValue, rest: Bytes)
    ensures ReadCount(0, acc, CountBytes(v) + rest) == Got(CountOnto(acc, v), rest)
  {
    if v.i64Value.Some? {
      var i := v.i64Value.value;
      CountValueRead(0, acc, i, [STOP] + rest);
      CountStopRead(1, v, rest);
      assert CountBytes(v) + rest == FieldHeader(0, 1, 6) + (I64Bytes(i) + ([STOP] + rest));
    } else {
      CountStopRead(0, acc, rest);
    }
  }

  lemma DoubleReadOnto(last: int, acc: NumberValue, v: NumberValue, rest: Bytes)
    requires 0 <= last < 2
    ensures ReadNumber(last, acc, DValueBytes(last, v) + rest)
         == Got(if v.dValue.Some? then acc.(dValue := v.dValue) else acc, rest)
  {
    if v.dValue.Some? {
      var d := v.dValue.value;
      NumberDoubleRead(last, acc, d, [STOP] + rest);
      NumberStopRead(2, acc.(dValue := v.dValue), rest);
      assert DValueBytes(last, v) + rest == FieldHeader(last, 2, 7) + (d + ([STOP] + rest));
    } else {
      NumberStopRead(last, acc, rest);
    }
  }

  lemma NumberReadOnto(acc: NumberValue, v: NumberValue, rest: Bytes)
    ensures ReadNumber(0, acc, NumberBytes(v) + rest) == Got(NumberOnto(acc, v), rest)
  {
    if v.i64Value.Some? {
      var i, tail := v.i64Value.value, DValueBytes(1, v) + rest;
      NumberI64Read(0, acc, i, tail);
      DoubleReadOnto(1, acc.(i64Value := v.i64Value), v, rest);
      RegroupField(FieldHeader(0, 1, 6), I64Bytes(i), DValueBytes(1, v), rest);
    } else {
      DoubleReadOnto(0, acc, v, rest);
    }
  }

  lemma ValueCountRead(last: int, acc: MetricValue, v: CountValue, rest: Bytes)
    requires Id16(last)
    ensures ReadValue(last, acc, FieldHeader(last, 1, 12) + (CountBytes(v) + rest))
         == ReadValue(1, acc.(count := Some(CountOnto(acc.count.GetOr(NEW_COUNT), v))), rest)
  {
    FieldHeaderRoundTrip(last, 1, 12, CountBytes(v) + rest);
    CountReadOnto(acc.count.GetOr(NEW_COUNT), v, rest);
  }

  lemma ValueGaugeRead(last: int, acc: MetricValue, v: NumberValue, rest: Bytes)
    requires Id16(last)
    ensures ReadValue(last, acc, FieldHeader(last, 2, 12) + (NumberBytes(v) + rest))
         == ReadValue(2, acc.(gauge := Some(NumberOnto(acc.gauge.GetOr(NEW_NUMBER), v))), rest)
  {
    FieldHeaderRoundTrip(last, 2, 12, NumberBytes(v) + rest);
    NumberReadOnto(acc.gauge.GetOr(NEW_NUMBER), v, rest);
  }

  lemma ValueTimerRead(last: int, acc: MetricValue, v: NumberValue, rest: Bytes)
    requires Id16(last)
    ensures ReadValue(last, acc, FieldHeader(last, 3, 12) + (NumberBytes(v) + rest))
         == ReadValue(3, acc.(timer := Some(NumberOnto(acc.timer.GetOr(NEW_NUMBER), v))), rest)
  {
    FieldHeaderRoundTrip(last, 3, 12, NumberBytes(v) + rest);
    NumberReadOnto(acc.timer.GetOr(NEW_NUMBER), v, rest);
  }

  lemma TagNameRead(last: int, acc: MetricTag, v: Bytes, rest: Bytes)
    requires Id16(last) && |v| < TWO_31
    ensures ReadTag(last, acc, FieldHeader(last, 1, 8) + (BinaryBytes(v) + rest))
         == ReadTag(1, acc.(tagName := v), rest)
  {
    FieldHeaderRoundTrip(last, 1, 8, BinaryBytes(v) + rest);
    BinaryRoundTrip(v, rest);
  }

  lemma TagValueRead(last: int, acc: MetricTag, v: Bytes, rest: Bytes)
    requires Id16(last) && |v| < TWO_31
    ensures ReadTag(last, acc, FieldHeader(last, 2, 8) + (BinaryBytes(v) + rest))
         == ReadTag(2, acc.(tagValue := Some(v)), rest)
  {
    FieldHeaderRoundTrip(last, 2, 8, BinaryBytes(v) + rest);
    BinaryRoundTrip(v, rest);
  }

  lemma MetricNameRead(last: int, acc: Metric, v: Bytes, rest: Bytes)
    requires Id16(last) && |v| < TWO_31
    ensures ReadMetric(last, acc, FieldHeader(last, 1, 8) + (BinaryBytes(v) + rest))
         == ReadMetric(1, acc.(name := v), rest)
  {
    FieldHeaderRoundTrip(last, 1, 8, BinaryBytes(v) + rest);
    BinaryRoundTrip(v, rest);
  }

  lemma MetricValueRead(last: int, acc: Metric, v: MetricValue, rest: Bytes)
    requires Id16(last) && acc.metricValue.None?
    ensures ReadMetric(last, acc, FieldHeader(last, 2, 12) + (ValueBytes(v) + rest))
         == ReadMetric(2, acc.(metricValue := Some(v)), rest)
  {
    FieldHeaderRoundTrip(last, 2, 12, ValueBytes(v) + rest);
    ValueRoundTrip(v, rest);
  }

  lemma MetricTimestampRead(last: int, acc: Metric, v: Int64, rest: Bytes)
    requires Id16(last)
    ensures ReadMetric(last, acc, FieldHeader(last, 3, 6) + (I64Bytes(v) + rest))
         == ReadMetric(3, acc.(timestamp := Some(v)), rest)
  {
    FieldHeaderRoundTrip(last, 3, 6, I64Bytes(v) + rest);
    I64RoundTrip(v, rest);
  }

  lemma MetricTagsRead(last: int, acc: Metric, v: seq<MetricTag>, rest: Bytes)
    requires Id16(last) && TagSetFits(v)
    ensures ReadMetric(last, acc, FieldHeader(last, 4, 10) + (TagSetBytes(v) + rest))
         == ReadMetric(4, acc.(tags := Some(v)), rest)
  {
    FieldHeaderRoundTrip(last, 4, 10, TagSetBytes(v) + rest);
    TagSetRoundTrip(v, rest);
  }

  lemma BatchMetricsRead(last: int, acc: MetricBatch, v: seq<Metric>, rest: Bytes)
    requires Id16(last) && |v| < TWO_31 && forall m :: m in v ==> MetricFits(m)
    ensures ReadBatch(last, acc, FieldHeader(last, 1, 9) + (MetricListBytes(v) + rest))
         == ReadBatch(1, acc.(metrics := v), rest)
  {
    FieldHeaderRoundTrip(last, 1, 9, MetricListBytes(v) + rest);
    MetricListRoundTrip(v, rest);
  }

  lemma BatchTagsRead(last: int, acc: MetricBatch, v: seq<MetricTag>, rest: Bytes)
    requires Id16(last) && TagSetFits(v)
    ensures ReadBatch(last, acc, FieldHeader(last, 2, 10) + (TagSetBytes(v) + rest))
         == ReadBatch(2, acc.(commonTags := Some(v)), rest)
  {
    FieldHeaderRoundTrip(last, 2, 10, TagSetBytes(v) + rest);
    TagSetRoundTrip(v, rest);
  }

  // -------------------------------------------------------------- all other fields

  lemma CountOtherRead(last: int, acc: CountValue, id: int, code: TypeCode, v: Bytes, rest: Bytes)
    requires Id16(last) && Id16(id) && !(id == 1 && code == 6)
    requires Skip(code, true, v + rest) == Got((), rest)
    ensures ReadCount(last, acc, FieldHeader(last, id, code) + (v + rest)) == ReadCount(id, acc, rest)
  {
    FieldHeaderRoundTrip(last, id, code, v + rest);
  }

  lemma CountStopRead(last: int, acc: CountValue, rest: Bytes)
    ensures ReadCount(last, acc, [0x00] + rest) == Got(acc, rest)
  {
    StopRoundTrip(last, rest);
  }

  lemma NumberOtherRead(last: int, acc: NumberValue, id: int, code: TypeCode, v: Bytes, rest: Bytes)
    requires Id16(last) && Id16(id) && !(id == 1 && code == 6) && !(id == 2 && code == 7)
    requires Skip(code, true, v + rest) == Got((), rest)
    ensures ReadNumber(last, acc, FieldHeader(last, id, code) + (v + rest)) == ReadNumber(id, acc, rest)
  {
    FieldHeaderRoundTrip(last, id, code, v + rest);
  }

  lemma NumberStopRead(last: int, acc: NumberValue, rest: Bytes)
    ensures ReadNumber(last, acc, [0x00] + rest) == Got(acc, rest)
  {
    StopRoundTrip(last, rest);
  }

  lemma ValueOtherRead(last: int, acc: MetricValue, id: int, code: TypeCode, v: Bytes, rest: Bytes)
    requires Id16(last) && Id16(id) && !(id == 1 && code == 12) && !(id == 2 && code == 12) && !(id == 3 && code == 12)
    requires Skip(code, true, v + rest) == Got((), rest)
    ensures ReadValue(last, acc, FieldHeader(last, id, code) + (v + rest)) == ReadValue(id, acc, rest)
  {
    FieldHeaderRoundTrip(last, id, code, v + rest);
  }

  lemma ValueStopRead(last: int, acc: MetricValue, rest: Bytes)
    ensures ReadValue(last, acc, [0x00] + rest) == Got(acc, rest)
  {
    StopRoundTrip(last, rest);
  }

  lemma TagOtherRead(last: int, acc: MetricTag, id: int, code: TypeCode, v: Bytes, rest: Bytes)
    requires Id16(last) && Id16(id) && !(id == 1 && code == 8) && !(id == 2 && code == 8)
    requires Skip(code, true, v + rest) == Got((), rest)
    ensures ReadTag(last, acc, FieldHeader(last, id, code) + (v + rest)) == ReadTag(id, acc, rest)
  {
    FieldHeaderRoundTrip(last, id, code, v + rest);
  }

  lemma TagStopRead(last: int, acc: MetricTag, rest: Bytes)
    ensures ReadTag(last, acc, [0x00] + rest) == Got(acc, rest)
  {
    StopRoundTrip(last, rest);
  }

  lemma MetricOtherRead(last: int, acc: Metric, id: int, code: TypeCode, v: Bytes, rest: Bytes)
    requires Id16(last) && Id16(id) && !(id == 1 && code == 8) && !(id == 2 && code == 12)
    requires !(id == 3 && code == 6) && !(id == 4 && code == 10)
    requires Skip(code, true, v + rest) == Got((), rest)
    ensures ReadMetric(last, acc, FieldHeader(last, id, code) + (v + rest)) == ReadMetric(id, acc, rest)
  {
    FieldHeaderRoundTrip(last, id, code, v + rest);
  }

  lemma MetricStopRead(last: int, acc: Metric, rest: Bytes)
    ensures ReadMetric(last, acc, [0x00] + rest) == Got(acc, rest)
  {
    StopRoundTrip(last, rest);
  }

  lemma BatchOtherRead(last: int, acc: MetricBatch, id: int, code: TypeCode, v: Bytes, rest: Bytes)
    requires Id16(last) && Id16(id) && !(id == 1 && code == 9) && !(id == 2 && code == 10)
    requires Skip(code, true, v + rest) == Got((), rest)
    ensures ReadBatch(last, acc, FieldHeader(last, id, code) + (v + rest)) == ReadBatch(id, acc, rest)
  {
    FieldHeaderRoundTrip(last, id, code, v + rest);
  }

  lemma BatchStopRead(last: int, acc: MetricBatch, rest: Bytes)
    ensures ReadBatch(last, acc, [0x00] + rest) == Got(acc, rest)
  {
    StopRoundTrip(last, rest);
  }

  // -------------------------------------------------------------------------- skipping

  lemma SkipI64(v: Int64, isField: bool, rest: Bytes)
    ensures Skip(6, isField, I64Bytes(v) + rest) == Got((), rest)
  {
    Varint64RoundTrip(ZigZag(v), rest);
  }

  lemma SkipDouble(v: Double, isField: bool, rest: Bytes)
    ensures Skip(7, isField, v + rest) == Got((), rest)
  {
    assert (v + rest)[8..] == rest;
  }

  lemma SkipBinary(s: Bytes, isField: bool, rest: Bytes)
    requires |s| < TWO_31
    ensures Skip(8, isField, BinaryBytes(s) + rest) == Got((), rest)
  {
    BinaryRoundTrip(s, rest);
  }

  /** Booleans are in the header of a field, and one byte in a container. */
  lemma SkipSmall(b: Byte, rest: Bytes)
    ensures Skip(1, true, rest) == Got((), rest) && Skip(2, true, rest) == Got((), rest)
    ensures Skip(1, false, [b] + rest) == Got((), rest) && Skip(2, false, [b] + rest) == Got((), rest)
    ensures Skip(3, true, [b] + rest) == Got((), rest) && Skip(3, false, [b] + rest) == Got((), rest)
  {
    assert ([b] + rest)[1..] == rest;
  }

  lemma SkipField(last: int, id: int, code: TypeCode, v: Bytes, rest: Bytes)
    requires Id16(last) && Id16(id) && Skip(code, true, v + rest) == Got((), rest)
    ensures SkipFields(last, FieldHeader(last, id, code) + v + rest) == SkipFields(id, rest)
  {
    Regroup(FieldHeader(last, id, code), v, rest);
    FieldHeaderRoundTrip(last, id, code, v + rest);
    SkipAfterHeader(last, FieldHeader(last, id, code) + (v + rest), id, code, v + rest, rest);
  }

  lemma SkipFirst(isField: bool, id: int, code: TypeCode, v: Bytes, more: Bytes, rest: Bytes)
    requires Id16(id) && Skip(code, true, v + (more + rest)) == Got((), more + rest)
    requires SkipFields(id, more + rest) == Got((), rest)
    ensures Skip(12, isField, FieldHeader(0, id, code) + v + more + rest) == Got((), rest)
  {
    SkipField(0, id, code, v, more + rest);
    RegroupField(FieldHeader(0, id, code), v, more, rest);
  }

  lemma SkipAfterHeader(last: int, input: Bytes, id: int, code: TypeCode, body: Bytes, rest: Bytes)
    requires ReadFieldHeader(last, input) == Got(Field(code, id), body) && Skip(code, true, body) == Got((), rest)
    ensures SkipFields(last, input) == SkipFields(id, rest)
  {
  }

  lemma Regroup(a: Bytes, b: Bytes, c: Bytes)
    ensures a + b + c == a + (b + c)
  {
  }

  lemma SkipStop(last: int, rest: Bytes)
    ensures SkipFields(last, [STOP] + rest) == Got((), rest)
  {
    StopRoundTrip(last, rest);
  }

  lemma SkipCount(v: CountValue, isField: bool, rest: Bytes)
    ensures Skip(12, isField, CountBytes(v) + rest) == Got((), rest)
  {
    if v.i64Value.Some? {
      var i := v.i64Value.value;
      SkipI64(i, true, [STOP] + rest);
      SkipField(0, 1, 6, I64Bytes(i), [STOP] + rest);
      SkipStop(1, rest);
      RegroupField(FieldHeader(0, 1, 6), I64Bytes(i), [STOP], rest);
    } else {
      SkipStop(0, rest);
    }
  }

  lemma SkipDValue(last: int, v: NumberValue, rest: Bytes)
    requires 0 <= last < 2
    ensures SkipFields(last, DValueBytes(last, v) + rest) == Got((), rest)
  {
    if v.dValue.Some? {
      SkipDouble(v.dValue.value, true, [STOP] + rest);
      SkipField(last, 2, 7, v.dValue.value, [STOP] + rest);
      SkipStop(2, rest);
      RegroupField(FieldHeader(last, 2, 7), v.dValue.value, [STOP], rest);
    } else {
      SkipStop(last, rest);
    }
  }

  lemma SkipNumber(v: NumberValue, isField: bool, rest: Bytes)
    ensures Skip(12, isField, NumberBytes(v) + rest) == Got((), rest)
  {
    if v.i64Value.Some? {
      var i, tail := v.i64Value.value, DValueBytes(1, v) + rest;
      SkipI64(i, true, tail);
      SkipField(0, 1, 6, I64Bytes(i), tail);
      SkipDValue(1, v, rest);
      RegroupField(FieldHeader(0, 1, 6), I64Bytes(i), DValueBytes(1, v), rest);
    } else {
      SkipDValue(0, v, rest);
    }
  }

  lemma SkipTimer(last: int, v: MetricValue, rest: Bytes)
    requires 0 <= last < 3
    ensures SkipFields(last, TimerFieldBytes(last, v) + rest) == Got((), rest)
  {
    if v.timer.Some? {
      var body := NumberBytes(v.timer.value);
      SkipNumber(v.timer.value, true, [STOP] + rest);
      SkipField(last, 3, 12, body, [STOP] + rest);
      SkipStop(3, rest);
      RegroupField(FieldHeader(last, 3, 12), body, [STOP], rest);
    } else {
      SkipStop(last, rest);
    }
  }

  lemma SkipGauge(last: int, v: MetricValue, rest: Bytes)
    requires 0 <= last < 2
    ensures SkipFields(last, GaugeFieldBytes(last, v) + rest) == Got((), rest)
  {
    if v.gauge.Some? {
      var body, tail := NumberBytes(v.gauge.value), TimerFieldBytes(2, v) + rest;
      SkipNumber(v.gauge.value, true, tail);
      SkipField(last, 2, 12, body, tail);
      SkipTimer(2, v, rest);
      RegroupField(FieldHeader(last, 2, 12), body, TimerFieldBytes(2, v), rest);
    } else {
      SkipTimer(last, v, rest);
    }
  }

  lemma SkipValue(v: MetricValue, isField: bool, rest: Bytes)
    ensures Skip(12, isField, ValueBytes(v) + rest) == Got((), rest)
  {
    if v.count.Some? {
      var body, tail := CountBytes(v.count.value), GaugeFieldBytes(1, v) + rest;
      SkipCount(v.count.value, true, tail);
      SkipField(0, 1, 12, body, tail);
      SkipGauge(1, v, rest);
      RegroupField(FieldHeader(0, 1, 12), body, GaugeFieldBytes(1, v), rest);
    } else {
      SkipGauge(0, v, rest);
    }
  }

  lemma SkipTagValue(t: MetricTag, rest: Bytes)
    requires TagFits(t)
    ensures SkipFields(1, TagValueBytes(t) + rest) == Got((), rest)
  {
    if t.tagValue.Some? {
      var body := BinaryBytes(t.tagValue.value);
      SkipBinary(t.tagValue.value, true, [STOP] + rest);
      SkipField(1, 2, 8, body, [STOP] + rest);
      SkipStop(2, rest);
      RegroupField(FieldHeader(1, 2, 8), body, [STOP], rest);
    } else {
      SkipStop(1, rest);
    }
  }

  lemma SkipTag(t: MetricTag, isField: bool, rest: Bytes)
    requires TagFits(t)
    ensures Skip(12, isField, TagBytes(t) + rest) == Got((), rest)
  {
    SkipBinary(t.tagName, true, TagValueBytes(t) + rest);
    SkipTagValue(t, rest);
    SkipFirst(isField, 1, 8, BinaryBytes(t.tagName), TagValueBytes(t), rest);
  }

  lemma {:induction false} SkipTags(tags: seq<MetricTag>, rest: Bytes)
    requires forall t :: t in tags ==> TagFits(t)
    ensures SkipElements(|tags|, 12, TagsBytes(tags) + rest) == Got((), rest)
  {
    if |tags| > 0 {
      var tail := TagsBytes(tags[1..]) + rest;
      assert TagsBytes(tags) + rest == TagBytes(tags[0]) + tail;
      SkipTag(tags[0], false, tail);
      SkipTags(tags[1..], rest);
    } else {
      assert TagsBytes(tags) + rest == rest;
    }
  }

  lemma SkipTagSet(tags: seq<MetricTag>, isField: bool, rest: Bytes)
    requires TagSetFits(tags)
    ensures Skip(10, isField, TagSetBytes(tags) + rest) == Got((), rest)
  {
    assert TagSetBytes(tags) + rest == ListHeader(|tags|, 12) + (TagsBytes(tags) + rest);
    ListHeaderRoundTrip(|tags|, 12, TagsBytes(tags) + rest);
    SkipTags(tags, rest);
  }

  lemma SkipTagsField(last: int, m: Metric, rest: Bytes)
    requires MetricFits(m) && 0 <= last < 4
    ensures SkipFields(last, TagsFieldBytes(last, m) + rest) == Got((), rest)
  {
    if m.tags.Some? {
      var body := TagSetBytes(m.tags.value);
      SkipTagSet(m.tags.value, true, [STOP] + rest);
      SkipField(last, 4, 10, body, [STOP] + rest);
      SkipStop(4, rest);
      RegroupField(FieldHeader(last, 4, 10), body, [STOP], rest);
    } else {
      SkipStop(last, rest);
    }
  }

  lemma SkipTimestampField(last: int, m: Metric, rest: Bytes)
    requires MetricFits(m) && 0 <= last < 3
    ensures SkipFields(last, TimestampFieldBytes(last, m) + rest) == Got((), rest)
  {
    if m.timestamp.Some? {
      var body, tail := I64Bytes(m.timestamp.value), TagsFieldBytes(3, m) + rest;
      SkipI64(m.timestamp.value, true, tail);
      SkipField(last, 3, 6, body, tail);
      SkipTagsField(3, m, rest);
      RegroupField(FieldHeader(last, 3, 6), body, TagsFieldBytes(3, m), rest);
    } else {
      SkipTagsField(last, m, rest);
    }
  }

  lemma SkipValueField(m: Metric, rest: Bytes)
    requires MetricFits(m)
    ensures SkipFields(1, ValueFieldBytes(1, m) + rest) == Got((), rest)
  {
    if m.metricValue.Some? {
      var body, tail := ValueBytes(m.metricValue.value), TimestampFieldBytes(2, m) + rest;
      SkipValue(m.metricValue.value, true, tail);
      SkipField(1, 2, 12, body, tail);
      SkipTimestampField(2, m, rest);
      RegroupField(FieldHeader(1, 2, 12), body, TimestampFieldBytes(2, m), rest);
    } else {
      SkipTimestampField(1, m, rest);
    }
  }

  lemma SkipMetric(m: Metric, isField: bool, rest: Bytes)
    requires MetricFits(m)
    ensures Skip(12, isField, MetricBytes(m) + rest) == Got((), rest)
  {
    SkipBinary(m.name, true, ValueFieldBytes(1, m) + rest);
    SkipValueField(m, rest);
    SkipFirst(isField, 1, 8, BinaryBytes(m.name), ValueFieldBytes(1, m), rest);
  }

  lemma {:induction false} SkipMetrics(metrics: seq<Metric>, rest: Bytes)
    requires forall m :: m in metrics ==> MetricFits(m)
    ensures SkipElements(|metrics|, 12, MetricsBytes(metrics) + rest) == Got((), rest)
  {
    if |metrics| > 0 {
      var tail := MetricsBytes(metrics[1..]) + rest;
      assert MetricsBytes(metrics) + rest == MetricBytes(metrics[0]) + tail;
      SkipMetric(metrics[0], false, tail);
      SkipMetrics(metrics[1..], rest);
    } else {
      assert MetricsBytes(metrics) + rest == rest;
    }
  }

  lemma SkipMetricList(metrics: seq<Metric>, isField: bool, rest: Bytes)
    requires |metrics| < TWO_31 && forall m :: m in metrics ==> MetricFits(m)
    ensures Skip(9, isField, MetricListBytes(metrics) + rest) == Got((), rest)
  {
    assert MetricListBytes(metrics) + rest == ListHeader(|metrics|, 12) + (MetricsBytes(metrics) + rest);
    ListHeaderRoundTrip(|metrics|, 12, MetricsBytes(metrics) + rest);
    SkipMetrics(metrics, rest);
  }

  lemma SkipCommonTags(b: MetricBatch, rest: Bytes)
    requires BatchFits(b)
    ensures SkipFields(1, CommonTagsFieldBytes(1, b) + rest) == Got((), rest)
  {
    if b.commonTags.Some? {
      var body := TagSetBytes(b.commonTags.value);
      SkipTagSet(b.commonTags.value, true, [STOP] + rest);
      SkipField(1, 2, 10, body, [STOP] + rest);
      SkipStop(2, rest);
      RegroupField(FieldHeader(1, 2, 10), body, [STOP], rest);
    } else {
      SkipStop(1, rest);
    }
  }

  /** A reader that does not know the field skips a whole batch, down to its nested structs,
      sets and strings, and stops exactly where the writer stopped. */
  lemma SkipBatch(b: MetricBatch, isField: bool, rest: Bytes)
    requires BatchFits(b)
    ensures Skip(12, isField, BatchBytes(b) + rest) == Got((), rest)
  {
    SkipMetricList(b.metrics, true, CommonTagsFieldBytes(1, b) + rest);
    SkipCommonTags(b, rest);
    SkipFirst(isField, 1, 9, MetricListBytes(b.metrics), CommonTagsFieldBytes(1, b), rest);
  }

  // ------------------------------------------------------------------------ refusals

  /** Type codes above a struct's are refused, in fields and in containers. */
  lemma UnknownTypeRefused(last: int, first: Byte, rest: Bytes)
    requires first % 16 > 0x0C
    ensures ReadFieldHeader(last, [first] + rest).Malformed? && ReadListHeader([first] + rest).Malformed?
  {
  }

  /** A length of 32 bits whose sign bit is set is refused, and any smaller one is read. */
  lemma NegativeSizeRefused(n: nat, rest: Bytes)
    requires n < 0x1_0000_0000
    ensures ReadSize(Varint(n) + rest) == if n < 0x8000_0000 then Got(n, rest) else Malformed
  {
    Varint64RoundTrip(n, rest);
  }

  /** An integer does not go on beyond ten bytes. */
  lemma {:induction false} OverlongRefused(input: Bytes, room: nat)
    requires |input| >= room && forall i :: 0 <= i < room ==> input[i] >= 0x80
    ensures ReadVarint(input, room).Malformed?
    ensures room == 10 ==> ReadVarint64(input).Malformed?
  {
    if room > 0 {
      OverlongRefused(input[1..], room - 1);
    }
  }

  /** Other protocols and versions are refused. */
  lemma ForeignMessageRefused(id: Byte, version: Byte, rest: Bytes)
    requires id != 0x82 || version % 32 != 1
    ensures ReadMessageHeader([id, version] + rest).Malformed?
  {
  }
}
