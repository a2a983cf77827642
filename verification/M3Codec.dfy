/** The generated `read` and `write` code, statement by statement over a protocol object.
    `M3Types` says which bytes; here each method is proved to emit and to consume them.
    A `read` fills in the object it is given and gives up on malformed
    input, where Thrift throws an exception. */
module M3Codec {
  import opened Wrappers
  import opened ByteStrings
  import opened CompactProtocol
  import opened CompactStreams
  import opened TagSets
  import opened M3Types
  import opened M3RoundTrip
  import opened M3Client
  import opened WireFormat

  /** A reader's outcome and the input it left agree with what the functions say. */
  ghost predicate Agrees<T>(p: Parse<T>, r: Option<T>, rest: Bytes) {
    match p
    case Got(v, tail) => r == Some(v) && rest == tail
    case Malformed => r.None?
  }

  // -------------------------------------------------------------------- writing

  // The writers of structs with several optional fields follow what is still owed: the
  // bytes out so far and the bytes of the remaining fields always make up the whole.

  lemma Regroup(out: Bytes, header: Bytes, body: Bytes, owed: Bytes)
    ensures ((out + header) + body) + owed == out + ((header + body) + owed)
  {
  }

  method WriteCount(oprot: CompactWriter, v: CountValue)
    modifies oprot
    ensures oprot.out == old(oprot.out) + CountBytes(v)
    ensures oprot.Fields() == old(oprot.Fields())
  {
    oprot.WriteStructBegin();
    if v.i64Value.Some? {
      oprot.WriteFieldBegin(C_I64, 1);
      oprot.Write(I64Bytes(v.i64Value.value));
    }
    oprot.Write([STOP]);
    oprot.WriteStructEnd();
  }

  method WriteNumber(oprot: CompactWriter, v: NumberValue)
    modifies oprot
    ensures oprot.out == old(oprot.out) + NumberBytes(v)
    ensures oprot.Fields() == old(oprot.Fields())
  {
    oprot.WriteStructBegin();
    if v.i64Value.Some? {
      oprot.WriteFieldBegin(C_I64, 1);
      oprot.Write(I64Bytes(v.i64Value.value));
    }
    label dValue:
    ghost var last := oprot.lastFieldId;
    if v.dValue.Some? {
      oprot.WriteFieldBegin(C_DOUBLE, 2);
      oprot.Write(v.dValue.value);
    }
    oprot.Write([STOP]);
    assert oprot.out == old@dValue(oprot.out) + DValueBytes(last, v);
    oprot.WriteStructEnd();
  }

  method WriteValue(oprot: CompactWriter, v: MetricValue)
    modifies oprot
    ensures oprot.out == old(oprot.out) + ValueBytes(v)
    ensures oprot.Fields() == old(oprot.Fields())
  {
    ghost var whole := oprot.out + ValueBytes(v);
    oprot.WriteStructBegin();
    if v.count.Some? {
      Regroup(oprot.out, FieldHeader(0, 1, C_STRUCT), CountBytes(v.count.value), GaugeFieldBytes(1, v));
      oprot.WriteFieldBegin(C_STRUCT, 1);
      WriteCount(oprot, v.count.value);
    }
    assert oprot.out + GaugeFieldBytes(oprot.lastFieldId, v) == whole;
    if v.gauge.Some? {
      Regroup(oprot.out, FieldHeader(oprot.lastFieldId, 2, C_STRUCT), NumberBytes(v.gauge.value),
              TimerFieldBytes(2, v));
      oprot.WriteFieldBegin(C_STRUCT, 2);
      WriteNumber(oprot, v.gauge.value);
    }
    assert oprot.out + TimerFieldBytes(oprot.lastFieldId, v) == whole;
    if v.timer.Some? {
      Regroup(oprot.out, FieldHeader(oprot.lastFieldId, 3, C_STRUCT), NumberBytes(v.timer.value), [STOP]);
      oprot.WriteFieldBegin(C_STRUCT, 3);
      WriteNumber(oprot, v.timer.value);
    }
    assert oprot.out + [STOP] == whole;
    oprot.Write([STOP]);
    oprot.WriteStructEnd();
  }

  method WriteTag(oprot: CompactWriter, t: MetricTag)
    modifies oprot
    ensures oprot.out == old(oprot.out) + TagBytes(t)
    ensures oprot.Fields() == old(oprot.Fields())
  {
    oprot.WriteStructBegin();
    oprot.WriteFieldBegin(C_BINARY, 1);
    oprot.Write(BinaryBytes(t.tagName));
    label tagValue:
    if t.tagValue.Some? {
      oprot.WriteFieldBegin(C_BINARY, 2);
      oprot.Write(BinaryBytes(t.tagValue.value));
    }
    oprot.Write([STOP]);
    assert oprot.out == old@tagValue(oprot.out) + TagValueBytes(t);
    oprot.WriteStructEnd();
  }

  lemma TagsOwed(tags: seq<MetricTag>, i: nat, out: Bytes)
    requires i < |tags|
    ensures out + TagsBytes(tags[i..]) == (out + TagBytes(tags[i])) + TagsBytes(tags[i + 1..])
  {
    assert tags[i..][1..] == tags[i + 1..];
  }

  method WriteTagSet(oprot: CompactWriter, tags: seq<MetricTag>)
    modifies oprot
    ensures oprot.out == old(oprot.out) + TagSetBytes(tags)
    ensures oprot.Fields() == old(oprot.Fields())
  {
    ghost var whole := oprot.out + TagSetBytes(tags);
    oprot.Write(ListHeader(|tags|, C_STRUCT));
    assert tags[0..] == tags;
    assert oprot.out + TagsBytes(tags) == whole;
    for i := 0 to |tags|
      invariant oprot.out + TagsBytes(tags[i..]) == whole
      invariant oprot.Fields() == old(oprot.Fields())
    {
      TagsOwed(tags, i, oprot.out);
      WriteTag(oprot, tags[i]);
    }
  }

  method WriteMetric(oprot: CompactWriter, m: Metric)
    modifies oprot
    ensures oprot.out == old(oprot.out) + MetricBytes(m)
    ensures oprot.Fields() == old(oprot.Fields())
  {
    ghost var whole := oprot.out + MetricBytes(m);
    oprot.WriteStructBegin();
    Regroup(oprot.out, FieldHeader(0, 1, C_BINARY), BinaryBytes(m.name), ValueFieldBytes(1, m));
    oprot.WriteFieldBegin(C_BINARY, 1);
    oprot.Write(BinaryBytes(m.name));
    assert oprot.out + ValueFieldBytes(1, m) == whole;
    if m.metricValue.Some? {
      Regroup(oprot.out, FieldHeader(1, 2, C_STRUCT), ValueBytes(m.metricValue.value), TimestampFieldBytes(2, m));
      oprot.WriteFieldBegin(C_STRUCT, 2);
      WriteValue(oprot, m.metricValue.value);
    }
    assert oprot.out + TimestampFieldBytes(oprot.lastFieldId, m) == whole;
    if m.timestamp.Some? {
      Regroup(oprot.out, FieldHeader(oprot.lastFieldId, 3, C_I64), I64Bytes(m.timestamp.value), TagsFieldBytes(3, m));
      oprot.WriteFieldBegin(C_I64, 3);
      oprot.Write(I64Bytes(m.timestamp.value));
    }
    assert oprot.out + TagsFieldBytes(oprot.lastFieldId, m) == whole;
    if m.tags.Some? {
      Regroup(oprot.out, FieldHeader(oprot.lastFieldId, 4, C_SET), TagSetBytes(m.tags.value), [STOP]);
      oprot.WriteFieldBegin(C_SET, 4);
      WriteTagSet(oprot, m.tags.value);
    }
    assert oprot.out + [STOP] == whole;
    oprot.Write([STOP]);
    oprot.WriteStructEnd();
  }

  lemma RegroupBody(out: Bytes, a: Bytes, b: Bytes, owed: Bytes)
    ensures (out + (a + b)) + owed == ((out + a) + b) + owed
  {
    assert out + (a + b) == (out + a) + b;
  }

  lemma MetricsOwed(metrics: seq<Metric>, i: nat, out: Bytes, owed: Bytes)
    requires i < |metrics|
    ensures (out + MetricsBytes(metrics[i..])) + owed
         == ((out + MetricBytes(metrics[i])) + MetricsBytes(metrics[i + 1..])) + owed
  {
    assert MetricsBytes(metrics[i..]) == MetricBytes(metrics[i]) + MetricsBytes(metrics[i + 1..]) by {
      assert metrics[i..][1..] == metrics[i + 1..];
    }
    RegroupBody(out, MetricBytes(metrics[i]), MetricsBytes(metrics[i + 1..]), owed);
  }

  lemma RegroupList(out: Bytes, field: Bytes, size: Bytes, body: Bytes, owed: Bytes)
    ensures (((out + field) + size) + body) + owed == out + ((field + (size + body)) + owed)
  {
  }

  method WriteBatch(oprot: CompactWriter, b: MetricBatch)
    modifies oprot
    ensures oprot.out == old(oprot.out) + BatchBytes(b)
    ensures oprot.Fields() == old(oprot.Fields())
  {
    ghost var whole, owed := oprot.out + BatchBytes(b), CommonTagsFieldBytes(1, b);
    oprot.WriteStructBegin();
    RegroupList(oprot.out, FieldHeader(0, 1, C_LIST), ListHeader(|b.metrics|, C_STRUCT), MetricsBytes(b.metrics), owed);
    oprot.WriteFieldBegin(C_LIST, 1);
    oprot.Write(ListHeader(|b.metrics|, C_STRUCT));
    assert b.metrics[0..] == b.metrics;
    label list:
    for i := 0 to |b.metrics|
      invariant (oprot.out + MetricsBytes(b.metrics[i..])) + owed == whole
      invariant oprot.Fields() == old@list(oprot.Fields())
    {
      MetricsOwed(b.metrics, i, oprot.out, owed);
      WriteMetric(oprot, b.metrics[i]);
    }
    assert oprot.out + owed == whole by { assert oprot.out + [] == oprot.out; }
    if b.commonTags.Some? {
      Regroup(oprot.out, FieldHeader(1, 2, C_SET), TagSetBytes(b.commonTags.value), [STOP]);
      oprot.WriteFieldBegin(C_SET, 2);
      WriteTagSet(oprot, b.commonTags.value);
    }
    assert oprot.out + [STOP] == whole;
    oprot.Write([STOP]);
    oprot.WriteStructEnd();
  }

  method WriteArgs(oprot: CompactWriter, b: MetricBatch)
    modifies oprot
    ensures oprot.out == old(oprot.out) + ArgsBytes(b)
    ensures oprot.Fields() == old(oprot.Fields())
  {
    oprot.WriteStructBegin();
    oprot.WriteFieldBegin(C_STRUCT, 1);
    WriteBatch(oprot, b);
    oprot.Write([STOP]);
    oprot.WriteStructEnd();
  }

  /** `send_emitMetricBatch`, up to the flush of the transport. */
  method SendEmitMetricBatch(oprot: CompactWriter, b: MetricBatch)
    modifies oprot
    ensures oprot.out == old(oprot.out) + MessageBytes(b)
    ensures oprot.out == old(oprot.out) + (PREAMBLE + (BatchBytes(b) + [0x00]))
    ensures oprot.Fields() == old(oprot.Fields())
  {
    MessageIsPreambleAndBatch(b);
    Join(oprot.out, MessageHeader(METHOD_NAME, T_ONEWAY, 0), ArgsBytes(b));
    oprot.Write(MessageHeader(METHOD_NAME, T_ONEWAY, 0));
    WriteArgs(oprot, b);
  }

  // -------------------------------------------------------------------- reading

  method ReadCountInto(iprot: CompactReader, v: CountValue) returns (r: Option<CountValue>)
    modifies iprot
    ensures Agrees(ReadCount(0, v, old(iprot.rest)), r, iprot.rest)
    ensures r.Some? ==> iprot.Fields() == old(iprot.Fields())
  {
    var acc := v;
    iprot.ReadStructBegin();
    while true
      invariant ReadCount(iprot.lastFieldId, acc, iprot.rest) == ReadCount(0, v, old(iprot.rest))
      invariant iprot.stack == old(iprot.stack) + [old(iprot.lastFieldId)]
      decreases |iprot.rest|
    {
      var header := iprot.ReadFieldBegin();
      if header.None? { return None; }
      if header.value.Stop? { break; }
      var Field(code, id) := header.value;
      if id == 1 && code == C_I64 {
        var i64 := iprot.Take(ReadI64(iprot.rest));
        if i64.None? { return None; }
        acc := acc.(i64Value := i64);
      } else {
        var skipped := iprot.Take(Skip(code, true, iprot.rest));
        if skipped.None? { return None; }
      }
    }
    iprot.ReadStructEnd();
    r := Some(acc);
  }

  method ReadNumberInto(iprot: CompactReader, v: NumberValue) returns (r: Option<NumberValue>)
    modifies iprot
    ensures Agrees(ReadNumber(0, v, old(iprot.rest)), r, iprot.rest)
    ensures r.Some? ==> iprot.Fields() == old(iprot.Fields())
  {
    var acc := v;
    iprot.ReadStructBegin();
    while true
      invariant ReadNumber(iprot.lastFieldId, acc, iprot.rest) == ReadNumber(0, v, old(iprot.rest))
      invariant iprot.stack == old(iprot.stack) + [old(iprot.lastFieldId)]
      decreases |iprot.rest|
    {
      var header := iprot.ReadFieldBegin();
      if header.None? { return None; }
      if header.value.Stop? { break; }
      var Field(code, id) := header.value;
      if id == 1 && code == C_I64 {
        var i64 := iprot.Take(ReadI64(iprot.rest));
        if i64.None? { return None; }
        acc := acc.(i64Value := i64);
      } else if id == 2 && code == C_DOUBLE {
        var d := iprot.Take(ReadDouble(iprot.rest));
        if d.None? { return None; }
        acc := acc.(dValue := d);
      } else {
        var skipped := iprot.Take(Skip(code, true, iprot.rest));
        if skipped.None? { return None; }
      }
    }
    iprot.ReadStructEnd();
    r := Some(acc);
  }

  method ReadValueInto(iprot: CompactReader, v: MetricValue) returns (r: Option<MetricValue>)
    modifies iprot
    ensures Agrees(ReadValue(0, v, old(iprot.rest)), r, iprot.rest)
    ensures r.Some? ==> iprot.Fields() == old(iprot.Fields())
  {
    var acc := v;
    iprot.ReadStructBegin();
    while true
      invariant ReadValue(iprot.lastFieldId, acc, iprot.rest) == ReadValue(0, v, old(iprot.rest))
      invariant iprot.stack == old(iprot.stack) + [old(iprot.lastFieldId)]
      decreases |iprot.rest|
    {
      var header := iprot.ReadFieldBegin();
      if header.None? { return None; }
      if header.value.Stop? { break; }
      var Field(code, id) := header.value;
      if id == 1 && code == C_STRUCT {
        var count := ReadCountInto(iprot, acc.count.GetOr(NEW_COUNT));
        if count.None? { return None; }
        acc := acc.(count := count);
      } else if id == 2 && code == C_STRUCT {
        var gauge := ReadNumberInto(iprot, acc.gauge.GetOr(NEW_NUMBER));
        if gauge.None? { return None; }
        acc := acc.(gauge := gauge);
      } else if id == 3 && code == C_STRUCT {
        var timer := ReadNumberInto(iprot, acc.timer.GetOr(NEW_NUMBER));
        if timer.None? { return None; }
        acc := acc.(timer := timer);
      } else {
        var skipped := iprot.Take(Skip(code, true, iprot.rest));
        if skipped.None? { return None; }
      }
    }
    iprot.ReadStructEnd();
    r := Some(acc);
  }

  method ReadTagInto(iprot: CompactReader, t: MetricTag) returns (r: Option<MetricTag>)
    modifies iprot
    ensures Agrees(ReadTag(0, t, old(iprot.rest)), r, iprot.rest)
    ensures r.Some? ==> iprot.Fields() == old(iprot.Fields())
  {
    var acc := t;
    iprot.ReadStructBegin();
    while true
      invariant ReadTag(iprot.lastFieldId, acc, iprot.rest) == ReadTag(0, t, old(iprot.rest))
      invariant iprot.stack == old(iprot.stack) + [old(iprot.lastFieldId)]
      decreases |iprot.rest|
    {
      var header := iprot.ReadFieldBegin();
      if header.None? { return None; }
      if header.value.Stop? { break; }
      var Field(code, id) := header.value;
      if id == 1 && code == C_BINARY {
        var name := iprot.Take(ReadBinary(iprot.rest));
        if name.None? { return None; }
        acc := acc.(tagName := name.value);
      } else if id == 2 && code == C_BINARY {
        var value := iprot.Take(ReadBinary(iprot.rest));
        if value.None? { return None; }
        acc := acc.(tagValue := value);
      } else {
        var skipped := iprot.Take(Skip(code, true, iprot.rest));
        if skipped.None? { return None; }
      }
    }
    iprot.ReadStructEnd();
    r := Some(acc);
  }

  lemma NextTag(n: nat, acc: seq<MetricTag>, r: Option<MetricTag>, input: Bytes, rest: Bytes)
    requires n > 0 && Agrees(ReadTag(0, NEW_TAG, input), r, rest)
    ensures r.None? ==> ReadTags(n, acc, input) == Malformed
    ensures r.Some? ==> ReadTags(n, acc, input) == ReadTags(n - 1, Insert(acc, r.value), rest)
  {
  }

  method ReadTagSetInto(iprot: CompactReader) returns (r: Option<seq<MetricTag>>)
    modifies iprot
    ensures Agrees(ReadTagSet(old(iprot.rest)), r, iprot.rest)
    ensures r.Some? ==> iprot.Fields() == old(iprot.Fields())
  {
    var header := iprot.Take(ReadListHeader(iprot.rest));
    if header.None? { return None; }
    r := ReadTagsInto(iprot, header.value.1);
  }

  method ReadTagsInto(iprot: CompactReader, size: nat) returns (r: Option<seq<MetricTag>>)
    modifies iprot
    ensures Agrees(ReadTags(size, [], old(iprot.rest)), r, iprot.rest)
    ensures r.Some? ==> iprot.Fields() == old(iprot.Fields())
  {
    ghost var whole := ReadTags(size, [], iprot.rest);
    var tags := [];
    for i := 0 to size
      invariant ReadTags(size - i, tags, iprot.rest) == whole
      invariant iprot.Fields() == old(iprot.Fields())
    {
      ghost var input := iprot.rest;
      var elem := ReadTagInto(iprot, NEW_TAG);
      NextTag(size - i, tags, elem, input, iprot.rest);
      if elem.None? { return None; }
      tags := Insert(tags, elem.value);
    }
    r := Some(tags);
  }

  method ReadMetricInto(iprot: CompactReader, m: Metric) returns (r: Option<Metric>)
    modifies iprot
    ensures Agrees(ReadMetric(0, m, old(iprot.rest)), r, iprot.rest)
    ensures r.Some? ==> iprot.Fields() == old(iprot.Fields())
  {
    var acc := m;
    iprot.ReadStructBegin();
    while true
      invariant ReadMetric(iprot.lastFieldId, acc, iprot.rest) == ReadMetric(0, m, old(iprot.rest))
      invariant iprot.stack == old(iprot.stack) + [old(iprot.lastFieldId)]
      decreases |iprot.rest|
    {
      var header := iprot.ReadFieldBegin();
      if header.None? { return None; }
      if header.value.Stop? { break; }
      var Field(code, id) := header.value;
      if id == 1 && code == C_BINARY {
        var name := iprot.Take(ReadBinary(iprot.rest));
        if name.None? { return None; }
        acc := acc.(name := name.value);
      } else if id == 2 && code == C_STRUCT {
        var value := ReadValueInto(iprot, acc.metricValue.GetOr(NEW_VALUE));
        if value.None? { return None; }
        acc := acc.(metricValue := value);
      } else if id == 3 && code == C_I64 {
        var i64 := iprot.Take(ReadI64(iprot.rest));
        if i64.None? { return None; }
        acc := acc.(timestamp := i64);
      } else if id == 4 && code == C_SET {
        var tags := ReadTagSetInto(iprot);
        if tags.None? { return None; }
        acc := acc.(tags := tags);
      } else {
        var skipped := iprot.Take(Skip(code, true, iprot.rest));
        if skipped.None? { return None; }
      }
    }
    iprot.ReadStructEnd();
    r := Some(acc);
  }

  lemma NextMetric(n: nat, acc: seq<Metric>, r: Option<Metric>, input: Bytes, rest: Bytes)
    requires n > 0 && Agrees(ReadMetric(0, NEW_METRIC, input), r, rest)
    ensures r.None? ==> ReadMetrics(n, acc, input) == Malformed
    ensures r.Some? ==> ReadMetrics(n, acc, input) == ReadMetrics(n - 1, acc + [r.value], rest)
  {
  }

  method ReadMetricsInto(iprot: CompactReader, size: nat) returns (r: Option<seq<Metric>>)
    modifies iprot
    ensures Agrees(ReadMetrics(size, [], old(iprot.rest)), r, iprot.rest)
    ensures r.Some? ==> iprot.Fields() == old(iprot.Fields())
  {
    ghost var whole := ReadMetrics(size, [], iprot.rest);
    var metrics := [];
    for i := 0 to size
      invariant ReadMetrics(size - i, metrics, iprot.rest) == whole
      invariant iprot.Fields() == old(iprot.Fields())
    {
      ghost var input := iprot.rest;
      var elem := ReadMetricInto(iprot, NEW_METRIC);
      NextMetric(size - i, metrics, elem, input, iprot.rest);
      if elem.None? { return None; }
      metrics := metrics + [elem.value];
    }
    r := Some(metrics);
  }

  method ReadMetricListInto(iprot: CompactReader) returns (r: Option<seq<Metric>>)
    modifies iprot
    ensures Agrees(ReadMetricList(old(iprot.rest)), r, iprot.rest)
    ensures r.Some? ==> iprot.Fields() == old(iprot.Fields())
  {
    var header := iprot.Take(ReadListHeader(iprot.rest));
    if header.None? { return None; }
    r := ReadMetricsInto(iprot, header.value.1);
  }

  method ReadBatchInto(iprot: CompactReader, b: MetricBatch) returns (r: Option<MetricBatch>)
    modifies iprot
    ensures Agrees(ReadBatch(0, b, old(iprot.rest)), r, iprot.rest)
    ensures r.Some? ==> iprot.Fields() == old(iprot.Fields())
  {
    var acc := b;
    iprot.ReadStructBegin();
    while true
      invariant ReadBatch(iprot.lastFieldId, acc, iprot.rest) == ReadBatch(0, b, old(iprot.rest))
      invariant iprot.stack == old(iprot.stack) + [old(iprot.lastFieldId)]
      decreases |iprot.rest|
    {
      var header := iprot.ReadFieldBegin();
      if header.None? { return None; }
      if header.value.Stop? { break; }
      var Field(code, id) := header.value;
      if id == 1 && code == C_LIST {
        var metrics := ReadMetricListInto(iprot);
        if metrics.None? { return None; }
        acc := acc.(metrics := metrics.value);
      } else if id == 2 && code == C_SET {
        var tags := ReadTagSetInto(iprot);
        if tags.None? { return None; }
        acc := acc.(commonTags := tags);
      } else {
        var skipped := iprot.Take(Skip(code, true, iprot.rest));
        if skipped.None? { return None; }
      }
    }
    iprot.ReadStructEnd();
    r := Some(acc);
  }

  /** The round trip of the running code: write a batch, read the bytes into a fresh
      object, get the batch; what followed it is still unread. */
  method WriteThenRead(b: MetricBatch, following: Bytes) returns (r: Option<MetricBatch>, unread: Bytes)
    requires BatchFits(b)
    ensures r == Some(b) && unread == following
  {
    var oprot := new CompactWriter();
    WriteBatch(oprot, b);
    assert oprot.out == BatchBytes(b);
    BatchRoundTrip(b, following);
    var iprot := new CompactReader(oprot.out + following);
    r := ReadBatchInto(iprot, NEW_BATCH);
    unread := iprot.rest;
  }
}
