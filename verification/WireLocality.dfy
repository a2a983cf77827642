/** Readers are local: what follows the bytes a reader takes does not change what it reads.  So
    a message that is cut short anywhere is refused. */
module WireLocality {
  import opened Wrappers
  import opened ByteStrings
  import opened CompactProtocol
  import opened TagSets
  import opened M3Types
  import opened M3RoundTrip
  import opened M3Client

  /** `longer` is the outcome of a reader on its input with `more` behind it. */
  ghost predicate Extends<T>(shorter: Parse<T>, longer: Parse<T>, more: Bytes) {
    shorter.Got? ==> longer == Got(shorter.value, shorter.rest + more)
  }

  lemma Tail(input: Bytes, n: nat, more: Bytes)
    requires n <= |input|
    ensures (input + more)[n..] == input[n..] + more && (input + more)[..n] == input[..n]
  {
  }

  // ---------------------------------------------------------------------- the protocol

  lemma {:induction false} VarintExtends(input: Bytes, room: nat, more: Bytes)
    ensures Extends(ReadVarint(input, room), ReadVarint(input + more, room), more)
  {
    if |input| > 0 && room > 0 {
      Tail(input, 1, more);
      VarintExtends(input[1..], room - 1, more);
    }
  }

  lemma Varint64Extends(input: Bytes, more: Bytes)
    ensures Extends(ReadVarint64(input), ReadVarint64(input + more), more)
  {
    VarintExtends(input, 10, more);
  }

  lemma SizeExtends(input: Bytes, more: Bytes)
    ensures Extends(ReadSize(input), ReadSize(input + more), more)
  {
    Varint64Extends(input, more);
  }

  lemma I64Extends(input: Bytes, more: Bytes)
    ensures Extends(ReadI64(input), ReadI64(input + more), more)
  {
    Varint64Extends(input, more);
  }

  lemma DoubleExtends(input: Bytes, more: Bytes)
    ensures Extends(ReadDouble(input), ReadDouble(input + more), more)
  {
    if |input| >= 8 {
      Tail(input, 8, more);
    }
  }

  lemma BinaryExtends(input: Bytes, more: Bytes)
    ensures Extends(ReadBinary(input), ReadBinary(input + more), more)
  {
    SizeExtends(input, more);
    var size := ReadSize(input);
    if size.Got? && size.value <= |size.rest| {
      Tail(size.rest, size.value, more);
    }
  }

  lemma FieldHeaderExtends(last: int, input: Bytes, more: Bytes)
    ensures Extends(ReadFieldHeader(last, input), ReadFieldHeader(last, input + more), more)
  {
    if |input| > 0 {
      Tail(input, 1, more);
      assert (input + more)[0] == input[0];
      Varint64Extends(input[1..], more);
    }
  }

  lemma ListHeaderExtends(input: Bytes, more: Bytes)
    ensures Extends(ReadListHeader(input), ReadListHeader(input + more), more)
  {
    if |input| > 0 {
      Tail(input, 1, more);
      assert (input + more)[0] == input[0];
      SizeExtends(input[1..], more);
    }
  }

  lemma DropExtends(n: nat, input: Bytes, more: Bytes)
    ensures Extends(Drop(n, input), Drop(n, input + more), more)
  {
    if n <= |input| {
      Tail(input, n, more);
    }
  }

  lemma {:induction false} SkipExtends(code: TypeCode, isField: bool, input: Bytes, more: Bytes)
    ensures Extends(Skip(code, isField, input), Skip(code, isField, input + more), more)
    decreases |input|, 1, 0
  {
    if code == C_BOOL_TRUE || code == C_BOOL_FALSE || code == C_BYTE {
      DropExtends(1, input, more);
    } else if code == C_I16 || code == C_I32 || code == C_I64 {
      Varint64Extends(input, more);
    } else if code == C_DOUBLE {
      DropExtends(8, input, more);
    } else if code == C_BINARY {
      BinaryExtends(input, more);
    } else if code == C_LIST || code == C_SET {
      ListHeaderExtends(input, more);
      var header := ReadListHeader(input);
      if header.Got? {
        SkipElementsExtends(header.value.1, header.value.0, header.rest, more);
      }
    } else if code == C_MAP {
      SkipMapExtends(input, more);
    } else {
      SkipFieldsExtends(0, input, more);
    }
  }

  lemma {:induction false} SkipMapExtends(input: Bytes, more: Bytes)
    ensures Extends(Skip(C_MAP, false, input), Skip(C_MAP, false, input + more), more)
    ensures Skip(C_MAP, true, input) == Skip(C_MAP, false, input)
    ensures Skip(C_MAP, true, input + more) == Skip(C_MAP, false, input + more)
    decreases |input|, 0, 1
  {
    SizeExtends(input, more);
    var size := ReadSize(input);
    if size.Got? && size.value > 0 && |size.rest| > 0 {
      Tail(size.rest, 1, more);
      assert (size.rest + more)[0] == size.rest[0];
      var key, val := size.rest[0] / 16, size.rest[0] % 16;
      if 1 <= key <= 12 && 1 <= val <= 12 {
        SkipEntriesExtends(size.value, key, val, size.rest[1..], more);
      }
    }
  }

  lemma {:induction false} SkipElementsExtends(n: nat, code: ElementCode, input: Bytes, more: Bytes)
    ensures Extends(SkipElements(n, code, input), SkipElements(n, code, input + more), more)
    decreases |input|, 2, n
  {
    if n > 0 && code != STOP {
      SkipExtends(code, false, input, more);
      var one := Skip(code, false, input);
      if one.Got? {
        SkipElementsExtends(n - 1, code, one.rest, more);
      }
    }
  }

  lemma {:induction false} SkipEntriesExtends(n: nat, key: TypeCode, val: TypeCode, input: Bytes, more: Bytes)
    ensures Extends(SkipEntries(n, key, val, input), SkipEntries(n, key, val, input + more), more)
    decreases |input|, 2, n
  {
    if n > 0 {
      SkipExtends(key, false, input, more);
      var one := Skip(key, false, input);
      if one.Got? {
        SkipExtends(val, false, one.rest, more);
        var two := Skip(val, false, one.rest);
        if two.Got? {
          SkipEntriesExtends(n - 1, key, val, two.rest, more);
        }
      }
    }
  }

  lemma {:induction false} SkipFieldsExtends(last: int, input: Bytes, more: Bytes)
    ensures Extends(SkipFields(last, input), SkipFields(last, input + more), more)
    decreases |input|, 0, 0
  {
    FieldHeaderExtends(last, input, more);
    var header := ReadFieldHeader(last, input);
    if header.Got? && header.value.Field? {
      SkipExtends(header.value.code, true, header.rest, more);
      var one := Skip(header.value.code, true, header.rest);
      if one.Got? {
        SkipFieldsExtends(header.value.id, one.rest, more);
      }
    }
  }

  // ------------------------------------------------------------------------ the types

  lemma {:induction false} CountExtends(last: int, acc: CountValue, input: Bytes, more: Bytes)
    ensures Extends(ReadCount(last, acc, input), ReadCount(last, acc, input + more), more)
    decreases |input|
  {
    FieldHeaderExtends(last, input, more);
    var header := ReadFieldHeader(last, input);
    if header.Got? && header.value.Field? {
      var Field(code, id) := header.value;
      if id == 1 && code == C_I64 {
        I64Extends(header.rest, more);
        var v := ReadI64(header.rest);
        if v.Got? { CountExtends(id, acc.(i64Value := Some(v.value)), v.rest, more); }
      } else {
        SkipExtends(code, true, header.rest, more);
        var skipped := Skip(code, true, header.rest);
        if skipped.Got? { CountExtends(id, acc, skipped.rest, more); }
      }
    }
  }

  lemma {:induction false} NumberExtends(last: int, acc: NumberValue, input: Bytes, more: Bytes)
    ensures Extends(ReadNumber(last, acc, input), ReadNumber(last, acc, input + more), more)
    decreases |input|
  {
    FieldHeaderExtends(last, input, more);
    var header := ReadFieldHeader(last, input);
    if header.Got? && header.value.Field? {
      var Field(code, id) := header.value;
      if id == 1 && code == C_I64 {
        I64Extends(header.rest, more);
        var v := ReadI64(header.rest);
        if v.Got? { NumberExtends(id, acc.(i64Value := Some(v.value)), v.rest, more); }
      } else if id == 2 && code == C_DOUBLE {
        DoubleExtends(header.rest, more);
        var v := ReadDouble(header.rest);
        if v.Got? { NumberExtends(id, acc.(dValue := Some(v.value)), v.rest, more); }
      } else {
        SkipExtends(code, true, header.rest, more);
        var skipped := Skip(code, true, header.rest);
        if skipped.Got? { NumberExtends(id, acc, skipped.rest, more); }
      }
    }
  }

  lemma {:induction false} ValueExtends(last: int, acc: MetricValue, input: Bytes, more: Bytes)
    ensures Extends(ReadValue(last, acc, input), ReadValue(last, acc, input + more), more)
    decreases |input|
  {
    FieldHeaderExtends(last, input, more);
    var header := ReadFieldHeader(last, input);
    if header.Got? && header.value.Field? {
      var Field(code, id) := header.value;
      if id == 1 && code == C_STRUCT {
        CountExtends(0, acc.count.GetOr(NEW_COUNT), header.rest, more);
        var v := ReadCount(0, acc.count.GetOr(NEW_COUNT), header.rest);
        if v.Got? { ValueExtends(id, acc.(count := Some(v.value)), v.rest, more); }
      } else if id == 2 && code == C_STRUCT {
        NumberExtends(0, acc.gauge.GetOr(NEW_NUMBER), header.rest, more);
        var v := ReadNumber(0, acc.gauge.GetOr(NEW_NUMBER), header.rest);
        if v.Got? { ValueExtends(id, acc.(gauge := Some(v.value)), v.rest, more); }
      } else if id == 3 && code == C_STRUCT {
        NumberExtends(0, acc.timer.GetOr(NEW_NUMBER), header.rest, more);
        var v := ReadNumber(0, acc.timer.GetOr(NEW_NUMBER), header.rest);
        if v.Got? { ValueExtends(id, acc.(timer := Some(v.value)), v.rest, more); }
      } else {
        SkipExtends(code, true, header.rest, more);
        var skipped := Skip(code, true, header.rest);
        if skipped.Got? { ValueExtends(id, acc, skipped.rest, more); }
      }
    }
  }

  lemma {:induction false} TagExtends(last: int, acc: MetricTag, input: Bytes, more: Bytes)
    ensures Extends(ReadTag(last, acc, input), ReadTag(last, acc, input + more), more)
    decreases |input|
  {
    FieldHeaderExtends(last, input, more);
    var header := ReadFieldHeader(last, input);
    if header.Got? && header.value.Field? {
      var Field(code, id) := header.value;
      if id == 1 && code == C_BINARY {
        BinaryExtends(header.rest, more);
        var v := ReadBinary(header.rest);
        if v.Got? { TagExtends(id, acc.(tagName := v.value), v.rest, more); }
      } else if id == 2 && code == C_BINARY {
        BinaryExtends(header.rest, more);
        var v := ReadBinary(header.rest);
        if v.Got? { TagExtends(id, acc.(tagValue := Some(v.value)), v.rest, more); }
      } else {
        SkipExtends(code, true, header.rest, more);
        var skipped := Skip(code, true, header.rest);
        if skipped.Got? { TagExtends(id, acc, skipped.rest, more); }
      }
    }
  }

  lemma {:induction false} TagsExtends(n: nat, acc: seq<MetricTag>, input: Bytes, more: Bytes)
    ensures Extends(ReadTags(n, acc, input), ReadTags(n, acc, input + more), more)
  {
    if n > 0 {
      TagExtends(0, NEW_TAG, input, more);
      var t := ReadTag(0, NEW_TAG, input);
      if t.Got? { TagsExtends(n - 1, Insert(acc, t.value), t.rest, more); }
    }
  }

  lemma TagSetExtends(input: Bytes, more: Bytes)
    ensures Extends(ReadTagSet(input), ReadTagSet(input + more), more)
  {
    ListHeaderExtends(input, more);
    var header := ReadListHeader(input);
    if header.Got? { TagsExtends(header.value.1, [], header.rest, more); }
  }

  lemma {:induction false} MetricExtends(last: int, acc: Metric, input: Bytes, more: Bytes)
    ensures Extends(ReadMetric(last, acc, input), ReadMetric(last, acc, input + more), more)
    decreases |input|
  {
    FieldHeaderExtends(last, input, more);
    var header := ReadFieldHeader(last, input);
    if header.Got? && header.value.Field? {
      var Field(code, id) := header.value;
      if id == 1 && code == C_BINARY {
        BinaryExtends(header.rest, more);
        var v := ReadBinary(header.rest);
        if v.Got? { MetricExtends(id, acc.(name := v.value), v.rest, more); }
      } else if id == 2 && code == C_STRUCT {
        ValueExtends(0, acc.metricValue.GetOr(NEW_VALUE), header.rest, more);
        var v := ReadValue(0, acc.metricValue.GetOr(NEW_VALUE), header.rest);
        if v.Got? { MetricExtends(id, acc.(metricValue := Some(v.value)), v.rest, more); }
      } else if id == 3 && code == C_I64 {
        I64Extends(header.rest, more);
        var v := ReadI64(header.rest);
        if v.Got? { MetricExtends(id, acc.(timestamp := Some(v.value)), v.rest, more); }
      } else if id == 4 && code == C_SET {
        TagSetExtends(header.rest, more);
        var v := ReadTagSet(header.rest);
        if v.Got? { MetricExtends(id, acc.(tags := Some(v.value)), v.rest, more); }
      } else {
        SkipExtends(code, true, header.rest, more);
        var skipped := Skip(code, true, header.rest);
        if skipped.Got? { MetricExtends(id, acc, skipped.rest, more); }
      }
    }
  }

  lemma {:induction false} MetricsExtends(n: nat, acc: seq<Metric>, input: Bytes, more: Bytes)
    ensures Extends(ReadMetrics(n, acc, input), ReadMetrics(n, acc, input + more), more)
  {
    if n > 0 {
      MetricExtends(0, NEW_METRIC, input, more);
      var m := ReadMetric(0, NEW_METRIC, input);
      if m.Got? { MetricsExtends(n - 1, acc + [m.value], m.rest, more); }
    }
  }

  lemma MetricListExtends(input: Bytes, more: Bytes)
    ensures Extends(ReadMetricList(input), ReadMetricList(input + more), more)
  {
    ListHeaderExtends(input, more);
    var header := ReadListHeader(input);
    if header.Got? { MetricsExtends(header.value.1, [], header.rest, more); }
  }

  lemma {:induction false} BatchExtends(last: int, acc: MetricBatch, input: Bytes, more: Bytes)
    ensures Extends(ReadBatch(last, acc, input), ReadBatch(last, acc, input + more), more)
    decreases |input|
  {
    FieldHeaderExtends(last, input, more);
    var header := ReadFieldHeader(last, input);
    if header.Got? && header.value.Field? {
      var Field(code, id) := header.value;
      if id == 1 && code == C_LIST {
        MetricListExtends(header.rest, more);
        var v := ReadMetricList(header.rest);
        if v.Got? { BatchExtends(id, acc.(metrics := v.value), v.rest, more); }
      } else if id == 2 && code == C_SET {
        TagSetExtends(header.rest, more);
        var v := ReadTagSet(header.rest);
        if v.Got? { BatchExtends(id, acc.(commonTags := Some(v.value)), v.rest, more); }
      } else {
        SkipExtends(code, true, header.rest, more);
        var skipped := Skip(code, true, header.rest);
        if skipped.Got? { BatchExtends(id, acc, skipped.rest, more); }
      }
    }
  }

  lemma {:induction false} ArgsExtends(last: int, acc: MetricBatch, input: Bytes, more: Bytes)
    ensures Extends(ReadArgs(last, acc, input), ReadArgs(last, acc, input + more), more)
    decreases |input|
  {
    FieldHeaderExtends(last, input, more);
    var header := ReadFieldHeader(last, input);
    if header.Got? && header.value.Field? {
      var Field(code, id) := header.value;
      if id == 1 && code == C_STRUCT {
        BatchExtends(0, acc, header.rest, more);
        var v := ReadBatch(0, acc, header.rest);
        if v.Got? { ArgsExtends(id, v.value, v.rest, more); }
      } else {
        SkipExtends(code, true, header.rest, more);
        var skipped := Skip(code, true, header.rest);
        if skipped.Got? { ArgsExtends(id, acc, skipped.rest, more); }
      }
    }
  }

  lemma MessageHeaderExtends(input: Bytes, more: Bytes)
    ensures Extends(ReadMessageHeader(input), ReadMessageHeader(input + more), more)
  {
    if |input| >= 2 {
      Tail(input, 2, more);
      assert (input + more)[0] == input[0] && (input + more)[1] == input[1];
      Varint64Extends(input[2..], more);
      var seqid := ReadVarint64(input[2..]);
      if seqid.Got? { BinaryExtends(seqid.rest, more); }
    }
  }

  lemma MessageExtends(input: Bytes, more: Bytes)
    ensures Extends(ReadMessage(input), ReadMessage(input + more), more)
  {
    MessageHeaderExtends(input, more);
    var header := ReadMessageHeader(input);
    if header.Got? { ArgsExtends(0, NEW_BATCH, header.rest, more); }
  }

  // ---------------------------------------------------------------------- cut short

  /** A message that is cut short anywhere is refused. */
  lemma CutMessageIsRefused(b: MetricBatch, k: nat)
    requires BatchFits(b) && k < |MessageBytes(b)|
    ensures ReadMessage(MessageBytes(b)[..k]) == Malformed
  {
    var all := MessageBytes(b);
    MessageRoundTrip(b, []);
    assert all + [] == all && all[..k] + all[k..] == all;
    MessageExtends(all[..k], all[k..]);
    assert |all[k..]| > 0;
  }

  /** And so is a batch. */
  lemma CutBatchIsRefused(b: MetricBatch, k: nat)
    requires BatchFits(b) && k < |BatchBytes(b)|
    ensures ReadBatch(0, NEW_BATCH, BatchBytes(b)[..k]) == Malformed
  {
    var all := BatchBytes(b);
    BatchRoundTrip(b, []);
    assert all + [] == all && all[..k] + all[k..] == all;
    BatchExtends(0, NEW_BATCH, all[..k], all[k..]);
    assert |all[k..]| > 0;
  }
}
