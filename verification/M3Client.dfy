/** The one-way call `emitMetricBatch` as it travels: a message header, then a struct whose
    only field is the batch. */
module M3Client {
  import opened Wrappers
  import opened ByteStrings
  import opened CompactProtocol
  import opened TagSets
  import opened M3Types
  import opened M3RoundTrip

  /** "emitMetricBatch" */
  const METHOD_NAME: Bytes := [101, 109, 105, 116, 77, 101, 116, 114, 105, 99, 66, 97, 116, 99, 104]

  function ArgsBytes(b: MetricBatch): Bytes {
    FieldHeader(0, 1, C_STRUCT) + BatchBytes(b) + [STOP]
  }

  function MessageBytes(b: MetricBatch): Bytes {
    MessageHeader(METHOD_NAME, T_ONEWAY, 0) + ArgsBytes(b)
  }

  function ReadArgs(last: int, acc: MetricBatch, input: Bytes): (r: Parse<MetricBatch>)
    ensures r.Got? ==> |r.rest| < |input|
    decreases |input|
  {
    var (header, rest) :- ReadFieldHeader(last, input);
    match header
    case Stop => Got(acc, rest)
    case Field(code, id) =>
      if id == 1 && code == C_STRUCT then
        var (v, rest') :- ReadBatch(0, acc, rest);
        ReadArgs(id, v, rest')
      else
        var (_, rest') :- Skip(code, true, rest);
        ReadArgs(id, acc, rest')
  }

  /** What the receiving end gets out of a stream: the call's name and its batch. */
  function ReadMessage(input: Bytes): (r: Parse<(Message, MetricBatch)>)
    ensures r.Got? ==> |r.rest| < |input|
  {
    var (message, rest) :- ReadMessageHeader(input);
    var (batch, rest') :- ReadArgs(0, NEW_BATCH, rest);
    Got((message, batch), rest')
  }

  /** A message is received as the call and the batch that were sent, and the next message
      on the stream starts right after it. */
  lemma MessageRoundTrip(b: MetricBatch, rest: Bytes)
    requires BatchFits(b)
    ensures ReadMessage(MessageBytes(b) + rest) == Got((Message(METHOD_NAME, T_ONEWAY, 0), b), rest)
  {
    assert MessageBytes(b) + rest == MessageHeader(METHOD_NAME, T_ONEWAY, 0) + (ArgsBytes(b) + rest);
    MessageHeaderRoundTrip(METHOD_NAME, T_ONEWAY, 0, ArgsBytes(b) + rest);
    ArgsRoundTrip(b, rest);
  }

  lemma ArgsRoundTrip(b: MetricBatch, rest: Bytes)
    requires BatchFits(b)
    ensures ReadArgs(0, NEW_BATCH, ArgsBytes(b) + rest) == Got(b, rest)
  {
    var tail := [STOP] + rest;
    assert ArgsBytes(b) + rest == FieldHeader(0, 1, C_STRUCT) + (BatchBytes(b) + tail);
    BatchFieldRoundTrip(b, tail);
    StopRoundTrip(1, rest);
  }

  lemma BatchFieldRoundTrip(b: MetricBatch, tail: Bytes)
    requires BatchFits(b)
    ensures ReadArgs(0, NEW_BATCH, FieldHeader(0, 1, C_STRUCT) + (BatchBytes(b) + tail)) == ReadArgs(1, b, tail)
  {
    FieldHeaderRoundTrip(0, 1, C_STRUCT, BatchBytes(b) + tail);
    BatchRoundTrip(b, tail);
  }

  // ------------------------------------------------------------- a whole stream

  const EMIT := Message(METHOD_NAME, T_ONEWAY, 0)

  function Stream(batches: seq<MetricBatch>): Bytes {
    if |batches| == 0 then [] else MessageBytes(batches[0]) + Stream(batches[1..])
  }

  /** Message after message to the end of the input. */
  function ReadStream(input: Bytes): Option<seq<(Message, MetricBatch)>>
    decreases |input|
  {
    if input == [] then Some([])
    else
      match ReadMessage(input)
      case Malformed => None
      case Got(first, rest) =>
        match ReadStream(rest)
        case None => None
        case Some(more) => Some([first] + more)
  }

  lemma ReadStreamMore(input: Bytes, first: (Message, MetricBatch), rest: Bytes, more: seq<(Message, MetricBatch)>)
    requires ReadMessage(input) == Got(first, rest) && ReadStream(rest) == Some(more)
    ensures ReadStream(input) == Some([first] + more)
  {
  }

  function Calls(batches: seq<MetricBatch>): seq<(Message, MetricBatch)> {
    seq(|batches|, i requires 0 <= i < |batches| => (EMIT, batches[i]))
  }

  /** A stream of messages is received as the calls that were sent, in order. */
  lemma {:induction false} StreamRoundTrip(batches: seq<MetricBatch>)
    requires forall i :: 0 <= i < |batches| ==> BatchFits(batches[i])
    ensures ReadStream(Stream(batches)) == Some(Calls(batches))
  {
    if |batches| > 0 {
      var more := batches[1..];
      MessageRoundTrip(batches[0], Stream(more));
      StreamRoundTrip(more);
      ReadStreamMore(Stream(batches), (EMIT, batches[0]), Stream(more), Calls(more));
      CallsMore(batches);
    } else {
      assert Calls(batches) == [];
    }
  }

  lemma CallsMore(batches: seq<MetricBatch>)
    requires |batches| > 0
    ensures Calls(batches) == [(EMIT, batches[0])] + Calls(batches[1..])
  {
  }

  // ----------------------------------------------------------------- message size

  /** What a batch without metrics takes: the bytes the estimator restarts from. */
  function BatchOverhead(commonTags: seq<MetricTag>): nat {
    |BatchBytes(MetricBatch([], Some(commonTags)))|
  }

  /** How much longer the list header is than the one byte of an empty list. */
  function ListExtra(n: nat): nat {
    if n <= 14 then 0 else |Varint(n)|
  }

  const ENVELOPE: nat := 21

  lemma ListHeaderLength(n: nat)
    ensures |ListHeader(n, C_STRUCT)| == 1 + ListExtra(n)
  {
  }

  lemma MessageHeaderLength()
    ensures |MessageHeader(METHOD_NAME, T_ONEWAY, 0)| == 19
  {
    assert Varint(0) == [0];
    assert |METHOD_NAME| == 15;
    assert Varint(15) == [15];
  }

  /** The size of a message is exactly what its parts say: the envelope, the batch without
      metrics, the longer list header, and the metrics. */
  lemma MessageSize(metrics: seq<Metric>, commonTags: seq<MetricTag>)
    ensures |MessageBytes(MetricBatch(metrics, Some(commonTags)))|
         == ENVELOPE + BatchOverhead(commonTags) + ListExtra(|metrics|) + |MetricsBytes(metrics)|
  {
    var b, empty := MetricBatch(metrics, Some(commonTags)), MetricBatch([], Some(commonTags));
    MessageHeaderLength();
    assert CommonTagsFieldBytes(1, b) == CommonTagsFieldBytes(1, empty);
    ListHeaderLength(|metrics|);
    ListHeaderLength(0);
    assert |MetricListBytes(metrics)| == 1 + ListExtra(|metrics|) + |MetricsBytes(metrics)|;
    assert |MetricListBytes([])| == 1;
    assert |ArgsBytes(b)| == 2 + |BatchBytes(b)|;
    assert |BatchBytes(b)| == 1 + |MetricListBytes(metrics)| + |CommonTagsFieldBytes(1, b)|;
    assert |BatchBytes(empty)| == 1 + |MetricListBytes([])| + |CommonTagsFieldBytes(1, b)|;
  }

  lemma {:induction false} MetricsBytesConcat(a: seq<Metric>, b: seq<Metric>)
    ensures MetricsBytes(a + b) == MetricsBytes(a) + MetricsBytes(b)
  {
    if |a| == 0 {
      assert a + b == b;
    } else {
      assert (a + b)[1..] == a[1..] + b;
      MetricsBytesConcat(a[1..], b);
    }
  }

  lemma MetricsBytesAppend(a: seq<Metric>, m: Metric)
    ensures |MetricsBytes(a + [m])| == |MetricsBytes(a)| + |MetricBytes(m)|
  {
    MetricsBytesConcat(a, [m]);
    assert MetricsBytes([m]) == MetricBytes(m) + MetricsBytes([]);
  }

  /** A metric is at least a name header, a length and a stop byte. */
  lemma MetricLength(m: Metric)
    ensures 3 <= |MetricBytes(m)|
  {
    assert 1 <= |ValueFieldBytes(1, m)| by {
      assert 1 <= |TagsFieldBytes(1, m)| && 1 <= |TagsFieldBytes(2, m)| && 1 <= |TagsFieldBytes(3, m)|;
      assert 1 <= |TimestampFieldBytes(1, m)| && 1 <= |TimestampFieldBytes(2, m)|;
    }
    assert 1 <= |BinaryBytes(m.name)|;
  }

  lemma {:induction false} MetricsLength(metrics: seq<Metric>)
    ensures 3 * |metrics| <= |MetricsBytes(metrics)|
  {
    if |metrics| > 0 {
      MetricLength(metrics[0]);
      MetricsLength(metrics[1..]);
    }
  }
}
