/** `ReportHistogramDurationSamples`: a counter with two more tags, for the bucket's bounds and
    for its number. */
module HistogramReport {
  import opened Wrappers
  import opened ByteStrings
  import opened CompactProtocol
  import opened Decimals
  import opened TagSets
  import opened M3Types
  import opened ReporterState
  import opened DurationText
  import opened BucketIds
  import opened ReporterImpl
  import C = Counters

  // "bucket" and "bucketid" in ASCII.
  const BUCKET_NAME: Bytes := [98, 117, 99, 107, 101, 116]
  const BUCKET_ID_NAME: Bytes := [98, 117, 99, 107, 101, 116, 105, 100]

  /** The text of an interval: two durations that read back, with a hyphen in between. */
  ghost predicate IsInterval(text: Bytes, lower: int, upper: int) {
    exists lo, up :: text == lo + [45] + up && ReadsBack(lo, lower) && ReadsBack(up, upper)
  }

  /** The tags of a map, and the two of a bucket. */
  ghost predicate BucketTags(metricTags: seq<MetricTag>, tags: map<Bytes, Bytes>, bounds: Bytes, id: Bytes) {
    && Sorted(metricTags)
    && forall t :: t in metricTags <==>
      || (t.tagValue.Some? && t.tagName in tags && tags[t.tagName] == t.tagValue.value)
      || t == MetricTag([98, 117, 99, 107, 101, 116], Some(bounds))
      || t == MetricTag([98, 117, 99, 107, 101, 116, 105, 100], Some(id))
  }

  lemma InsertSet(tags: seq<MetricTag>, t: MetricTag)
    requires Sorted(tags) && t.tagValue.Some? && forall u :: u in tags ==> u.tagValue.Some?
    ensures Sorted(Insert(tags, t)) && forall u :: u in Insert(tags, t) <==> u in tags || u == t
  {
    InsertKeepsSet(tags, t);
    if i :| 0 <= i < |tags| && Equivalent(tags[i], t) {
      assert tags[i] in tags && tags[i] == t;
    }
  }

  /** Of samples that do not fit into int64 the counter carries the low 64 bits. */
  method ReportHistogramDurationSamples(
    reporter: Impl, name: Bytes, tags: map<Bytes, Bytes>, bucketId: nat, lower: Int64, upper: Int64, samples: nat,
    now: Int64, tieUp: bool) returns (metric: Metric, ghost bounds: Bytes, ghost id: Bytes)
    requires reporter.Valid() && lower != -TWO_63 && upper != -TWO_63
    modifies reporter`queue, reporter`accepted
    ensures reporter.Valid() && FromReport(metric) && metric.name == name && metric.timestamp == Some(now)
    ensures metric.metricValue == Some(MetricValue(Some(CountValue(Some(C.Wrap64(samples)))), None, None))
    ensures BucketTags(metric.tags.value, tags, bounds, id) && IsInterval(bounds, lower, upper)
    ensures AllDigits(id) && |id| >= 4 && ValueOf(id) == bucketId
    ensures reporter.run && |old(reporter.queue)| < reporter.config.maxQueueSize ==>
      reporter.queue == old(reporter.queue) + [metric]
    ensures !reporter.run || |old(reporter.queue)| == reporter.config.maxQueueSize ==>
      reporter.queue == old(reporter.queue)
  {
    var metricTags := ConvertTags(tags);
    var lo := DurationBucketString(lower, tieUp);
    var up := DurationBucketString(upper, tieUp);
    bounds := lo + [MINUS] + up;
    InsertSet(metricTags, MetricTag(BUCKET_NAME, Some(bounds)));
    metricTags := Insert(metricTags, MetricTag(BUCKET_NAME, Some(lo + [MINUS] + up)));
    var number := BucketID(bucketId);
    id := number;
    InsertSet(metricTags, MetricTag(BUCKET_ID_NAME, Some(number)));
    metricTags := Insert(metricTags, MetricTag(BUCKET_ID_NAME, Some(number)));
    var count := CounterReading(C.Wrap64(samples));
    metric := Metric(name, Some(CreateValue(count)), Some(now), Some(metricTags));
    reporter.Enqueue(metric);
  }
}
