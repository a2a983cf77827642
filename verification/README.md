# A Dafny model of tally-cpp

tally-cpp collects counters, gauges and histograms in a tree of scopes and reports them; its M3
reporter batches metrics on a background thread, serializes the batches with Thrift's compact
protocol and sends them over UDP. This project models those parts and proves what they are for.

`dafny verify dfyconfig.toml` checks everything.

## How the model is laid out

Concurrent components come as a pair: a state machine whose steps are the sections that run under
a mutex (or single accesses to an atomic), with theorems about every sequence of its steps, and a
class whose methods update the fields in place. The contracts of the class name the machine's
steps: one step for a critical section of the reporter or the UDP transport; two steps for a call
of `GaugeImpl::Update`; one step of every bank of counters that the object is a cell of, for
`CounterImpl`; and a run of the bank of its buckets' counters, for `HistogramImpl`. They also say
in plain terms, on the fields and with the code's constants, what each method does. Histories of a
machine (what was offered, written, sent, stored or counted) are proved to be those of the steps of
the run.

* **M3 reporter.** `ReporterState` holds the shared data and the atomic actions, `ReporterMachine`
  the program counters of producers, background thread, flushing threads and destructor,
  `ReporterProofs` the invariants and results, `ReporterRuns` what becomes of every metric
  offered and which runs there are, `PacketLimits` the exact conditions on packet sizes with the
  runs that reach them, `ReporterImpl` the class, `HistogramReport` the metric of a histogram
  bucket. `CalcTransport` is the byte estimator. `Emission` puts the client on top of the UDP
  transport.
* **Wire format.** `CompactProtocol` is the compact protocol on bytes (Apache Thrift,
  `doc/specs/thrift-compact-protocol.md`). `M3Types` says what each `write` emits and each `read`
  accepts, `M3RoundTrip` connects the two, `M3Codec` has the imperative writers and readers over
  the streams of `CompactStreams`, `M3Client` the message around a batch, `TagSets` the ordered
  tag sets. `WireFormat` fixes the bytes themselves, with the standard's numbers; `WireReading`
  says what a reader does with any one field, known or not, and what it refuses; `WireLocality`
  that no reader looks behind what it takes, so that a message cut short is refused.
* **Scopes.** `ScopeIds`, `ScopeIdUniqueness` and `IdReadings` are about the printed IDs and all
  ways to read them, `ScopeNames` about names and tags along a chain of requests, `ScopeForest`
  about the shape of the heap, `ScopeRequests` and `CleanTags` about which requests the registry
  answers as asked, and `ScopeTree` about the operations. `ReportWalk` is a report that other
  threads interrupt, and `ReportValues` adds what it does to gauges and histograms. `Counters`,
  `Gauges`, `Buckets`, `HistogramSpec`, `DoubleLimits` and `Histograms` are the metrics.
* **Text and transport.** `Decimals`, `BucketIds` and `DurationText` are the texts of bucket tags;
  `UdpState` and `UdpTransport` the two-buffer UDP transport, `UdpRuns` its streams in terms of
  the calls and completions of a run.

Conventions: strings are sequences of bytes. An optional Thrift member with its `__isset` flag is
an `Option`. `GaugeValue` and `TimerValue`, which have the same members and the same code, share
`NumberValue`. A double is eight opaque bytes on the wire and a real number in gauges and
histograms. A `std::set` of tags is a strictly increasing sequence. Hash maps are walked in an
arbitrary order, and results are proved not to depend on it.

## What the code does that one might not expect

* `Tagged` keeps the parent's value of a common tag, because the parent's tags are inserted first
  and `insert` does not replace (tally/src/scope_impl.cc:138-144). The comment above the loop and
  tally/include/tally/scope.h:59-61 say the provided tags win. The model follows the code;
  `MergeMatchesDocumentation` says exactly when the two agree.
* `scope_impl.h` promises a unique ID for a scope. Two different scopes can print the same ID;
  `UniqueExactly` says exactly which prefixes and tags have an ID of their own. What matters to a
  registry is whether another request to the same scope can print the ID. `SubAnsweredExactly`
  and `TaggedAnsweredExactly` say for every request exactly when it is always answered with the
  scope asked for; `SubOfUntagged`, `TaggedOfUntagged` and `PlainTaggedExactly` say it in terms of
  characters and key order for scopes without tags and for tags without delimiters. A request for
  the tags a=1 and b=2 can return the scope whose one tag a has the value `1,b=2` (`WrongScope`).
* The estimator does not count the bytes around the metrics of a batch, among them the common tags,
  until its first overflow. So a first batch can exceed the packet size: with packets of 110 bytes
  and no common tags, one of 114 is sent (`FirstBatchOverflows`). `PacketsFitExactly` says exactly
  when no run sends a batch that is too large; every metric that is reported takes at least 13
  bytes, the clock's reading being a parameter. After the first overflow the fifth of the packet
  that is kept back has to hold the message envelope and the list header only, which it does for
  every packet size from 101 on (`ReservedFifthSuffices`, `From101`).
* `TUDPTransport` does not work after a second `open`: closing stops the i/o context and nothing
  restarts it, so that a `flush` is not notified before the next `close` (`ReopenedIsForgotten`,
  `ReopenedFlushHangs`).
* The first histogram bucket announces `numeric_limits<double>::min()` as its lower bound, a tiny
  positive number, but counts all values below its upper bound (`BucketInterval`).
* Exponential buckets with a negative start have decreasing bounds, on which the binary search of
  `Record` goes wrong (`SearchAgreesExactly`, `DecreasingMisleads`).
* In `DurationBucketString` the microsecond branch repeats the millisecond test and is dead, and
  the two `numeric_limits` of `std::chrono::nanoseconds` are both zero, so that "infinity" and
  "-infinity" are never printed. Durations below a millisecond are printed in nanoseconds.

## Model

| member | source | states |
|---|---|---|
| ReporterProofs.AcceptedInOrder | m3/src/reporter_impl.cc:339-439 | in every interleaving the accepted metrics are the batches handed to the client, then the current batch, then the metric in process, then the queue: nothing lost, repeated or reordered; the queue never exceeds its maximum |
| ReporterRuns.OffersDecided | m3/src/reporter_impl.cc:421-439 | in every run the accepted metrics are, in order, those offered while the reporter ran to a queue with room; a metric offered while it ran is missing only if the queue held exactly the maximum then |
| ReporterRuns.OffersAreMade | m3/src/reporter_impl.cc:421-439 | the offers are the metrics of the run's `Enqueue` calls, all of them and in order |
| ReporterRuns.RunsUntilDestroyed | m3/src/reporter_impl.cc:69-76 | the reporter runs exactly until the destructor's first step |
| ReporterRuns.QueueFills | m3/src/reporter_impl.cc:432-438 | the queue can hold any list of reportable metrics up to its maximum |
| ReporterRuns.QueueHolds | m3/src/reporter_impl.cc:432-438 | every length up to the maximum is reached |
| ReporterProofs.NoLostWakeupNoDeadlock | m3/src/reporter_impl.cc:344-378 | an unnotified wait has an empty queue and either the reporter runs or the destructor is about to notify; pending work always leaves a thread able to step, and a finished background thread lets the destructor finish |
| ReporterProofs.EstimatorSound | m3/src/reporter_impl.cc:381-419 | the estimator equals the bytes written to it since its reset, covers the current batch however flushes interleave, and a batch has at most one metric or totals at most the limit |
| ReporterProofs.PacketBound | m3/src/reporter_impl.cc:52-54 | an upper bound in every run: an emitted batch, other than a lone oversized metric, is a message of at most the limit plus envelope and list header, and at most the configured packet size when the kept-back fifth exceeds the envelope; batches before the first estimator reset may add the uncounted bytes around the metrics |
| PacketLimits.PacketsFitExactly | m3/src/reporter_impl.cc:381-402 | in all runs every emitted batch of two or more metrics is a message of at most the packet size, if and only if nothing can be queued, or no two reported metrics fit under the limit, or the limit plus envelope, longest list header and batch overhead is within the packet size |
| PacketLimits.ReservedFifthSuffices | m3/src/reporter_impl.cc:387-398 | the same for the batches emitted after an estimator reset, with its own exact condition, in which the batch overhead counts towards the limit |
| PacketLimits.From101 | m3/src/reporter_impl.cc:53-54 | after a reset the packets fit for every packet size from 101 on, whatever the common tags |
| PacketLimits.ReportedLength | m3/src/reporter_impl.cc:169-199 | every metric that `ReportMetric` can build takes at least 13 bytes |
| PacketLimits.FullFirstBatch | m3/src/reporter_impl.cc:169-183 | for every such configuration a reachable state whose first batch fills the limit with as many reported metrics as possible: the worst case is met |
| PacketLimits.FullLaterBatch | m3/src/reporter_impl.cc:387-398 | the same for a batch after two estimator resets |
| PacketLimits.FirstBatchOverflows | m3/src/reporter_impl.cc:381-402 | the failing input: with packets of 110 bytes and no common tags a run sends a batch of several counters as 114 bytes |
| ReporterProofs.LoneMetricPacket | m3/src/reporter_impl.cc:404-419 | a batch of one metric is a message of exactly the envelope, the batch overhead and the metric |
| ReporterProofs.WorkShrinks | m3/src/reporter_impl.cc:344-378 | while the background thread holds the run mutex or the reporter shuts down, its own steps decrease a measure that no other thread's step increases |
| ReporterProofs.ShutdownTerminates | m3/src/reporter_impl.cc:346-357 | after the running flag is cleared the background thread takes at most the measure's number of steps under any interleaving, can always step once notified, and has returned when it took them all |
| ReporterProofs.DestructorDrains | m3/src/reporter_impl.cc:69-81 | when the destructor has joined the thread, queue and batch are empty and the client was handed every accepted metric once, in order |
| ReporterRuns.DestructionCompletes | m3/src/reporter_impl.cc:69-81 | from every reachable state of a running reporter the destructor can be called and come to its end, with everything accepted handed to the client |
| ReporterProofs.WaitMeansCaughtUp | m3/src/reporter_impl.cc:361-377 | when the background thread waits unnotified, all accepted metrics are with the client or in the batch |
| ReporterProofs.InvKept | m3/src/reporter_impl.cc:339-439 | every step of every thread keeps the invariant: order, control, wakeups, estimator and batch sizes |
| ReporterProofs.ProcessStepsCompose | m3/src/reporter_impl.cc:381-402 | the atomic steps of `Process`, taken without interruption, amount to the whole call: two within the limit, four on overflow |
| Emission.EmitMetricBatch | m3/include/m3/thrift/M3.cpp:95-107 | an open transport accepts the whole message behind what it holds; it then drops all of that if and only if no other flush is under way and it is above 65000 bytes, and otherwise keeps it for the next send |
| Emission.Send | m3/src/udp_transport_impl.cc:175-225 | the same for any message: one write, and a flush up to its wait |
| Emission.WritesJoin | m3/src/udp_transport_impl.cc:175-188 | two writes are one write of both |
| Emission.SentStreamReadsBack | m3/src/udp_transport_impl.cc:175-278 | if the transport accepted the messages of some batches, dropped none and has nothing left, what the socket took reads as those batches in order |
| ReporterState.FlushKeepsHanded | m3/src/reporter_impl.cc:404-419 | a flush, successful or not, moves the batch to the emitted ones and changes no order |
| ReporterImpl.ProcessHands | m3/src/reporter_impl.cc:381-402 | processing puts one metric behind everything handed over so far and leaves the queue alone |
| ReporterImpl.Impl.constructor | m3/src/reporter_impl.cc:47-67 | starts running with nothing queued, batched or emitted; the queue stays within its maximum from then on |
| ReporterImpl.Impl.Report | m3/src/reporter_impl.cc:86-110 | builds a metric with all members set, the counter, gauge or timer member holding what is reported, the clock's reading and exactly the given tags, and enqueues it |
| HistogramReport.ReportHistogramDurationSamples | m3/src/reporter_impl.cc:141-167 | a counter of the samples, in 64 bits, whose tags are the given ones and two more: "bucket" with the two bounds, each read back by the parser of durations, and "bucketid" with at least four digits of the number; enqueued like any metric |
| ReporterImpl.Impl.Enqueue | m3/src/reporter_impl.cc:421-439 | appends the metric whenever the reporter runs and the queue is below its maximum; otherwise changes nothing |
| ReporterImpl.Impl.Flush | m3/src/reporter_impl.cc:404-419 | nothing on an empty batch; otherwise exactly one message, with the batch and the common tags, is written and the batch recorded as emitted, and the batch is cleared even when the client throws |
| ReporterImpl.Impl.Show | m3/src/reporter_impl.cc:381-385 | adds the metric's encoded size to the estimate, modulo 2^32, and reads it |
| ReporterImpl.Impl.Restart | m3/src/reporter_impl.cc:387-398 | after an overflow the estimator has been shown an empty batch with the common tags and the metric that did not fit |
| ReporterImpl.Impl.WireReadsBack | m3/src/reporter_impl.cc:404-419 | end to end: a receiver that reads the stream of all messages gets the emitted batches with the common tags, in order |
| ReporterImpl.Impl.Process | m3/src/reporter_impl.cc:381-402 | when the estimate with the metric exceeds four fifths of the packet (`max_packet_size / 5 * 4`) the batch is emitted, the estimate restarts at the batch overhead and the metric, and the metric starts a new batch; otherwise it joins the batch: the whole new state |
| ReporterImpl.Impl.DequeueAll | m3/src/reporter_impl.cc:361-373 | empties the queue, hands its metrics on in order, and emits nothing but what overflows |
| ReporterImpl.Impl.Drain | m3/src/reporter_impl.cc:349-354 | the shutdown branch's loop, likewise |
| ReporterImpl.Impl.DrainAndFlush | m3/src/reporter_impl.cc:346-357 | the shutdown branch: everything batched or queued has been emitted in order, and nothing is left |
| CalcTransport.TCalcTransport.WriteVirt | m3/src/calc_transport.cc:35-37 | the counter is the number of bytes written since the last flush, modulo 2^32, however they are cut into writes |
| CalcTransport.TCalcTransport.Flush | m3/src/calc_transport.cc:41 | the count starts again |
| CalcTransport.TCalcTransport.Size | m3/src/calc_transport.cc:43 | the length of what was written since the last flush, in 32 bits |
| TagSets.TagLessIsStrictWeakOrder | m3/include/m3/thrift/operator.cpp:28-34 | `operator<` is irreflexive, asymmetric and transitive, and incomparable tags have equal names and values; different names decide, and values between equal ones |
| ByteStrings.StringLessExactly | m3/include/m3/thrift/operator.cpp:28-34 | strings compare by the first byte that differs, and a proper prefix comes first |
| TagSets.InsertKeepsSet | m3/src/reporter_impl.cc:212-218 | inserting into an ordered tag set adds exactly the new tag, or nothing when an equivalent one is there |
| TagSets.SortedIsCanonical | m3/include/m3/thrift/operator.cpp:28-34 | an ordered tag set is determined by its members |
| TagSets.ConvertTags | m3/src/reporter_impl.cc:210-220 | the ordered set with one tag, value set, for each entry of the map and no other, in whatever order the map is walked |
| CompactProtocol.I64RoundTrip | m3/include/m3/thrift/m3_types.cpp:73-86 | zigzag varints: a 64-bit integer is read back and the bytes behind it are left |
| CompactProtocol.BinaryRoundTrip | m3/include/m3/thrift/m3_types.cpp:549-566 | length-prefixed strings are read back and the bytes behind them are left |
| CompactProtocol.FieldHeaderRoundTrip | m3/include/m3/thrift/m3_types.cpp:425-448 | field headers, with a short or a long field identifier, are read back relative to the previous field |
| CompactProtocol.ListHeaderRoundTrip | m3/include/m3/thrift/m3_types.cpp:867-885 | list and set headers, short or long, are read back |
| CompactProtocol.MessageHeaderRoundTrip | m3/include/m3/thrift/M3.cpp:95-98 | message headers are read back with name, kind and sequence number |
| WireFormat.VarintOnTheWire | m3/include/m3/thrift/m3_types.cpp:73-86 | a varint carries its number in groups of seven bits, marks every byte but the last, and is as short as possible: so it is the only such string of bytes |
| WireFormat.SignedOnTheWire | m3/include/m3/thrift/m3_types.cpp:73-86 | a signed v is written as the varint of 2v, or of -2v-1 when it is negative |
| WireFormat.SomeIntegers | m3/include/m3/thrift/m3_types.cpp:73-86 | the bytes of some integers |
| WireFormat.StringOnTheWire | m3/include/m3/thrift/m3_types.cpp:549-566 | a string is its length and its bytes |
| WireFormat.ContainerOnTheWire | m3/include/m3/thrift/m3_types.cpp:867-885 | the header of a list or set of structs: 0x10 n + 0x0C up to 14 elements, 0xFC and the count from there on |
| WireFormat.CountOnTheWire | m3/include/m3/thrift/m3_types.cpp:73-86 | the field header 0x16 in front of the value, and the stop byte |
| WireFormat.NumberOnTheWire | m3/include/m3/thrift/m3_types.cpp:180-198 | the field headers 0x16 and 0x17, or 0x27 when the first member is not set, and the stop byte |
| WireFormat.ValueOnTheWire | m3/include/m3/thrift/m3_types.cpp:425-448 | the same for `MetricValue`, whose field headers depend on which members are set |
| WireFormat.ReadingOnTheWire | m3/src/reporter_impl.cc:185-208 | a counter, a gauge and a timer are written in the fields 1, 2 and 3 of the value |
| WireFormat.TagOnTheWire | m3/include/m3/thrift/m3_types.cpp:549-566 | the same for `MetricTag` |
| WireFormat.TagSetOnTheWire | m3/include/m3/thrift/m3_types.cpp:720-732 | a tag set is its header and its tags |
| WireFormat.MetricOnTheWire | m3/include/m3/thrift/m3_types.cpp:702-737 | the same for `Metric` |
| WireFormat.MetricsOnTheWire | m3/include/m3/thrift/m3_types.cpp:867-885 | metrics follow each other in their order |
| WireFormat.BatchOnTheWire | m3/include/m3/thrift/m3_types.cpp:867-900 | the same for `MetricBatch` |
| WireFormat.MessageIsPreambleAndBatch | m3/include/m3/thrift/M3.cpp:95-107 | every message is the twenty bytes 0x82 0x81 0x00 0x0F "emitMetricBatch" 0x1C, the batch, and a stop byte: a one-way call of version 1 with sequence number 0 |
| WireLocality.CutBatchIsRefused | m3/include/m3/thrift/m3_types.cpp:793-865 | a reader refuses every proper prefix of a batch's bytes |
| WireLocality.CutMessageIsRefused | m3/include/m3/thrift/M3.cpp:95-107 | every proper prefix of a message is refused |
| WireReading.CountReadOnto | m3/include/m3/thrift/m3_types.cpp:32-71 | whatever was in the object, reading a `CountValue` sets the member that was written and leaves it alone if none was |
| WireReading.NumberReadOnto | m3/include/m3/thrift/m3_types.cpp:131-178 | likewise for gauges and timers: an object that is read twice is merged |
| WireReading.ValueCountRead | m3/include/m3/thrift/m3_types.cpp:368-423 | a count field is read into the count there is, wherever it stands among the fields |
| WireReading.ValueGaugeRead | m3/include/m3/thrift/m3_types.cpp:368-423 | the same for a gauge field |
| WireReading.ValueTimerRead | m3/include/m3/thrift/m3_types.cpp:368-423 | the same for a timer field |
| WireReading.TagNameRead | m3/include/m3/thrift/m3_types.cpp:500-547 | a name field replaces the name |
| WireReading.TagValueRead | m3/include/m3/thrift/m3_types.cpp:500-547 | a value field replaces the value |
| WireReading.MetricNameRead | m3/include/m3/thrift/m3_types.cpp:624-700 | a name field replaces the name |
| WireReading.MetricValueRead | m3/include/m3/thrift/m3_types.cpp:624-700 | a value field is read into the value there is |
| WireReading.MetricTimestampRead | m3/include/m3/thrift/m3_types.cpp:624-700 | a timestamp field replaces the timestamp |
| WireReading.MetricTagsRead | m3/include/m3/thrift/m3_types.cpp:624-700 | a tags field replaces the tags |
| WireReading.BatchMetricsRead | m3/include/m3/thrift/m3_types.cpp:793-865 | a metrics field replaces the metrics |
| WireReading.BatchTagsRead | m3/include/m3/thrift/m3_types.cpp:793-865 | a common tags field replaces the common tags |
| WireReading.MetricOtherRead | m3/include/m3/thrift/m3_types.cpp:624-700 | a field with another identifier or another type is skipped, and the object is as before |
| WireReading.BatchOtherRead | m3/include/m3/thrift/m3_types.cpp:793-865 | the same in a batch |
| WireReading.ValueOtherRead | m3/include/m3/thrift/m3_types.cpp:368-423 | the same in a metric value |
| WireReading.TagOtherRead | m3/include/m3/thrift/m3_types.cpp:500-547 | the same in a tag |
| WireReading.NumberOtherRead | m3/include/m3/thrift/m3_types.cpp:131-178 | the same in a gauge or timer value |
| WireReading.CountOtherRead | m3/include/m3/thrift/m3_types.cpp:32-71 | the same in a count value |
| WireReading.SkipBatch | m3/include/m3/thrift/m3_types.cpp:793-865 | skipping a whole batch as an unknown field leaves exactly what follows it |
| WireReading.UnknownTypeRefused | m3/include/m3/thrift/m3_types.cpp:793-865 | type codes above 12 are refused in fields and containers |
| WireReading.NegativeSizeRefused | m3/include/m3/thrift/m3_types.cpp:500-547 | lengths with the sign bit of 32 bits are refused, and all smaller ones read |
| WireReading.OverlongRefused | m3/include/m3/thrift/m3_types.cpp:32-71 | integers of more than ten bytes are refused |
| WireReading.ForeignMessageRefused | m3/include/m3/thrift/M3.cpp:95-98 | a message of another protocol or version is refused |
| M3RoundTrip.CountRoundTrip | m3/include/m3/thrift/m3_types.cpp:32-86 | `CountValue` written and read into a fresh object is itself, for any following bytes |
| M3RoundTrip.NumberRoundTrip | m3/include/m3/thrift/m3_types.cpp:131-198 | the same for `GaugeValue` and `TimerValue`, with either, both or no member set |
| M3RoundTrip.ValueRoundTrip | m3/include/m3/thrift/m3_types.cpp:368-448 | the same for `MetricValue` |
| M3RoundTrip.TagRoundTrip | m3/include/m3/thrift/m3_types.cpp:500-566 | the same for `MetricTag` |
| M3RoundTrip.TagSetRoundTrip | m3/include/m3/thrift/m3_types.cpp:673-687 | a tag set is rebuilt, in order, by inserting its elements one by one |
| M3RoundTrip.MetricRoundTrip | m3/include/m3/thrift/m3_types.cpp:624-737 | the same for `Metric` |
| M3RoundTrip.BatchRoundTrip | m3/include/m3/thrift/m3_types.cpp:793-900 | every well-formed batch, read into a fresh object, is equal to the one written, and the reader stops where the writer stopped, for any following bytes |
| M3RoundTrip.BatchEncodingIsPrefixFree | m3/include/m3/thrift/m3_types.cpp:867-900 | no two batches share an encoding and none is a proper prefix of another |
| M3Codec.WriteCount | m3/include/m3/thrift/m3_types.cpp:73-86 | appends exactly the specified bytes and restores the writer's field bookkeeping |
| M3Codec.WriteNumber | m3/include/m3/thrift/m3_types.cpp:180-198 | the same for gauges and timers |
| M3Codec.WriteValue | m3/include/m3/thrift/m3_types.cpp:425-448 | the same for metric values |
| M3Codec.WriteTag | m3/include/m3/thrift/m3_types.cpp:549-566 | the same for tags |
| M3Codec.WriteTagSet | m3/include/m3/thrift/m3_types.cpp:720-732 | the same for tag sets, element by element |
| M3Codec.WriteMetric | m3/include/m3/thrift/m3_types.cpp:702-737 | the same for metrics |
| M3Codec.WriteBatch | m3/include/m3/thrift/m3_types.cpp:867-900 | the same for batches |
| M3Codec.WriteArgs | m3/include/m3/thrift/M3.cpp:76-88 | the same for the arguments of the call |
| M3Codec.SendEmitMetricBatch | m3/include/m3/thrift/M3.cpp:95-107 | appends the twenty bytes of the one-way call `emitMetricBatch`, written out, then the batch and a stop byte, and nothing else |
| M3Codec.ReadCountInto | m3/include/m3/thrift/m3_types.cpp:32-71 | the reading loop on every input, malformed ones included, agrees with the reading function: it fails, or yields that value and leaves that rest of the input |
| M3Codec.ReadNumberInto | m3/include/m3/thrift/m3_types.cpp:131-178 | the same for gauges and timers |
| M3Codec.ReadValueInto | m3/include/m3/thrift/m3_types.cpp:368-423 | the same for metric values |
| M3Codec.ReadTagInto | m3/include/m3/thrift/m3_types.cpp:500-547 | the same for tags |
| M3Codec.ReadTagSetInto | m3/include/m3/thrift/m3_types.cpp:673-687 | the same for tag sets |
| M3Codec.ReadMetricInto | m3/include/m3/thrift/m3_types.cpp:624-700 | the same for metrics |
| M3Codec.ReadMetricListInto | m3/include/m3/thrift/m3_types.cpp:815-830 | the same for the metric list |
| M3Codec.ReadBatchInto | m3/include/m3/thrift/m3_types.cpp:793-865 | the same for batches |
| M3Codec.WriteThenRead | m3/include/m3/thrift/m3_types.cpp:793-900 | running the writer and then the reader gives the batch back and leaves what followed unread |
| M3Client.ArgsRoundTrip | m3/include/m3/thrift/M3.cpp:16-88 | the arguments struct is read back as the batch |
| M3Client.MessageRoundTrip | m3/include/m3/thrift/M3.cpp:95-107 | a message is received as the call and the batch sent, and the next message starts right behind it |
| M3Client.StreamRoundTrip | m3/include/m3/thrift/M3.cpp:95-107 | a stream of messages is received, to its end, as the calls that were sent, in order |
| M3Client.MessageSize | m3/include/m3/thrift/M3.cpp:76-107 | the exact size of a message: a fixed envelope, the batch without metrics, the longer list header, the metrics |
| Counters.CounterImpl.Inc | tally/src/counter_impl.cc:35 | adds the delta to the current value, modulo 2^64: the increment step of every bank with this counter |
| Counters.CounterImpl.Value | tally/src/counter_impl.cc:47-52 | returns the current value less the one last reported, which is the current one from then on: the report step of every bank with this counter, which logs that value |
| Counters.CounterImpl.Report | tally/src/counter_impl.cc:37-45 | a reporter gets the pending delta unless it is zero; it is consumed either way |
| Counters.CounterConserved | tally/src/counter_impl.cc:35-52 | in every run with any interleaving, reported plus pending is the 64-bit sum of the run's increments |
| Counters.IncrementsCounted | tally/src/counter_impl.cc:35 | the history of increments is that of the run's `Inc` steps |
| Counters.LabelConserved | tally/src/counter_impl.cc:35-52 | the same summed over all counters that share a label |
| Counters.ReportCoversEarlierIncrements | tally/src/counter_impl.cc:37-52 | a counter reported during a run has accounted for every increment finished before the run |
| Gauges.GaugeImpl.Update | tally/src/gauge_impl.cc:29-32 | takes the two steps of an updater, and keeps the invariant of all runs |
| Gauges.GaugeImpl.Report | tally/src/gauge_impl.cc:34-42 | with a reporter takes the two steps of a report if the flag is up, and the first one if not; the flag is down afterwards; without a reporter the flag is lowered all the same |
| Gauges.LatestNotLost | tally/src/gauge_impl.cc:29-42 | with any number of writers, the current value is the last one stored in the run; if it was not read for reporting then the flag is up, a writer is between its stores, or the reporter is between its steps |
| Gauges.ReportsAreUpdates | tally/src/gauge_impl.cc:29-42 | only values that the run's updates stored are reported, at most one report for each update |
| Gauges.QuietReportSettles | tally/src/gauge_impl.cc:34-42 | once writers are done, one report leaves the newest value read, and reports it exactly when the flag was up |
| Buckets.OrderedExactly | tally/src/buckets_calculator.cc:31-37 | the bounds are in order if and only if growth is linear, or the start is not negative, or there is one bound |
| Buckets.CalculateSteps | tally/src/buckets_calculator.cc:31-37 | the first bound is the start, and each next one is the width more than, or the factor times, the one before |
| Buckets.ValueBounds | tally/src/buckets.cc:37-55 | value buckets are made if and only if the number is positive and the width is, or the factor is above one; the bounds start at `start` and grow by the width or the factor |
| Buckets.LinearBounds | tally/src/buckets.cc:57-66 | duration buckets likewise: the bounds are those of the value buckets with the same numbers, in nanoseconds |
| Buckets.ExponentialBounds | tally/src/buckets.cc:68-78 | likewise for exponential growth |
| Buckets.BucketsIterator.Increment | tally/src/buckets_iterator.cc:30-33 | moves to the next index |
| Buckets.BucketsIterator.PostIncrement | tally/src/buckets_iterator.cc:35-41 | moves on and returns a separate iterator at the old place |
| Buckets.Begin | tally/src/buckets.cc:80-82 | a new iterator at the first bound |
| Buckets.End | tally/src/buckets.cc:84-86 | a new iterator past the last bound |
| HistogramSpec.SearchAgreesExactly | tally/src/histogram_impl.cc:68-75 | binary search and linear scan pick the same bucket for every value if and only if growth is linear, or the start is not negative, or there is one bound |
| HistogramSpec.SearchIsFirstAbove | tally/src/histogram_impl.cc:69-73 | on any ordered bounds the binary search finds the first upper bound above the value |
| HistogramSpec.DecreasingMisleads | tally/src/histogram_impl.cc:68-75 | for every exponential histogram with a negative start and several bounds, a value whose first bucket is bucket 0 and which the search puts elsewhere |
| HistogramSpec.BucketInterval | tally/src/histogram_impl.cc:68-75 | a value goes to bucket i if and only if it lies in that bucket's interval, the first one being open below; it has a bucket if and only if it is below the largest double |
| HistogramSpec.BucketConserved | tally/src/histogram_bucket.cc:39-59 | in every run each bucket's reported plus pending samples are the number of recorded values the search puts there |
| HistogramSpec.EveryRecordCounted | tally/src/histogram_impl.cc:68-75 | the counts of all buckets add up to the number of calls of `Record` |
| HistogramSpec.SpecsAre | tally/src/histogram_impl.cc:38-66 | bucket i has the number i, knows how many bounds there are, starts where the one before ends, and ends at the start, or a width or a factor above the one before |
| DoubleLimits.LimitsInBinary | tally/src/histogram_impl.cc:44-46 | the outer bounds are the largest double, of exponent 1023 with all fraction bits set, and the least positive normal one, of exponent -1022 |
| Histograms.HistogramBucket.Record | tally/src/histogram_bucket.cc:39 | counts one more sample |
| Histograms.HistogramBucket.Report | tally/src/histogram_bucket.cc:41-59 | hands over the bucket's bounds and pending samples if there are any, and leaves none pending |
| Histograms.CreateBuckets | tally/src/histogram_impl.cc:38-66 | one bucket for each bound and a catch-all, numbered from zero, each with its own fresh counter; the first ends at the start of the bounds and each next one a width further on or at the factor times it; each bucket starts where the one before ends, the first at the least positive double and the last ending at the largest |
| Histograms.HistogramImpl.FindBucket | tally/src/histogram_impl.cc:69-73 | the halving loop computes the specified search on any bounds, ordered or not |
| Histograms.HistogramImpl.Record | tally/src/histogram_impl.cc:68-75 | takes exactly the increment step of the bucket that the binary search finds, in every bank with these counters |
| Histograms.HistogramImpl.Report | tally/src/histogram_impl.cc:91-98 | takes the report steps of all buckets in order, leaves nothing pending, and tells the reporter of the buckets with samples |
| Histograms.ReportsSettle | tally/src/histogram_impl.cc:91-98 | that run of report steps is possible, settles the counters, and logs what each had pending |
| Histograms.ReportedIsLogged | tally/src/histogram_bucket.cc:41-59 | the reporter is told exactly what the counters' machine logs, with the buckets' bounds |
| ScopeIds.CollectKeys | tally/src/scope_impl.cc:179-185 | the keys in increasing order, whatever order the map yields them in |
| ScopeIds.ScopeID | tally/src/scope_impl.cc:176-204 | the canonical ID of prefix and tags |
| ScopeIds.IdsWrittenOut | tally/src/scope_impl.cc:176-204 | IDs in characters: a plus sign behind the prefix, an equals sign between key and value, commas between pairs, and keys in the order of strings |
| ScopeIds.IdRoundTrip | tally/src/scope_impl.cc:176-204 | under the delimiter condition a parser recovers prefix and tags from the ID |
| ScopeIds.IdInjective | tally/src/scope_impl.cc:176-204 | hence such IDs are equal only for equal prefixes and tags |
| ScopeIdUniqueness.UniqueExactly | tally/src/scope_impl.h:78 | over all prefixes and tags, an ID belongs to no other pair if and only if it is self-delimiting, a condition on the characters of the pair |
| ScopeNames.MergeTags | tally/src/scope_impl.cc:135-144 | the union of both maps, the parent's value kept on a common key, in whatever order the maps are walked |
| ScopeNames.MergeMatchesDocumentation | tally/include/tally/scope.h:59-61 | code and documentation agree if and only if no common key has two values |
| ScopeNames.ChainName | tally/src/scope_impl.cc:163-174 | the prefix requested by any chain of named subscopes and tagged scopes is the path of names joined by the separator; `ScopeTree.ScopeTree.FollowChain` says when the registry returns it |
| ScopeNames.ReportedName | tally/src/scope_impl.cc:163-174 | a metric of the requested scope has that path and its own name as its full name |
| ScopeNames.ChainTags | tally/src/scope_impl.cc:132-144 | the tags requested by a chain are the union along it, with the outermost value of each key |
| ScopeNames.ChainMatchesDocumentation | tally/include/tally/scope.h:59-61 | the tags requested by a chain are the documented ones if and only if the outermost and the innermost value of every key agree |
| ScopeForest.SiblingsApart | tally/src/scope_impl.cc:250-255 | no scope is below two children of a scope, so the recursion meets none twice |
| ScopeForest.RootReachesAll | tally/src/scope_impl.cc:222-256 | the recursion from the root reaches every scope |
| ScopeForest.IdentityIs | tally/src/scope_impl.cc:163-174 | a metric is reported under its scope's tags, and its name behind the scope's prefix and separator |
| ScopeForest.SameObjectExactly | tally/src/scope_impl.cc:146-160 | under the delimiter condition two requests to a scope return the same object if and only if prefixes and merged tags are equal, and the object has exactly those |
| IdReadings.ReadingsExactly | tally/src/scope_impl.cc:187-204 | the computed readings of a text are exactly the non-empty tag maps that print as it |
| ScopeRequests.SubAnsweredExactly | tally/src/scope_impl.cc:114-118 | over all heaps that requests lead to: `SubScope(name)` is always answered with the scope asked for, if and only if what it puts behind the prefix cannot be read as tags that extend the scope's |
| ScopeRequests.TaggedAnsweredExactly | tally/src/scope_impl.cc:120-123 | likewise `Tagged(tags)`, if and only if the merged tags have no other reading that extends the scope's, and do not end like them behind what a subscope's prefix could have |
| ScopeRequests.SubOfUntagged | tally/src/scope_impl.cc:114-118 | on a scope without tags: if and only if what is behind the prefix does not start with a plus sign and have an equals sign later |
| ScopeRequests.TaggedOfUntagged | tally/src/scope_impl.cc:120-123 | on a scope without tags: if and only if there is no tag, or one without an equals sign whose value, if it ends in a plus sign, cannot end a subscope's prefix |
| ScopeRequests.ConfusedIsWrong | tally/src/scope_impl.cc:146-160 | one other request with the same ID is enough for a wrong answer, on a new tree |
| ScopeRequests.AnswerAsAsked | tally/src/scope_impl.cc:146-160 | an answer to a request that is always answered as asked has the prefix and tags asked for |
| CleanTags.PlainTaggedExactly | tally/src/scope_impl.cc:120-123 | on any scope, for tags without equals signs and commas: if and only if no two new tags are neighbours in key order, and the ID does not end as above |
| ScopeForest.AddChildLinked | tally/src/scope_impl.cc:155-160 | registering a child keeps every entry under the ID of the scope stored there, with inherited separator and reporter |
| ScopeForest.AddChildDerived | tally/src/scope_impl.cc:114-123 | registering what a request asks for keeps every scope but the root made by a request to its parent |
| ScopeTree.ScopeTree.constructor | tally/src/scope_impl.cc:38-52 | one scope with the given prefix, separator, tags and reporter and without metrics; the reporting thread runs if and only if the interval is positive |
| ScopeTree.ScopeTree.GetOrCreateScope | tally/src/scope_impl.cc:132-161 | answers with the registered scope and changes nothing, or registers a new one with the prefix, the merged tags and the inherited separator and reporter |
| ScopeTree.ScopeTree.SubScope | tally/src/scope_impl.cc:114-118 | the scope registered for the joined name and the same tags, with inherited separator and reporter; its prefix is the name behind the scope's prefix and separator, and its tags the scope's, if the request is always answered as asked, or if it and all scopes are clean |
| ScopeTree.ScopeTree.Tagged | tally/src/scope_impl.cc:120-123 | the scope registered for the same prefix and the merged tags, likewise: the prefix is the scope's, and of a common tag the scope's value stays |
| ScopeTree.ScopeTree.FollowChain | tally/src/scope_impl.cc:114-161 | a chain of requests that are always answered as asked, on any tree, or that are clean on a tree of clean scopes, ends at a scope with exactly the requested prefix and tags: every metric of it is labelled with the joined path and with the outermost value of each tag |
| ScopeTree.ScopeTree.TagBoth | tally/src/scope_impl.cc:146-160 | of two requests with equal IDs the second returns the scope of the first, whatever its tags |
| ScopeTree.WrongScope | tally/src/scope_impl.cc:176-204 | a concrete run on a new tree in which a request returns a scope with other tags than requested |
| ScopeTree.ScopeTree.GetOrCreateMetric | tally/src/scope_impl.cc:72-112 | one metric for each scope, kind and name, in the map of its kind: returned if it exists, otherwise created with nothing counted; it is labelled with the scope's tags and its name behind the scope's prefix and separator |
| ScopeTree.ScopeTree.SharedLabelExactly | tally/src/scope_impl.cc:72-112 | on every valid tree two metrics are reported as the same if and only if their full names and their scopes' tags are equal |
| ScopeTree.ScopeTree.ReportKind | tally/src/scope_impl.cc:223-248 | visits each metric of a kind once and reads the counters, in whatever order the map is walked; the values of gauges and histograms are left to their own models |
| ScopeTree.ScopeTree.Report | tally/src/scope_impl.cc:222-256 | an uninterrupted report terminates, visits every metric of the subtree exactly once and no other, and leaves the visited counters without pending deltas and the others alone |
| ScopeTree.ScopeTree.Destroy | tally/src/scope_impl.cc:54-70 | with a reporting thread the last report leaves no counter of the tree with a pending delta; without one nothing is reported |
| ScopeTree.ScopeTree.ConservedByIdentity | tally/src/scope_impl.cc:222-256 | for each full name and tag map, all reported values plus all pending deltas are all increments |
| ReportWalk.EachMetricOnce | tally/src/scope_impl.cc:222-256 | a report in small steps, with increments, new metrics and new scopes wherever the mutexes allow them: nothing is ever visited twice, and on return every metric that the subtree had at the beginning has been visited |
| ReportWalk.LastReportCovers | tally/src/scope_impl.cc:54-70 | when such a report of the root returns, every counter that existed when it began has accounted for all increments finished by then |
| ReportWalk.WalkCanGoOn | tally/src/scope_impl.cc:222-256 | until it returns, the report can always take a step of its own |
| ReportWalk.InvKept | tally/src/scope_impl.cc:222-256 | every step of the report and of other threads keeps the heap linked, the activations nested, and visited metrics unowed |
| ReportWalk.WorkShrinks | tally/src/scope_impl.cc:222-256 | every step of the report leaves it less to do, and other threads give it more only by making metrics and scopes |
| ReportWalk.WalkReturns | tally/src/scope_impl.cc:222-256 | the report takes at most as many steps as it had work at the beginning and was given meanwhile, and has returned when it took them all |
| ReportWalk.WalkConserves | tally/src/scope_impl.cc:222-256 | at every moment of an interrupted report, for each full name and tag map, all reported values plus all pending deltas are all increments |
| ReportWalk.TreeCanBegin | tally/src/scope_impl.cc:68-69 | any valid tree is the beginning of such a report |
| ReportValues.LastReportCoversAll | tally/src/scope_impl.cc:222-256 | when an interrupted report of the root returns, for every metric of its beginning: counters and histogram buckets have accounted for all that was finished then, and a gauge with no update under way then has had its newest value or a later one read for reporting |
| ScopeTree.VisitAllReports | tally/src/scope_impl.cc:222-230 | a report puts the delta of each visited counter in the log and leaves the other counters as they were |
| ScopeTree.ReportIsARun | tally/src/scope_impl.cc:222-230 | an uninterrupted report is a run of the concurrent counters' machine |
| ScopeTree.ReportStepsAre | tally/src/scope_impl.cc:222-230 | with a step for every counter visited and for no other |
| DurationText.FormatDuration | m3/src/reporter_impl.cc:317-337 | the text is a number that reads back as the nearest millionth, without trailing zeros or a trailing dot, and starts with a zero only below one |
| DurationText.NearestRounds | m3/src/reporter_impl.cc:324-326 | the printed millionths are within half a millionth of the quotient |
| DurationText.DurationBucketString | m3/src/reporter_impl.cc:236-301 | "0" for zero; for every other int64 but the minimum the text parses back to the duration exactly below one second and within 500 nanoseconds otherwise, a minus sign in front exactly of a negative one, its first digit is not zero, its fraction has no trailing zeros, and it uses exactly the units it should: milliseconds from a millisecond on, minutes and hours only where there are some |
| DurationText.OnePointFiveMillis | m3/src/reporter_impl.cc:264-280 | the parser reads the characters "1.5ms" as 1500000 nanoseconds |
| DurationText.MinusOneHourTwoMinutes | m3/src/reporter_impl.cc:281-298 | and "-1h2m" as minus 3720 seconds |
| DurationText.FormatBelowSecond | m3/src/reporter_impl.cc:264-280 | milliseconds from a millisecond on and nanoseconds below, read back exactly |
| DurationText.FormatClock | m3/src/reporter_impl.cc:281-298 | hours, minutes and seconds with empty parts left out, read back within 500 nanoseconds |
| BucketIds.BucketID | m3/src/reporter_impl.cc:303-315 | at least four decimal digits in ASCII whose value is the number, and no leading zero beyond the fourth place from the end |
| BucketIds.SevenPadded | m3/src/reporter_impl.cc:303-315 | seven is "0007" |
| BucketIds.BucketIdRoundTrip | m3/src/reporter_impl.cc:303-315 | parsing the ID gives the number back, and it is as long as the number's digits but at least four |
| BucketIds.BucketIdOrder | m3/src/reporter_impl.cc:303-315 | among IDs of one length, the order of strings is the order of numbers |
| UdpState.ClientConservesBytes | m3/src/udp_transport_impl.cc:175-278 | in every run the accepted bytes are the main buffers so far and the current one; those not discarded are what was sent and then the help buffer; only buffers above the maximum packet size are discarded |
| UdpState.ClientStream | m3/src/udp_transport_impl.cc:175-278 | without an oversized buffer, accepted is sent, then help buffer, then main buffer |
| UdpState.ServerConservesBytes | m3/src/udp_transport_impl.cc:112-173 | bytes received are bytes returned and then the main buffer |
| UdpRuns.SentIsWritten | m3/src/udp_transport_impl.cc:175-278 | in every run the accepted bytes are those written while the transport was open, and as many were sent as the error-free completions reported; without an oversized buffer what was sent is exactly the first so many of the bytes written |
| UdpRuns.ReturnedIsGiven | m3/src/udp_transport_impl.cc:112-173 | in every run the received bytes are those of the error-free receives, and callers were given exactly the first of them, each read as many as it asked for or all that were left |
| UdpRuns.OpenIsLast | m3/src/udp_transport_impl.cc:57-101 | a transport is open exactly when `open` came after the last `close` |
| UdpState.OneWaiter | m3/src/udp_transport_impl.cc:124-133 | at most one operation waits, and `in_progress_` is set exactly then |
| UdpState.BlockedIsNotForgotten | m3/src/udp_transport_impl.cc:94-173 | no lost wakeup, unless the transport was closed and opened again: a blocked call that was not notified is about to be notified by `close`, or the i/o thread can go on, through the next completion, to a notification; a reader whose wait could end has its notification next |
| UdpState.ReopenedIsForgotten | m3/src/udp_transport_impl.cc:76-110 | on a transport that was closed and opened again a blocked `flush`, or a `read_virt` with nothing to read, is not notified by anything but the next `close` |
| UdpState.ReopenedFlushHangs | m3/src/udp_transport_impl.cc:76-110 | a run that gets there |
| UdpState.InvKept | m3/src/udp_transport_impl.cc:112-278 | every step keeps the streams, the single waiter and the wakeups |
| UdpTransport.Impl.Conserved | m3/src/udp_transport_impl.cc:112-278 | after any calls the object's own buffers complete its byte streams, for a client and for a server |
| UdpTransport.Impl.Open | m3/src/udp_transport_impl.cc:57-90 | the transport is open, and the i/o thread started unless it was open before |
| UdpTransport.Impl.Close | m3/src/udp_transport_impl.cc:94-101 | the transport is closed, and the notifications are owed unless it was closed before |
| UdpTransport.Impl.WriteVirt | m3/src/udp_transport_impl.cc:175-188 | appends exactly the bytes on an open client; otherwise refuses, for the reason given, and changes nothing |
| UdpTransport.Impl.FlushBegin | m3/src/udp_transport_impl.cc:192-225 | each refusal and the empty case change nothing; a buffer above 65000 bytes is dropped; otherwise the operation is marked and the buffer kept |
| UdpTransport.Impl.FlushEnd | m3/src/udp_transport_impl.cc:227-234 | unmarks the operation and reports a closed transport; it promises nothing about the bytes |
| UdpTransport.Impl.ReadBegin | m3/src/udp_transport_impl.cc:112-128 | refuses a closed transport, a client and a second reader, otherwise marks the operation |
| UdpTransport.Impl.ReadEnd | m3/src/udp_transport_impl.cc:133-150 | on an open transport returns the next bytes in order, as many as asked for or all there are, and keeps the rest; a closed one returns nothing |
| UdpTransport.Impl.StartSend | m3/src/udp_transport_impl.cc:250-255 | the main buffer moves behind what earlier sends left in the help buffer, all of which is sent |
| UdpTransport.Impl.SendComplete | m3/src/udp_transport_impl.cc:256-277 | without an error exactly the first `bytes_sent` bytes of the help buffer count as sent and are removed; on an error none |
| UdpTransport.Impl.StartReceive | m3/src/udp_transport_impl.cc:152-156 | hands a fresh buffer of 1440 bytes to the socket |
| UdpTransport.Impl.ReceiveComplete | m3/src/udp_transport_impl.cc:157-172 | appends exactly the received bytes, and nothing on an error |

## Left out

- Recursion limits and byte counts in Thrift's runtime: `read` and `write` return how many bytes they moved and refuse deep nesting; nothing in the modelled code uses either.
- Emission.EmitMetricBatch: a message is one write; how the compact protocol cuts it into calls of `write_virt` makes no difference by `WritesJoin`. The wait of `flush` is left to `UdpState`.
- PacketLimits.PacketsFitExactly: speaks of batches of two or more metrics; a lone metric is sent as it is, with the exact size of `LoneMetricPacket`.
- ReporterProofs.EstimatorSound: metrics and common tags are taken to encode to at most 2^30 bytes, so that the estimator's 32-bit counter does not wrap before it is compared.
- ReporterImpl.Impl.Flush: the client's exception is a nondeterministic outcome here; what the transport does with a message is in `Emission`. Blocking inside the client is not modelled, and no claim is made that a flush terminates.
- CompactProtocol.ReadListHeader: the Thrift runtime is not part of this model. As it does, a container's element type 0 is let pass; skipping the elements of such a container is taken to be an error.
- Counters.CounterImpl.Value: a difference outside int64 is undefined behaviour in tally-cpp and is excluded by a precondition; the reporting thread is its only caller.
- Histograms.HistogramImpl.Record: the caller keeps values below the largest double, since tally-cpp dereferences the end of the vector otherwise.
- Histograms.HistogramBucket.Report: the cast of duration bounds to int64 is not modelled; it is undefined for the catch-all bucket's bound.
- DurationText.DurationBucketString: the minimum int64, whose absolute value is undefined, is excluded. Whether `%f` rounds a tie up is a parameter, and the division is taken as exact.
- ScopeTree.ScopeTree.FollowChain: one thread follows the chain; what others register meanwhile is covered as far as it keeps the conditions, since each request is proved on any such tree.
- ScopeTree.ScopeTree.Report: scopes and metrics are numbered nodes of one heap instead of shared pointers, and one class has the operations of all scopes; gauges and histograms are only listed here, and their values are reported in `ReportValues`.
- ReportWalk.WalkReturns: with metrics or scopes made for ever ahead of it, the walk need not end.
- ScopeTree.ScopeTree.Destroy: the timed wait in `Run` is not modelled; a periodic report is a `Report` at any time.
- UdpState.ClientConservesBytes: sockets, the resolver and Boost.Asio appear as completions with a byte count or an error; `flush` waits without a predicate, so nothing is claimed about bytes being sent when it returns.
- UdpState.ReopenedIsForgotten: `flush` can still return by a spurious wakeup, and what the socket itself does with an operation that is never completed is not modelled.
- Floating point: rounding, infinities and NaN in gauges and histogram bounds; `ValueBucketString` with its formatted doubles.
- Timers, stopwatches, clocks and timestamps, which only forward to the reporter.
- Histogram samples with value bounds, which print formatted doubles; builders, `Capabilities`, the no-op reporter, the server side of the generated service and the concurrent client.
