/** `HistogramImpl` and `HistogramBucket` with their counters updated in place. */
module Histograms {
  import opened Wrappers
  import opened CompactProtocol
  import opened Buckets
  import opened HistogramSpec
  import C = Counters

  class HistogramBucket {
    const spec: BucketSpec
    const samples: C.CounterImpl

    constructor (spec: BucketSpec)
      ensures this.spec == spec && fresh(samples) && samples.Abs() == C.Cell(0, 0)
    {
      this.spec := spec;
      this.samples := new C.CounterImpl();
    }

    method Record()
      modifies samples
      ensures samples.Abs() == old(samples.Abs()).Added(1)
    {
      samples.Inc(1);
    }

    /** The samples handed to the reporter along with the bucket, if there are any. */
    method Report(hasReporter: bool) returns (reported: Option<(BucketSpec, Int64)>)
      requires -TWO_63 <= samples.Abs().Pending() < TWO_63
      modifies samples
      ensures samples.Abs() == old(samples.Abs()).Settled()
      ensures reported ==
        if old(samples.Abs()).Pending() != 0 && hasReporter then Some((spec, old(samples.Abs()).Pending())) else None
    {
      var count := samples.Value();
      if count != 0 && hasReporter {
        reported := Some((spec, count));
      } else {
        reported := None;
      }
    }
  }

  /** `CreateBuckets`: walks the bounds with an iterator, each bucket starting where the one
      before ended, and adds the catch-all. */
  method CreateBuckets(b: Buckets) returns (buckets: seq<HistogramBucket>)
    ensures |buckets| == BucketCount(b)
    ensures forall i :: 0 <= i < |buckets| ==>
      && buckets[i].spec == SpecAt(b, i)
      && fresh(buckets[i].samples) && buckets[i].samples.Abs() == C.Cell(0, 0)
    ensures forall i :: 0 <= i < b.num ==> buckets[i + 1].spec.lower == buckets[i].spec.upper
    ensures buckets[|buckets| - 1].spec.upper == DOUBLE_MAX && buckets[0].spec.lower == DOUBLE_MIN
    ensures Numbered(b, buckets) && Bounded(b, buckets)
    ensures forall i, j :: 0 <= i < j < |buckets| ==> buckets[i].samples != buckets[j].samples
  {
    buckets := [];
    if b.num == 0 {
      var only := new HistogramBucket(BucketSpec(b.kind, 0, 1, DOUBLE_MIN, DOUBLE_MAX));
      buckets := [only];
    } else {
      var lowerBound := DOUBLE_MIN;
      var it := Begin(b);
      var end := End(b);
      while !it.Equals(end)
        invariant fresh(it) && fresh(end) && it != end
        invariant it.calculator == end.calculator == b.calculator && end.index == b.num
        invariant it.index == |buckets| <= b.num
        invariant lowerBound == if it.index == 0 then DOUBLE_MIN else b.calculator.Calculate(it.index - 1)
        invariant forall i :: 0 <= i < |buckets| ==>
          && buckets[i].spec == SpecAt(b, i)
          && fresh(buckets[i].samples) && buckets[i].samples.Abs() == C.Cell(0, 0)
        invariant forall i, j :: 0 <= i < j < |buckets| ==> buckets[i].samples != buckets[j].samples
        decreases b.num - it.index
      {
        var upperBound := it.Dereference();
        var bucket := new HistogramBucket(BucketSpec(b.kind, it.index, b.num, lowerBound, upperBound));
        buckets := buckets + [bucket];
        lowerBound := upperBound;
        var previous := it.PostIncrement();
      }
      var catchAll := new HistogramBucket(BucketSpec(b.kind, b.num, b.num, lowerBound, DOUBLE_MAX));
      buckets := buckets + [catchAll];
    }
    BucketsAre(b, buckets);
  }

  /** The buckets are numbered from zero, and each knows how many bounds there are. */
  ghost predicate Numbered(b: Buckets, buckets: seq<HistogramBucket>) {
    forall i :: 0 <= i < |buckets| ==>
      && buckets[i].spec.id == i && buckets[i].spec.kind == b.kind
      && buckets[i].spec.num == if b.num == 0 then 1 else b.num
  }

  /** The first bound is `start`, and each next one a width further on or a factor larger. */
  ghost predicate Bounded(b: Buckets, buckets: seq<HistogramBucket>)
    requires |buckets| == b.num + 1
  {
    var c := b.calculator;
    && (b.num > 0 ==> buckets[0].spec.upper == c.start)
    && (c.growth == Linear ==>
        forall i :: 0 < i < b.num ==> buckets[i].spec.upper == buckets[i - 1].spec.upper + c.update)
    && (c.growth == Exponential ==>
        forall i :: 0 < i < b.num ==> buckets[i].spec.upper == c.update * buckets[i - 1].spec.upper)
  }

  lemma BucketsAre(b: Buckets, buckets: seq<HistogramBucket>)
    requires |buckets| == b.num + 1 && forall i :: 0 <= i < |buckets| ==> buckets[i].spec == SpecAt(b, i)
    ensures Numbered(b, buckets) && Bounded(b, buckets)
  {
    forall i | 0 <= i <= b.num
      ensures buckets[i].spec.id == i && buckets[i].spec.kind == b.kind
      ensures buckets[i].spec.num == if b.num == 0 then 1 else b.num
      ensures i == 0 < b.num ==> buckets[i].spec.upper == b.calculator.start
    {
      SpecsAre(b, i);
    }
    forall i | 0 < i < b.num
      ensures b.calculator.growth == Linear ==>
        buckets[i].spec.upper == buckets[i - 1].spec.upper + b.calculator.update
      ensures b.calculator.growth == Exponential ==>
        buckets[i].spec.upper == b.calculator.update * buckets[i - 1].spec.upper
    {
      SpecsAre(b, i);
    }
  }

  class HistogramImpl {
    const bounds: Buckets
    const buckets: seq<HistogramBucket>

    ghost predicate Valid() {
      && |buckets| == BucketCount(bounds)
      && (forall i :: 0 <= i < |buckets| ==> buckets[i].spec == SpecAt(bounds, i))
      && forall i, j :: 0 <= i < j < |buckets| ==> buckets[i].samples != buckets[j].samples
    }

    ghost function Repr(): set<object> {
      set i | 0 <= i < |buckets| :: buckets[i].samples
    }

    /** The counters of the buckets. */
    ghost function Cells(): seq<C.Cell>
      reads Repr()
    {
      seq(|buckets|, i requires 0 <= i < |buckets| reads Repr() => buckets[i].samples.Abs())
    }

    constructor (bounds: Buckets)
      ensures this.bounds == bounds && Valid() && fresh(Repr())
      ensures Cells() == Fresh(BucketCount(bounds)).cells
    {
      this.bounds := bounds;
      var made := CreateBuckets(bounds);
      this.buckets := made;
    }

    /** `std::upper_bound` over the buckets' upper bounds. */
    method FindBucket(val: real) returns (first: nat)
      requires Valid()
      ensures first == Search(Uppers(bounds), val)
    {
      ghost var uppers := Uppers(bounds);
      assert forall i :: 0 <= i < |buckets| ==> uppers[i] == buckets[i].spec.upper;
      var len := |buckets|;
      first := 0;
      while len > 0
        invariant 0 <= len <= |uppers| - first
        invariant UpperBound(uppers, val, first, len) == Search(uppers, val)
      {
        var half := len / 2;
        if val < buckets[first + half].spec.upper {
          len := half;
        } else {
          first, len := first + half + 1, len - half - 1;
        }
      }
    }

    /** Counts the value in the bucket that the binary search finds: one step of the counters'
        machine, whatever its histories.  The caller keeps the value below the largest double
        when the bounds are in order: otherwise there is no such bucket. */
    method Record(val: real)
      requires Valid() && Search(Uppers(bounds), val) < |buckets|
      modifies Repr()
      ensures forall b: C.Bank<nat> :: Holds(b, old(Cells())) ==>
        Takes(b, [ToCounter(Uppers(bounds), Step.Record(val))], Cells())
    {
      ghost var before := Cells();
      var k := FindBucket(val);
      Others(k);
      buckets[k].Record();
      assert Cells() == before[k := before[k].Added(1)];
      forall b: C.Bank<nat> | Holds(b, before) ensures Takes(b, [C.Inc(k, 1)], Cells()) {
        OneStep(b, C.Inc(k, 1));
      }
    }

    /** Reports every bucket once, in order: a run of the machine.  The buckets with samples
        reach the reporter. */
    method Report() returns (reported: seq<(BucketSpec, Int64)>)
      requires Valid()
      requires forall i :: 0 <= i < |buckets| ==> -TWO_63 <= Cells()[i].Pending() < TWO_63
      modifies Repr()
      ensures forall b: C.Bank<nat> :: Holds(b, old(Cells())) ==> Takes(b, Reports(|buckets|), Cells())
      ensures forall i :: 0 <= i < |buckets| ==> Cells()[i].Pending() == 0
      ensures reported == NonZero(bounds, old(Cells()), |buckets|)
    {
      ghost var before := Cells();
      reported := [];
      for k := 0 to |buckets|
        invariant Cells() == SettledUpTo(before, k)
        invariant reported == NonZero(bounds, before, k)
      {
        OneMoreSettled(before, k);
        OneMoreReported(bounds, before, k);
        var one := ReportIn(k);
        if one.Some? {
          reported := reported + [one.value];
        }
      }
      forall b: C.Bank<nat> | Holds(b, before) ensures Takes(b, Reports(|buckets|), Cells()) {
        ReportsSettle(b, |buckets|);
      }
    }

    method ReportIn(k: nat) returns (one: Option<(BucketSpec, Int64)>)
      requires Valid() && k < |buckets| && -TWO_63 <= Cells()[k].Pending() < TWO_63
      modifies Repr()
      ensures Cells() == old(Cells())[k := old(Cells())[k].Settled()]
      ensures one == Sample(SpecAt(bounds, k), old(Cells()[k]))
    {
      Others(k);
      one := buckets[k].Report(true);
    }

    lemma Others(k: nat)
      requires Valid() && k < |buckets|
      ensures forall i :: 0 <= i < |buckets| && i != k ==> buckets[i].samples != buckets[k].samples
    {
    }
  }

  // ------------------------------------------------------- the counters' machine

  /** A state of the counters' machine with these counters. */
  ghost predicate Holds(b: C.Bank<nat>, cells: seq<C.Cell>) {
    C.Shaped(b) && b.cells == cells
  }

  /** The machine can take the steps, and has those counters afterwards. */
  ghost predicate Takes(b: C.Bank<nat>, steps: seq<C.Step<nat>>, cells: seq<C.Cell>)
    requires C.Shaped(b)
  {
    var r := C.Execute(b, steps);
    r.Some? && r.value.cells == cells
  }

  lemma OneStep(b: C.Bank<nat>, step: C.Step<nat>)
    requires C.Shaped(b) && C.Enabled(b, step)
    ensures Takes(b, [step], C.Next(b, step).cells)
  {
    C.ExecuteMore(b, [], b, step);
    assert [] + [step] == [step];
  }

  function Reports(n: nat): seq<C.Step<nat>> {
    seq(n, i requires i >= 0 => C.Report(i))
  }

  /** Reporting the first n buckets settles them, and logs what each had pending. */
  lemma {:induction false} ReportsSettle(b: C.Bank<nat>, n: nat)
    requires C.Shaped(b) && n <= |b.cells|
    requires forall i :: 0 <= i < n ==> -TWO_63 <= b.cells[i].Pending() < TWO_63
    ensures Takes(b, Reports(n), SettledUpTo(b.cells, n))
    ensures C.Execute(b, Reports(n)).value.log == b.log + Logged(b.cells, n)
  {
    if n > 0 {
      var k := n - 1;
      ReportsSettle(b, k);
      var b' := C.Execute(b, Reports(k)).value;
      OneMoreSettled(b.cells, k);
      assert Reports(n) == Reports(k) + [C.Report(k)];
      C.ExecuteMore(b, Reports(k), b', C.Report(k));
    } else {
      assert SettledUpTo(b.cells, 0) == b.cells;
    }
  }

  function Logged(cells: seq<C.Cell>, n: nat): seq<(nat, int)>
    requires n <= |cells|
  {
    if n == 0 then []
    else Logged(cells, n - 1) + if cells[n - 1].Pending() != 0 then [(n - 1, cells[n - 1].Pending())] else []
  }

  /** What a bucket tells the reporter. */
  function Sample(spec: BucketSpec, cell: C.Cell): Option<(BucketSpec, int)> {
    if cell.Pending() != 0 then Some((spec, cell.Pending())) else None
  }

  function SettledUpTo(cells: seq<C.Cell>, n: nat): seq<C.Cell> {
    seq(|cells|, i requires 0 <= i < |cells| => if i < n then cells[i].Settled() else cells[i])
  }

  lemma OneMoreSettled(cells: seq<C.Cell>, k: nat)
    requires k < |cells|
    ensures SettledUpTo(cells, k)[k] == cells[k]
    ensures SettledUpTo(cells, k)[k := cells[k].Settled()] == SettledUpTo(cells, k + 1)
  {
  }

  /** The reporter is told exactly what the machine logs, with the buckets' bounds. */
  lemma {:induction false} ReportedIsLogged(b: Buckets, cells: seq<C.Cell>, n: nat)
    requires n <= |cells| && |cells| == BucketCount(b)
    ensures |NonZero(b, cells, n)| == |Logged(cells, n)|
    ensures forall j :: 0 <= j < |Logged(cells, n)| ==>
      Logged(cells, n)[j].0 < n && NonZero(b, cells, n)[j] == (SpecAt(b, Logged(cells, n)[j].0), Logged(cells, n)[j].1)
  {
    if n > 0 {
      ReportedIsLogged(b, cells, n - 1);
    }
  }

  lemma OneMoreReported(b: Buckets, cells: seq<C.Cell>, k: nat)
    requires k < |cells| && |cells| == BucketCount(b)
    ensures var one := Sample(SpecAt(b, k), cells[k]);
      NonZero(b, cells, k + 1) == NonZero(b, cells, k) + if one.Some? then [one.value] else []
  {
  }

  /** The reports of the first n buckets: those with pending samples, in order. */
  ghost function NonZero(b: Buckets, cells: seq<C.Cell>, n: nat): seq<(BucketSpec, int)>
    requires n <= |cells| && |cells| == BucketCount(b)
  {
    if n == 0 then []
    else
      match Sample(SpecAt(b, n - 1), cells[n - 1])
      case None => NonZero(b, cells, n - 1)
      case Some(one) => NonZero(b, cells, n - 1) + [one]
  }
}
