/** Which bucket a value belongs to, and what a histogram's counters add up to. */
module HistogramSpec {
  import opened Wrappers
  import opened Buckets
  import C = Counters

  // numeric_limits<double>::max() and ::min(): the latter is the least positive normal
  // number, not the most negative one.
  const DOUBLE_MAX: real := 179769313486231570814527423731704356798070567525844996598917476803157260780028538760589558632766878171540458953514382464234321326889464182768467546703537516986049910576551282076245490090389328944075868508455133942304583236903222948165808559332123348274797826204144723168738177180919299881250404026184124858368.0
  const DOUBLE_MIN: real := 1.0 / 44942328371557897693232629769725618340449424473557664318357520289433168951375240783177119330601884005280028469967848339414697442203604155623211857659868531094441973356216371319075554900311523529863270738021251442209537670585615720368478277635206809290837627671146574559986811484619929076208839082406056034304.0

  datatype BucketSpec = BucketSpec(kind: Kind, id: nat, num: nat, lower: real, upper: real)

  function BucketCount(b: Buckets): nat {
    b.num + 1
  }

  /** The i-th bucket of a histogram; the last one catches everything past the bounds. */
  function SpecAt(b: Buckets, i: nat): BucketSpec
    requires i <= b.num
  {
    if b.num == 0 then BucketSpec(b.kind, 0, 1, DOUBLE_MIN, DOUBLE_MAX)
    else
      BucketSpec(b.kind, i, b.num,
                 if i == 0 then DOUBLE_MIN else b.calculator.Calculate(i - 1),
                 if i < b.num then b.calculator.Calculate(i) else DOUBLE_MAX)
  }

  /** What the buckets are: numbered from zero, each knowing how many bounds there are, with the
      first bound at `start` and each next one a width further on or a factor larger. */
  lemma SpecsAre(b: Buckets, i: nat)
    requires i <= b.num
    ensures SpecAt(b, i).id == i && SpecAt(b, i).kind == b.kind
    ensures SpecAt(b, i).num == if b.num == 0 then 1 else b.num
    ensures SpecAt(b, i).lower == if i == 0 then DOUBLE_MIN else SpecAt(b, i - 1).upper
    ensures i == b.num ==> SpecAt(b, i).upper == DOUBLE_MAX
    ensures i == 0 < b.num ==> SpecAt(b, i).upper == b.calculator.start
    ensures 0 < i < b.num && b.calculator.growth == Linear ==>
      SpecAt(b, i).upper == SpecAt(b, i - 1).upper + b.calculator.update
    ensures 0 < i < b.num && b.calculator.growth == Exponential ==>
      SpecAt(b, i).upper == b.calculator.update * SpecAt(b, i - 1).upper
  {
    CalculateSteps(b.calculator, if i > 0 then i - 1 else 0);
  }

  function Uppers(b: Buckets): seq<real> {
    seq(BucketCount(b), i requires 0 <= i <= b.num => SpecAt(b, i).upper)
  }

  ghost predicate Sorted(uppers: seq<real>) {
    forall i, j :: 0 <= i <= j < |uppers| ==> uppers[i] <= uppers[j]
  }

  /** No bound exceeds the largest double. */
  ghost predicate BoundsFinite(b: Buckets) {
    forall i :: 0 <= i < b.num ==> b.calculator.Calculate(i) <= DOUBLE_MAX
  }

  lemma UppersSorted(b: Buckets)
    requires BoundsFinite(b)
    ensures Sorted(Uppers(b)) <==> NonDecreasing(b)
  {
    var uppers := Uppers(b);
    assert forall i :: 0 <= i < b.num ==> uppers[i] == b.calculator.Calculate(i);
  }

  // ------------------------------------------------------------------- searching

  /** `std::upper_bound` on a range: the halving search, whatever the range holds. */
  function UpperBound(uppers: seq<real>, val: real, first: nat, len: nat): (r: nat)
    requires first + len <= |uppers|
    ensures first <= r <= first + len
    decreases len
  {
    if len == 0 then first
    else
      var half := len / 2;
      if val < uppers[first + half] then UpperBound(uppers, val, first, half)
      else UpperBound(uppers, val, first + half + 1, len - half - 1)
  }

  function Search(uppers: seq<real>, val: real): nat {
    UpperBound(uppers, val, 0, |uppers|)
  }

  /** The linear scan: the first upper bound above the value. */
  function FirstAbove(uppers: seq<real>, val: real): (r: nat)
    ensures r <= |uppers|
    ensures forall j :: 0 <= j < r ==> uppers[j] <= val
    ensures r < |uppers| ==> val < uppers[r]
  {
    if |uppers| == 0 || val < uppers[0] then 0
    else 1 + FirstAbove(uppers[1..], val)
  }

  lemma {:induction false} UpperBoundSplits(uppers: seq<real>, val: real, first: nat, len: nat)
    requires Sorted(uppers) && first + len <= |uppers|
    requires forall j :: 0 <= j < first ==> uppers[j] <= val
    requires forall j :: first + len <= j < |uppers| ==> val < uppers[j]
    ensures var r := UpperBound(uppers, val, first, len);
      (forall j :: 0 <= j < r ==> uppers[j] <= val) && (forall j :: r <= j < |uppers| ==> val < uppers[j])
    decreases len
  {
    if len > 0 {
      var half := len / 2;
      var mid := first + half;
      if val < uppers[mid] {
        forall j | mid <= j < |uppers| ensures val < uppers[j] {
          assert uppers[mid] <= uppers[j];
        }
        UpperBoundSplits(uppers, val, first, half);
      } else {
        forall j | 0 <= j < mid + 1 ensures uppers[j] <= val {
          assert uppers[j] <= uppers[mid];
        }
        UpperBoundSplits(uppers, val, mid + 1, len - half - 1);
      }
    }
  }

  lemma SearchIsFirstAbove(uppers: seq<real>, val: real)
    requires Sorted(uppers)
    ensures Search(uppers, val) == FirstAbove(uppers, val)
  {
    UpperBoundSplits(uppers, val, 0, |uppers|);
    var found, r := Search(uppers, val), FirstAbove(uppers, val);
    assert r < |uppers| ==> val < uppers[r];
    assert found < |uppers| ==> val < uppers[found];
  }

  /** On the buckets of a factory the binary search and the linear scan agree on every value
      exactly when the bounds are in order: for all linear buckets, and for exponential ones
      that start at zero or above or have a single bound. */
  lemma SearchAgreesExactly(b: Buckets)
    requires FromFactory(b) && BoundsFinite(b)
    ensures (forall val :: Search(Uppers(b), val) == FirstAbove(Uppers(b), val))
      <==> b.calculator.growth == Linear || b.calculator.start >= 0.0 || b.num == 1
  {
    var uppers := Uppers(b);
    OrderedExactly(b);
    UppersSorted(b);
    if Sorted(uppers) {
      forall val ensures Search(uppers, val) == FirstAbove(uppers, val) {
        SearchIsFirstAbove(uppers, val);
      }
    } else {
      DecreasingMisleads(b);
    }
  }

  lemma ExponentialFalls(c: BucketsCalculator, mid: nat)
    requires c.growth == Exponential && c.start < 0.0 && c.update > 1.0 && mid > 0
    ensures c.Calculate(mid) < c.Calculate(0)
  {
    PowGrows(c.update, 0, mid);
    ScaleOrder(c.start, Pow(c.update, 0), Pow(c.update, mid));
  }

  lemma MiddleGoesRight(uppers: seq<real>, val: real)
    requires |uppers| > 0 && val == uppers[|uppers| / 2]
    ensures Search(uppers, val) > |uppers| / 2
  {
  }

  lemma DecreasingMisleads(b: Buckets)
    requires FromFactory(b) && b.calculator.growth == Exponential && b.calculator.start < 0.0 && b.num > 1
    ensures var val := b.calculator.Calculate(BucketCount(b) / 2);
      FirstAbove(Uppers(b), val) == 0 && Search(Uppers(b), val) > 0
  {
    var c, mid := b.calculator, BucketCount(b) / 2;
    var val := c.Calculate(mid);
    ExponentialFalls(c, mid);
    assert Uppers(b)[0] == c.Calculate(0);
    assert Uppers(b)[mid] == val;
    MiddleGoesRight(Uppers(b), val);
  }

  /** The bucket of a value is the one whose interval holds it.  The first bucket has no
      lower limit, although it announces `DOUBLE_MIN` as one. */
  lemma BucketInterval(b: Buckets, val: real, i: nat)
    requires FromFactory(b) && BoundsFinite(b) && NonDecreasing(b) && i <= b.num
    ensures Search(Uppers(b), val) == i <==> val < SpecAt(b, i).upper && (i == 0 || SpecAt(b, i).lower <= val)
    ensures Search(Uppers(b), val) <= b.num <==> val < DOUBLE_MAX
  {
    var uppers := Uppers(b);
    UppersSorted(b);
    SearchIsFirstAbove(uppers, val);
    assert uppers[i] == SpecAt(b, i).upper;
    assert uppers[b.num] == DOUBLE_MAX;
    if i > 0 {
      assert uppers[i - 1] == SpecAt(b, i).lower;
    }
  }

  // --------------------------------------------------------------- whole runs

  /** One step of a run: some thread records a value, or the reporter reports a bucket. */
  datatype Step = Record(val: real) | ReportBucket(i: nat)

  function ToCounter(uppers: seq<real>, step: Step): C.Step<nat> {
    match step
    case Record(val) => C.Inc(Search(uppers, val), 1)
    case ReportBucket(i) => C.Report(i)
  }

  function ToCounters(uppers: seq<real>, steps: seq<Step>): seq<C.Step<nat>> {
    if |steps| == 0 then []
    else ToCounters(uppers, steps[..|steps| - 1]) + [ToCounter(uppers, steps[|steps| - 1])]
  }

  function Indices(n: nat): seq<nat> {
    seq(n, i => i)
  }

  /** The counters of a new histogram with n buckets. */
  function Fresh(n: nat): C.Bank<nat> {
    C.Bank(seq(n, _ => C.Cell(0, 0)), Indices(n), [], [])
  }

  /** How many recorded values went to bucket i. */
  function CountIn(uppers: seq<real>, steps: seq<Step>, i: nat): nat {
    if |steps| == 0 then 0
    else
      var last := steps[|steps| - 1];
      CountIn(uppers, steps[..|steps| - 1], i) + if last.Record? && Search(uppers, last.val) == i then 1 else 0
  }

  function Records(steps: seq<Step>): nat {
    if |steps| == 0 then 0
    else Records(steps[..|steps| - 1]) + if steps[|steps| - 1].Record? then 1 else 0
  }

  lemma LastStep(uppers: seq<real>, n: nat, steps: seq<Step>, b: C.Bank<nat>) returns (b': C.Bank<nat>)
    requires |steps| > 0 && C.Execute(Fresh(n), ToCounters(uppers, steps)) == Some(b)
    ensures C.Execute(Fresh(n), ToCounters(uppers, steps[..|steps| - 1])) == Some(b') && C.Shaped(b')
    ensures var step := ToCounter(uppers, steps[|steps| - 1]); C.Enabled(b', step) && b == C.Next(b', step)
  {
    var earlier := ToCounters(uppers, steps[..|steps| - 1]);
    assert ToCounters(uppers, steps)[..|earlier|] == earlier;
    b' := C.Execute(Fresh(n), earlier).value;
  }

  lemma {:induction false} IncrementsAreCounts(uppers: seq<real>, n: nat, steps: seq<Step>, b: C.Bank<nat>, i: nat)
    requires C.Execute(Fresh(n), ToCounters(uppers, steps)) == Some(b)
    ensures C.SumFor(b.incs, i) == CountIn(uppers, steps, i) && |b.cells| == n
  {
    if |steps| > 0 {
      var last := |steps| - 1;
      var b' := LastStep(uppers, n, steps, b);
      IncrementsAreCounts(uppers, n, steps[..last], b', i);
      OneMoreCount(uppers, b', steps[last], i);
    }
  }

  lemma OneMoreCount(uppers: seq<real>, b: C.Bank<nat>, step: Step, i: nat)
    requires C.Shaped(b) && C.Enabled(b, ToCounter(uppers, step))
    ensures var b' := C.Next(b, ToCounter(uppers, step));
      && |b'.cells| == |b.cells|
      && C.SumFor(b'.incs, i) == C.SumFor(b.incs, i) + if step.Record? && Search(uppers, step.val) == i then 1 else 0
  {
    if step.Record? {
      C.SumForAppend(b.incs, (Search(uppers, step.val), 1), i);
    }
  }

  /** Conservation over any run: what a bucket has reported and what it has pending is the
      number of recorded values that belong to it, in 64 bits. */
  lemma BucketConserved(uppers: seq<real>, steps: seq<Step>, b: C.Bank<nat>, i: nat)
    requires C.Execute(Fresh(|uppers|), ToCounters(uppers, steps)) == Some(b) && i < |uppers|
    ensures C.Shaped(b) && i < |b.cells|
    ensures C.SumFor(b.log, i) + b.cells[i].Pending() == C.Wrap64(CountIn(uppers, steps, i))
  {
    IncrementsAreCounts(uppers, |uppers|, steps, b, i);
    C.InvHolds(Fresh(|uppers|), ToCounters(uppers, steps));
  }

  /** The sum of f(0) .. f(n - 1) for the counts of the first n buckets. */
  function TotalCount(uppers: seq<real>, steps: seq<Step>, n: nat): nat {
    if n == 0 then 0 else TotalCount(uppers, steps, n - 1) + CountIn(uppers, steps, n - 1)
  }

  lemma {:induction false} TotalAfter(uppers: seq<real>, steps: seq<Step>, n: nat)
    requires |steps| > 0
    ensures var last := steps[|steps| - 1];
      TotalCount(uppers, steps, n) == TotalCount(uppers, steps[..|steps| - 1], n)
        + if last.Record? && Search(uppers, last.val) < n then 1 else 0
  {
    if n > 0 { TotalAfter(uppers, steps, n - 1); }
  }

  lemma {:induction false} TotalOfNothing(uppers: seq<real>, n: nat)
    ensures TotalCount(uppers, [], n) == 0
  {
    if n > 0 { TotalOfNothing(uppers, n - 1); }
  }

  /** Every recorded value is in exactly one bucket: the counts add up to the calls. */
  lemma {:induction false} EveryRecordCounted(uppers: seq<real>, steps: seq<Step>)
    requires forall i :: 0 <= i < |steps| && steps[i].Record? ==> Search(uppers, steps[i].val) < |uppers|
    ensures TotalCount(uppers, steps, |uppers|) == Records(steps)
  {
    if |steps| == 0 {
      TotalOfNothing(uppers, |uppers|);
    } else {
      TotalAfter(uppers, steps, |uppers|);
      EveryRecordCounted(uppers, steps[..|steps| - 1]);
    }
  }
}
