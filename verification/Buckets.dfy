/** Histogram bucket specifications: `BucketsCalculator`, the `Buckets` factories and the
    iterator over their upper bounds.  Doubles are reals. */
module Buckets {
  function Pow(x: real, n: nat): real {
    if n == 0 then 1.0 else x * Pow(x, n - 1)
  }

  datatype Growth = Linear | Exponential

  datatype BucketsCalculator = BucketsCalculator(growth: Growth, start: real, update: real) {
    function Calculate(index: nat): real {
      if growth == Exponential then start * Pow(update, index)
      else start + update * index as real
    }
  }

  /** The bounds themselves: the first is `start`, and each next one is `update` more than, or
      `update` times, the one before. */
  lemma CalculateSteps(c: BucketsCalculator, i: nat)
    ensures c.Calculate(0) == c.start
    ensures c.growth == Linear ==> c.Calculate(i + 1) == c.Calculate(i) + c.update
    ensures c.growth == Exponential ==> c.Calculate(i + 1) == c.update * c.Calculate(i)
  {
    if c.growth == Linear {
      LinearStep(c.update, i);
    } else {
      ExponentialStep(c.start, c.update, Pow(c.update, i));
    }
  }

  lemma LinearStep(update: real, i: nat)
    ensures update * 0.0 == 0.0 && update * (i + 1) as real == update * i as real + update
  {
    assert (i + 1) as real == i as real + 1.0;
  }

  lemma ExponentialStep(start: real, update: real, power: real)
    ensures start * (update * power) == update * (start * power)
  {
  }

  datatype Kind = Values | Durations

  datatype Buckets = Buckets(kind: Kind, calculator: BucketsCalculator, num: nat)

  datatype Construction = Constructed(buckets: Buckets) | InvalidArgument(message: string)

  /** What every factory guarantees of the buckets it makes. */
  predicate FromFactory(b: Buckets) {
    b.num > 0 && (if b.calculator.growth == Exponential then b.calculator.update > 1.0 else b.calculator.update > 0.0)
  }

  function Construct(kind: Kind, calculator: BucketsCalculator, num: nat): Construction {
    if num == 0 then InvalidArgument("Number of buckets cannot be zero")
    else Constructed(Buckets(kind, calculator, num))
  }

  function LinearValues(start: real, width: real, num: nat): (r: Construction)
    ensures r.Constructed? ==> FromFactory(r.buckets)
    ensures r.Constructed? <==> width > 0.0 && num > 0
    ensures r.Constructed? ==> r.buckets == Buckets(Values, BucketsCalculator(Linear, start, width), num)
    ensures width <= 0.0 ==> r == InvalidArgument("Bucket width must be positive")
    ensures width > 0.0 && num == 0 ==> r == InvalidArgument("Number of buckets cannot be zero")
  {
    if width <= 0.0 then InvalidArgument("Bucket width must be positive")
    else Construct(Values, BucketsCalculator(Linear, start, width), num)
  }

  function ExponentialValues(start: real, factor: real, num: nat): (r: Construction)
    ensures r.Constructed? ==> FromFactory(r.buckets)
    ensures r.Constructed? <==> factor > 1.0 && num > 0
    ensures r.Constructed? ==> r.buckets == Buckets(Values, BucketsCalculator(Exponential, start, factor), num)
    ensures factor <= 1.0 ==> r == InvalidArgument("Bucket factor must be greater than 1")
    ensures factor > 1.0 && num == 0 ==> r == InvalidArgument("Number of buckets cannot be zero")
  {
    if factor <= 1.0 then InvalidArgument("Bucket factor must be greater than 1")
    else Construct(Values, BucketsCalculator(Exponential, start, factor), num)
  }

  function LinearDurations(start: int, width: int, num: nat): (r: Construction)
    ensures r.Constructed? ==> FromFactory(r.buckets)
    ensures r.Constructed? <==> width > 0 && num > 0
    ensures r.Constructed? ==>
      r.buckets == Buckets(Durations, BucketsCalculator(Linear, start as real, width as real), num)
    ensures width <= 0 ==> r == InvalidArgument("Bucket width must be positive")
    ensures width > 0 && num == 0 ==> r == InvalidArgument("Number of buckets cannot be zero")
  {
    if width <= 0 then InvalidArgument("Bucket width must be positive")
    else Construct(Durations, BucketsCalculator(Linear, start as real, width as real), num)
  }

  function ExponentialDurations(start: int, factor: nat, num: nat): (r: Construction)
    ensures r.Constructed? ==> FromFactory(r.buckets)
    ensures r.Constructed? <==> factor > 1 && num > 0
    ensures r.Constructed? ==>
      r.buckets == Buckets(Durations, BucketsCalculator(Exponential, start as real, factor as real), num)
    ensures factor <= 1 ==> r == InvalidArgument("Bucket factor must be greater than 1")
    ensures factor > 1 && num == 0 ==> r == InvalidArgument("Number of buckets cannot be zero")
  {
    if factor <= 1 then InvalidArgument("Bucket factor must be greater than 1")
    else Construct(Durations, BucketsCalculator(Exponential, start as real, factor as real), num)
  }

  /** What callers get for linear buckets: none unless width and number are positive, and then
      that many bounds, the first at `start` and each next one a width further on. */
  lemma LinearBounds(start: int, width: int, num: nat, i: nat)
    ensures LinearValues(start as real, width as real, num).Constructed? <==> width > 0 && num > 0
    ensures LinearDurations(start, width, num).Constructed? <==> width > 0 && num > 0
    ensures width > 0 && num > 0 ==>
      var b := LinearDurations(start, width, num).buckets;
      && b == LinearValues(start as real, width as real, num).buckets.(kind := Durations)
      && b.num == num && b.calculator.Calculate(0) == start as real
      && b.calculator.Calculate(i + 1) == b.calculator.Calculate(i) + width as real
  {
    CalculateSteps(BucketsCalculator(Linear, start as real, width as real), i);
  }

  /** And for exponential ones: none unless the factor is above one and the number positive. */
  lemma ExponentialBounds(start: int, factor: nat, num: nat, i: nat)
    ensures ExponentialValues(start as real, factor as real, num).Constructed? <==> factor > 1 && num > 0
    ensures ExponentialDurations(start, factor, num).Constructed? <==> factor > 1 && num > 0
    ensures factor > 1 && num > 0 ==>
      var b := ExponentialDurations(start, factor, num).buckets;
      && b == ExponentialValues(start as real, factor as real, num).buckets.(kind := Durations)
      && b.num == num && b.calculator.Calculate(0) == start as real
      && b.calculator.Calculate(i + 1) == factor as real * b.calculator.Calculate(i)
  {
    CalculateSteps(BucketsCalculator(Exponential, start as real, factor as real), i);
  }

  /** Value buckets take any real arguments. */
  lemma ValueBounds(start: real, update: real, num: nat, i: nat)
    ensures LinearValues(start, update, num).Constructed? <==> update > 0.0 && num > 0
    ensures ExponentialValues(start, update, num).Constructed? <==> update > 1.0 && num > 0
    ensures update > 0.0 && num > 0 ==>
      var b := LinearValues(start, update, num).buckets;
      && b.kind == Values && b.num == num && b.calculator.Calculate(0) == start
      && b.calculator.Calculate(i + 1) == b.calculator.Calculate(i) + update
    ensures update > 1.0 && num > 0 ==>
      var b := ExponentialValues(start, update, num).buckets;
      && b.kind == Values && b.num == num && b.calculator.Calculate(0) == start
      && b.calculator.Calculate(i + 1) == update * b.calculator.Calculate(i)
  {
    CalculateSteps(BucketsCalculator(Linear, start, update), i);
    CalculateSteps(BucketsCalculator(Exponential, start, update), i);
  }

  // -------------------------------------------------------------------- ordering

  ghost predicate NonDecreasing(b: Buckets) {
    forall i, j :: 0 <= i <= j < b.num ==> b.calculator.Calculate(i) <= b.calculator.Calculate(j)
  }

  lemma MultiplyGrows(x: real, y: real)
    requires x > 1.0 && y >= 1.0
    ensures x * y > y
  {
    assert (x - 1.0) * y > 0.0;
  }

  lemma {:induction false} PowStep(x: real, n: nat)
    requires x > 1.0
    ensures 1.0 <= Pow(x, n) < Pow(x, n + 1)
  {
    if n > 0 { PowStep(x, n - 1); }
    MultiplyGrows(x, Pow(x, n));
  }

  lemma {:induction false} PowGrows(x: real, i: nat, j: nat)
    requires x > 1.0 && i <= j
    ensures Pow(x, i) <= Pow(x, j)
    ensures i < j ==> Pow(x, i) < Pow(x, j)
  {
    if i < j {
      PowGrows(x, i, j - 1);
      PowStep(x, j - 1);
    }
  }

  lemma ScaleOrder(k: real, x: real, y: real)
    requires x <= y
    ensures k >= 0.0 ==> k * x <= k * y
    ensures k < 0.0 && x < y ==> k * x > k * y
  {
    if k >= 0.0 {
      assert k * (y - x) >= 0.0;
    } else if x < y {
      assert k * (y - x) < 0.0;
    }
  }

  /** Linear bounds are always in order; exponential bounds exactly when they start at zero
      or above, or there is only one of them. */
  lemma OrderedExactly(b: Buckets)
    requires FromFactory(b)
    ensures NonDecreasing(b) <==> b.calculator.growth == Linear || b.calculator.start >= 0.0 || b.num == 1
  {
    var c := b.calculator;
    if c.growth == Linear {
      forall i, j | 0 <= i <= j < b.num ensures c.Calculate(i) <= c.Calculate(j) {
        ScaleOrder(c.update, i as real, j as real);
      }
    } else {
      if c.start >= 0.0 {
        forall i, j | 0 <= i <= j < b.num ensures c.Calculate(i) <= c.Calculate(j) {
          PowGrows(c.update, i, j);
          ScaleOrder(c.start, Pow(c.update, i), Pow(c.update, j));
        }
      } else if b.num > 1 {
        PowGrows(c.update, 0, 1);
        ScaleOrder(c.start, Pow(c.update, 0), Pow(c.update, 1));
        assert c.Calculate(0) > c.Calculate(1);
      }
    }
  }

  // -------------------------------------------------------------------- iterator

  class BucketsIterator {
    const calculator: BucketsCalculator
    var index: nat

    constructor (calculator: BucketsCalculator, index: nat)
      ensures this.calculator == calculator && this.index == index
    {
      this.calculator, this.index := calculator, index;
    }

    method Increment()
      modifies this`index
      ensures index == old(index) + 1
    {
      index := index + 1;
    }

    method PostIncrement() returns (oldValue: BucketsIterator)
      modifies this`index
      ensures index == old(index) + 1
      ensures fresh(oldValue) && oldValue.calculator == calculator && oldValue.index == old(index)
    {
      oldValue := new BucketsIterator(calculator, index);
      Increment();
    }

    predicate Equals(other: BucketsIterator)
      reads this, other
    {
      calculator == other.calculator && index == other.index
    }

    function Dereference(): real
      reads this
    {
      calculator.Calculate(index)
    }
  }

  method Begin(b: Buckets) returns (it: BucketsIterator)
    ensures fresh(it) && it.calculator == b.calculator && it.index == 0
  {
    it := new BucketsIterator(b.calculator, 0);
  }

  method End(b: Buckets) returns (it: BucketsIterator)
    ensures fresh(it) && it.calculator == b.calculator && it.index == b.num
  {
    it := new BucketsIterator(b.calculator, b.num);
  }
}
