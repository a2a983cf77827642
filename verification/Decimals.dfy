/** Decimal digits as ASCII bytes: `std::to_string` and its inverse. */
module Decimals {
  import opened ByteStrings

  const ZERO: Byte := 48

  predicate IsDigit(c: Byte) {
    ZERO <= c < ZERO + 10
  }

  predicate AllDigits(s: Bytes) {
    forall i :: 0 <= i < |s| ==> IsDigit(s[i])
  }

  function Decimal(n: nat): (r: Bytes)
    ensures |r| > 0
  {
    if n < 10 then [ZERO + n] else Decimal(n / 10) + [ZERO + n % 10]
  }

  function ValueOf(s: Bytes): nat
    requires AllDigits(s)
  {
    if |s| == 0 then 0 else 10 * ValueOf(s[..|s| - 1]) + (s[|s| - 1] - ZERO)
  }

  function Pow10(k: nat): (r: nat)
    ensures r > 0
  {
    if k == 0 then 1 else 10 * Pow10(k - 1)
  }

  lemma {:induction false} DecimalRoundTrip(n: nat)
    ensures AllDigits(Decimal(n)) && ValueOf(Decimal(n)) == n
  {
    if n >= 10 {
      DecimalRoundTrip(n / 10);
      var s := Decimal(n);
      assert s[..|s| - 1] == Decimal(n / 10);
    }
  }

  lemma {:induction false} NoLeadingZero(n: nat)
    requires n > 0
    ensures Decimal(n)[0] != ZERO
  {
    if n >= 10 { NoLeadingZero(n / 10); }
  }

  lemma {:induction false} ValueBound(s: Bytes)
    requires AllDigits(s)
    ensures ValueOf(s) < Pow10(|s|)
  {
    if |s| > 0 { ValueBound(s[..|s| - 1]); }
  }

  lemma {:induction false} ValueConcat(a: Bytes, b: Bytes)
    requires AllDigits(a) && AllDigits(b)
    ensures AllDigits(a + b) && ValueOf(a + b) == ValueOf(a) * Pow10(|b|) + ValueOf(b)
  {
    if |b| == 0 {
      assert a + b == a;
    } else {
      var last := |b| - 1;
      ValueConcat(a, b[..last]);
      var s := a + b;
      assert s[..|s| - 1] == a + b[..last];
      Scale(ValueOf(a), Pow10(last), ValueOf(b[..last]));
    }
  }

  lemma Scale(x: nat, p: nat, y: nat)
    ensures 10 * (x * p + y) == x * (10 * p) + 10 * y
  {
  }

  /** n zeros. */
  function Zeros(n: nat): (r: Bytes)
    ensures |r| == n && AllDigits(r)
  {
    seq(n, _ => ZERO)
  }

  lemma {:induction false} ZerosWorthNothing(n: nat, s: Bytes)
    requires AllDigits(s)
    ensures AllDigits(Zeros(n) + s) && ValueOf(Zeros(n) + s) == ValueOf(s)
  {
    ValueConcat(Zeros(n), s);
    ZerosValue(n);
  }

  lemma {:induction false} ZerosValue(n: nat)
    ensures ValueOf(Zeros(n)) == 0
  {
    if n > 0 {
      assert Zeros(n)[..n - 1] == Zeros(n - 1);
      ZerosValue(n - 1);
    }
  }

  /** Zero-padded to at least `width` digits. */
  function Padded(n: nat, width: nat): Bytes {
    if |Decimal(n)| < width then Zeros(width - |Decimal(n)|) + Decimal(n) else Decimal(n)
  }

  lemma PaddedRoundTrip(n: nat, width: nat)
    ensures AllDigits(Padded(n, width)) && ValueOf(Padded(n, width)) == n
    ensures |Padded(n, width)| == if |Decimal(n)| < width then width else |Decimal(n)|
  {
    DecimalRoundTrip(n);
    if |Decimal(n)| < width {
      ZerosWorthNothing(width - |Decimal(n)|, Decimal(n));
    }
  }

  lemma {:induction false} DecimalLength(n: nat, k: nat)
    requires k > 0 && n < Pow10(k)
    ensures |Decimal(n)| <= k
  {
    if n >= 10 {
      assert k > 1 by { assert Pow10(1) == 10 * Pow10(0); }
      DecimalLength(n / 10, k - 1);
    }
  }

  /** Among digit strings of one length, the order of strings is the order of numbers. */
  lemma {:induction false} OrderAgrees(a: Bytes, b: Bytes)
    requires AllDigits(a) && AllDigits(b) && |a| == |b|
    ensures StringLess(a, b) <==> ValueOf(a) < ValueOf(b)
  {
    if |a| > 0 {
      var a', b' := a[1..], b[1..];
      assert a == [a[0]] + a' && b == [b[0]] + b';
      ValueConcat([a[0]], a');
      ValueConcat([b[0]], b');
      ValueBound(a');
      ValueBound(b');
      assert ValueOf([a[0]]) == a[0] - ZERO && ValueOf([b[0]]) == b[0] - ZERO;
      OrderAgrees(a', b');
      LeadingDigit(a[0] - ZERO, b[0] - ZERO, Pow10(|a'|), ValueOf(a'), ValueOf(b'));
    }
  }

  lemma LeadingLess(x: nat, y: nat, p: nat, u: nat)
    requires x < y && u < p
    ensures x * p + u < y * p
  {
    var d := y - x;
    assert y * p == x * p + d * p;
    assert d * p == p + (d - 1) * p;
  }

  lemma LeadingDigit(x: nat, y: nat, p: nat, u: nat, v: nat)
    requires u < p && v < p
    ensures x < y ==> x * p + u < y * p + v
    ensures x == y ==> (x * p + u < y * p + v <==> u < v)
    ensures x > y ==> x * p + u > y * p + v
  {
    if x < y {
      LeadingLess(x, y, p, u);
    } else if x > y {
      LeadingLess(y, x, p, v);
    }
  }
}
