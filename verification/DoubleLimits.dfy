/** The two limits of a double that bound a histogram, in powers of two. */
module DoubleLimits {
  import opened Buckets
  import opened HistogramSpec

  lemma {:induction false} PowAdds(m: nat, n: nat)
    ensures Pow(2.0, m + n) == Pow(2.0, m) * Pow(2.0, n)
  {
    if m > 0 { PowAdds(m - 1, n); }
  }

  lemma PowDoubles(n: nat, p: real, q: real)
    requires Pow(2.0, n) == p && q == p * p
    ensures Pow(2.0, 2 * n) == q && Pow(2.0, 2 * n + 1) == q * 2.0
  {
    PowAdds(n, n);
  }

  const POW31: real := 2147483648.0
  const POW127: real := 170141183460469231731687303715884105728.0

  lemma Pow31()
    ensures Pow(2.0, 31) == POW31
  {
    assert Pow(2.0, 3) == 8.0;
    PowDoubles(3, 8.0, 64.0);
    PowDoubles(7, 128.0, 16384.0);
    PowDoubles(15, 32768.0, 1073741824.0);
  }

  lemma Pow127()
    ensures Pow(2.0, 127) == POW127
  {
    Pow31();
    PowDoubles(31, POW31, 4611686018427387904.0);
    PowDoubles(63, 9223372036854775808.0, 85070591730234615865843651857942052864.0);
  }

  lemma Pow52()
    ensures Pow(2.0, 52) == 4503599627370496.0
  {
    Pow31();
    assert Pow(2.0, 3) == 8.0;
    PowDoubles(3, 8.0, 64.0);
    PowAdds(7, 7);
    PowAdds(14, 7);
    PowAdds(31, 21);
  }

  lemma Pow1022()
    ensures Pow(2.0, 1022) == 1.0 / DOUBLE_MIN
  {
    Pow127();
    PowAdds(127, 127);
    PowAdds(254, 254);
    PowAdds(508, 508);
    assert Pow(2.0, 6) == 64.0;
    PowAdds(1016, 6);
  }

  /** The largest double has the exponent 1023 and all 52 bits of its fraction set; the least
      positive normal one has the exponent -1022. */
  lemma LimitsInBinary()
    ensures DOUBLE_MAX * Pow(2.0, 52) == (2.0 * Pow(2.0, 52) - 1.0) * Pow(2.0, 1023)
    ensures DOUBLE_MIN * Pow(2.0, 1022) == 1.0
  {
    Pow52();
    Pow1022();
  }
}
