/** `DurationBucketString`: a duration in nanoseconds as text, in the manner of Go's
    time.Duration, and a parser that reads the text back. */
module DurationText {
  import opened Wrappers
  import opened ByteStrings
  import opened CompactProtocol
  import opened Decimals

  const DOT: Byte := 46
  const MINUS: Byte := 45
  const H: Byte := 104
  const M: Byte := 109
  const N: Byte := 110
  const S: Byte := 115

  const SECOND: int := 1_000_000_000
  const MINUTE: int := 60_000_000_000
  const HOUR: int := 3600_000_000_000
  const MILLION: int := 1_000_000

  // --------------------------------------------------------------------- parsing

  predicate IsNumeric(c: Byte) {
    IsDigit(c) || c == DOT
  }

  /** The length of the longest prefix of digits and dots, or of anything else. */
  function Run(s: Bytes, numeric: bool): (n: nat)
    ensures n <= |s|
  {
    if |s| == 0 || IsNumeric(s[0]) != numeric then 0 else 1 + Run(s[1..], numeric)
  }

  /** What the digits behind a decimal dot are worth, in millionths. */
  function Millionths(fraction: Bytes): nat
    requires AllDigits(fraction) && |fraction| <= 6
  {
    ValueOf(fraction + Zeros(6 - |fraction|))
  }

  /** A number with at most six decimals, in millionths. */
  function ParseDecimal(s: Bytes): Option<nat> {
    var dot := IndexOfDot(s);
    if dot == |s| then
      if s != [] && AllDigits(s) then Some(ValueOf(s) * MILLION) else None
    else WithFraction(s[..dot], s[dot + 1..])
  }

  function WithFraction(digits: Bytes, fraction: Bytes): Option<nat> {
    if digits != [] && AllDigits(digits) && 1 <= |fraction| <= 6 && AllDigits(fraction)
    then Some(ValueOf(digits) * MILLION + Millionths(fraction))
    else None
  }

  function IndexOfDot(s: Bytes): (r: nat)
    ensures r <= |s|
    ensures r < |s| ==> s[r] == DOT
    ensures forall i :: 0 <= i < r ==> s[i] != DOT
  {
    if |s| == 0 || s[0] == DOT then 0 else 1 + IndexOfDot(s[1..])
  }

  /** `micro` millionths of a unit, in whole nanoseconds. */
  function InUnit(micro: nat, unit: Bytes): Option<nat> {
    if unit == [H] then Some(micro * 3_600_000)
    else if unit == [M] then Some(micro * 60_000)
    else if unit == [S] then Some(micro * 1000)
    else if unit == [M, S] then Some(micro)
    else if unit == [N, S] then Some(micro / MILLION)
    else None
  }

  /** The first number with its unit: its length and its worth in nanoseconds. */
  datatype Term = Term(length: nat, nanos: nat)

  function FirstTerm(s: Bytes): Option<Term> {
    var n := Run(s, true);
    var u := Run(s[n..], false);
    match ParseDecimal(s[..n])
    case None => None
    case Some(micro) =>
      match InUnit(micro, s[n..][..u])
      case None => None
      case Some(nanos) => Some(Term(n + u, nanos))
  }

  /** Terms read by `first` one after the other to the end of the text, added up. */
  function Sum(first: Bytes -> Option<Term>, s: Bytes): Option<nat>
    decreases |s|
  {
    match first(s)
    case None => None
    case Some(term) =>
      if term.length == |s| then Some(term.nanos)
      else if 0 < term.length < |s| then
        match Sum(first, s[term.length..])
        case None => None
        case Some(more) => Some(term.nanos + more)
      else None
  }

  /** Numbers with units, added up, in nanoseconds. */
  function ParseTerms(s: Bytes): Option<nat> {
    Sum(FirstTerm, s)
  }

  function ParseDuration(s: Bytes): Option<int> {
    if s == [ZERO] then Some(0)
    else if |s| > 0 && s[0] == MINUS then
      match ParseTerms(s[1..])
      case Some(n) => Some(0 - n)
      case None => None
    else
      match ParseTerms(s)
      case Some(n) => Some(n)
      case None => None
  }

  predicate IsNumber(s: Bytes) {
    |s| > 0 && forall i :: 0 <= i < |s| ==> IsNumeric(s[i])
  }

  predicate IsUnit(s: Bytes) {
    s in {[H], [M], [S], [M, S], [N, S]}
  }

  lemma {:induction false} RunLength(a: Bytes, b: Bytes, numeric: bool)
    requires forall i :: 0 <= i < |a| ==> IsNumeric(a[i]) == numeric
    requires |b| == 0 || IsNumeric(b[0]) != numeric
    ensures Run(a + b, numeric) == |a|
  {
    if |a| > 0 {
      assert (a + b)[1..] == a[1..] + b;
      RunLength(a[1..], b, numeric);
    } else {
      assert a + b == b;
    }
  }

  lemma TermRuns(number: Bytes, unit: Bytes, rest: Bytes)
    requires IsNumber(number) && IsUnit(unit)
    requires rest == [] || IsNumeric(rest[0])
    ensures var s := number + unit + rest;
      && Run(s, true) == |number| && s[..|number|] == number
      && Run(s[|number|..], false) == |unit| && s[|number|..][..|unit|] == unit
      && s[|number| + |unit|..] == rest
  {
    var s := number + unit + rest;
    assert s == number + (unit + rest);
    RunLength(number, unit + rest, true);
    assert s[|number|..] == unit + rest;
    RunLength(unit, rest, false);
  }

  lemma FirstTermRead(number: Bytes, unit: Bytes, rest: Bytes, micro: nat)
    requires IsNumber(number) && IsUnit(unit) && ParseDecimal(number) == Some(micro)
    requires rest == [] || IsNumeric(rest[0])
    ensures FirstTerm(number + unit + rest) == Some(Term(|number| + |unit|, InUnit(micro, unit).value))
  {
    TermRuns(number, unit, rest);
  }

  lemma SumMore(first: Bytes -> Option<Term>, head: Bytes, rest: Bytes, nanos: nat, more: nat)
    requires head != [] && rest != [] && first(head + rest) == Some(Term(|head|, nanos))
    requires Sum(first, rest) == Some(more)
    ensures Sum(first, head + rest) == Some(nanos + more)
  {
    assert (head + rest)[|head|..] == rest;
  }

  lemma TermAlone(number: Bytes, unit: Bytes, micro: nat, nanos: nat)
    requires IsNumber(number) && ParseDecimal(number) == Some(micro) && InUnit(micro, unit) == Some(nanos)
    ensures ParseTerms(number + unit) == Some(nanos)
  {
    assert number + unit == number + unit + [];
    FirstTermRead(number, unit, [], micro);
  }

  lemma TermBefore(number: Bytes, unit: Bytes, rest: Bytes, micro: nat, nanos: nat, more: nat)
    requires IsNumber(number) && ParseDecimal(number) == Some(micro) && InUnit(micro, unit) == Some(nanos)
    requires rest != [] && IsNumeric(rest[0]) && ParseTerms(rest) == Some(more)
    ensures ParseTerms(number + unit + rest) == Some(nanos + more)
  {
    FirstTermRead(number, unit, rest, micro);
    SumMore(FirstTerm, number + unit, rest, nanos, more);
  }

  // -------------------------------------------------------------------- printing

  /** `micro` is a nearest number of millionths to duration / 10^precision. */
  predicate Rounds(duration: nat, precision: nat, micro: nat) {
    0 - Pow10(precision) <= 2 * (duration * MILLION - micro * Pow10(precision)) <= Pow10(precision)
  }

  /** What `%f` prints for duration / 10^precision, in millionths.  Whether a tie goes up is
      left to the C library. */
  function Nearest(duration: nat, precision: nat, tieUp: bool): nat {
    var p := Pow10(precision);
    var q, r := duration * MILLION / p, duration * MILLION % p;
    if 2 * r < p || (2 * r == p && !tieUp) then q else q + 1
  }

  lemma NearestRounds(duration: nat, precision: nat, tieUp: bool)
    ensures Rounds(duration, precision, Nearest(duration, precision, tieUp))
  {
    var p := Pow10(precision);
    var x := duration * MILLION;
    Division(x, p);
    var q := x / p;
    assert (q + 1) * p == q * p + p;
  }

  lemma Division(x: nat, p: nat)
    requires p > 0
    ensures x == x / p * p + x % p && 0 <= x % p < p
  {
  }

  lemma Powers()
    ensures Pow10(0) == 1 && Pow10(6) == 1_000_000 && Pow10(9) == 1_000_000_000
  {
    assert Pow10(3) == 1000 by { assert Pow10(1) == 10 && Pow10(2) == 100; }
    assert Pow10(6) == 1_000_000 by { assert Pow10(4) == 10_000 && Pow10(5) == 100_000; }
    assert Pow10(7) == 10_000_000 && Pow10(8) == 100_000_000;
  }

  /** Below a second, millionths of a millisecond are nanoseconds: nothing is rounded. */
  lemma MillisExact(nanos: nat, tieUp: bool)
    ensures Nearest(nanos, 6, tieUp) == nanos
  {
    NearestRounds(nanos, 6, tieUp);
    Powers();
  }

  lemma SecondsRounded(nanos: nat, tieUp: bool)
    ensures -500 <= Nearest(nanos, 9, tieUp) * 1000 - nanos <= 500
  {
    NearestRounds(nanos, 9, tieUp);
    Powers();
  }

  /** Text that is a number, reads back as `micro` millionths, and starts with a zero only
      below one. */
  ghost predicate Shows(str: Bytes, micro: nat) {
    && IsNumber(str) && IsDigit(str[0])
    && ParseDecimal(str) == Some(micro)
    && (micro >= MILLION ==> str[0] != ZERO)
  }

  lemma IndexOfDotIn(a: Bytes, b: Bytes)
    requires AllDigits(a)
    ensures IndexOfDot(a + [DOT] + b) == |a|
    ensures IndexOfDot(a) == |a|
  {
    var s := a + [DOT] + b;
    assert s[|a|] == DOT;
    assert forall i :: 0 <= i < |a| ==> s[i] == a[i];
  }

  lemma DigitsShow(whole: nat)
    ensures Shows(Decimal(whole), whole * MILLION)
  {
    var s := Decimal(whole);
    DecimalRoundTrip(whole);
    IndexOfDotIn(s, []);
    assert s[..|s|] == s;
    if whole > 0 { NoLeadingZero(whole); }
  }

  lemma SplitAtDot(digits: Bytes, fraction: Bytes)
    requires AllDigits(digits)
    ensures ParseDecimal(digits + [DOT] + fraction) == WithFraction(digits, fraction)
  {
    IndexOfDotIn(digits, fraction);
    var s := digits + [DOT] + fraction;
    assert s[..|digits|] == digits && s[|digits| + 1..] == fraction;
  }

  lemma NumberWithDot(digits: Bytes, fraction: Bytes)
    requires AllDigits(digits) && |digits| > 0 && AllDigits(fraction)
    ensures IsNumber(digits + [DOT] + fraction)
  {
    var s := digits + [DOT] + fraction;
    forall i | 0 <= i < |s| ensures IsNumeric(s[i]) {
      if i < |digits| {
        assert IsDigit(digits[i]);
      } else if i > |digits| {
        assert IsDigit(fraction[i - |digits| - 1]);
      }
    }
  }

  lemma FractionShows(micro: nat, fraction: Bytes)
    requires AllDigits(fraction) && 1 <= |fraction| <= 6
    requires Millionths(fraction) == micro % MILLION
    ensures Shows(Decimal(micro / MILLION) + [DOT] + fraction, micro)
  {
    var whole := micro / MILLION;
    var digits := Decimal(whole);
    DecimalRoundTrip(whole);
    SplitAtDot(digits, fraction);
    NumberWithDot(digits, fraction);
    assert (digits + [DOT] + fraction)[0] == digits[0];
    if whole > 0 { NoLeadingZero(whole); }
  }

  lemma SixDigits(micro: nat)
    ensures |Padded(micro % MILLION, 6)| == 6
  {
    Powers();
    DecimalLength(micro % MILLION, 6);
    PaddedRoundTrip(micro % MILLION, 6);
  }

  /** Dropping a trailing zero of the fraction does not change what it is worth. */
  lemma DropZero(fraction: Bytes)
    requires AllDigits(fraction) && 1 <= |fraction| <= 6 && fraction[|fraction| - 1] == ZERO
    ensures Millionths(fraction[..|fraction| - 1]) == Millionths(fraction)
  {
    var shorter := fraction[..|fraction| - 1];
    assert shorter + Zeros(6 - |shorter|) == fraction + Zeros(6 - |fraction|);
  }

  /** `FormatDuration`: prints the quotient with six decimals, then erases trailing zeros one
      by one, and the dot if nothing is left behind it. */
  method FormatDuration(duration: nat, precision: nat, tieUp: bool) returns (str: Bytes)
    ensures Shows(str, Nearest(duration, precision, tieUp))
    ensures DOT in str ==> str[|str| - 1] != ZERO && str[|str| - 1] != DOT
  {
    var micro := Nearest(duration, precision, tieUp);
    ghost var digits := Decimal(micro / MILLION);
    ghost var fraction := Padded(micro % MILLION, 6);
    str := Decimal(micro / MILLION) + [DOT] + Padded(micro % MILLION, 6);
    SixDigits(micro);
    PaddedRoundTrip(micro % MILLION, 6);
    Powers();
    assert fraction + Zeros(6 - |fraction|) == fraction;
    while str[|str| - 1] == ZERO
      invariant str == digits + [DOT] + fraction && AllDigits(fraction) && |fraction| <= 6
      invariant Millionths(fraction) == micro % MILLION
      decreases |str|
    {
      DropZero(fraction);
      fraction := fraction[..|fraction| - 1];
      str := str[..|str| - 1];
    }
    if str[|str| - 1] == DOT {
      LastIsDot(digits, fraction);
      str := str[..|str| - 1];
      WholeShows(micro);
    } else {
      FractionShows(micro, fraction);
    }
  }

  lemma WholeShows(micro: nat)
    requires Millionths([]) == micro % MILLION
    ensures Shows(Decimal(micro / MILLION), micro) && DOT !in Decimal(micro / MILLION)
  {
    assert [] + Zeros(6) == Zeros(6);
    ZerosValue(6);
    DigitsShow(micro / MILLION);
    DecimalRoundTrip(micro / MILLION);
  }

  lemma LastIsDot(digits: Bytes, fraction: Bytes)
    requires AllDigits(fraction)
    ensures var s := digits + [DOT] + fraction;
      s[|s| - 1] == DOT ==> fraction == [] && s[..|s| - 1] == digits
  {
    var s := digits + [DOT] + fraction;
    if |fraction| > 0 {
      assert s[|s| - 1] == fraction[|fraction| - 1];
    } else {
      assert s[..|s| - 1] == digits;
    }
  }

  // Some texts in ASCII: "1.5" is a number, "1.5ms" and "-1h2m" are durations.

  lemma OnePointFive()
    ensures ParseDecimal([49, 46, 53]) == Some(1_500_000)
  {
    OneDigit(49);
    OneDigit(53);
    SplitAtDot([49], [53]);
    assert [49] + [DOT] + [53] == [49, 46, 53];
    HalfInMillionths();
  }

  lemma HalfInMillionths()
    ensures AllDigits([53]) && Millionths([53]) == 500_000
  {
    OneDigit(53);
    ValueConcat([53], Zeros(5));
    ZerosValue(5);
    assert Pow10(5) == 100_000 by { assert Pow10(3) == 1000; }
  }

  lemma OnePointFiveMillis()
    ensures ParseDuration([49, 46, 53, 109, 115]) == Some(1_500_000)
  {
    OnePointFive();
    TermAlone([49, 46, 53], [M, S], 1_500_000, 1_500_000);
    assert [49, 46, 53] + [M, S] == [49, 46, 53, 109, 115];
  }

  lemma MinusOneHourTwoMinutes()
    ensures ParseDuration([45, 49, 104, 50, 109]) == Some(-3_720_000_000_000)
  {
    OneDigit(49);
    OneDigit(50);
    TermAlone([50], [M], 2_000_000, 120_000_000_000);
    TermBefore([49], [H], [50] + [M], 1_000_000, 3_600_000_000_000, 120_000_000_000);
    assert [49] + [H] + ([50] + [M]) == [45, 49, 104, 50, 109][1..];
  }

  lemma OneDigit(c: Byte)
    requires 48 <= c <= 57
    ensures IsDigit(c) && AllDigits([c]) && ValueOf([c]) == c - 48
    ensures ParseDecimal([c]) == Some((c - 48) * 1_000_000)
  {
    IndexOfDotIn([c], []);
    assert [c][..0] == [];
  }

  // numeric_limits is not specialized for durations: max() and min() are both zero.
  const CHRONO_LIMIT: Int64 := 0

  /** Reading the text of a duration gives the duration back: exactly below one second, and
      within 500 nanoseconds from there on. */
  ghost predicate ReadsBack(s: Bytes, d: int) {
    && ParseDuration(s).Some?
    && var e := ParseDuration(s).value;
    && -500 <= e - d <= 500
    && (-SECOND < d < SECOND ==> e == d)
  }

  /** The unsigned text of `nanos`: it reads back, and its first digit is not zero. */
  ghost predicate Tells(text: Bytes, nanos: nat) {
    && |text| > 1 && IsDigit(text[0]) && text[0] != ZERO
    && ParseTerms(text).Some?
    && var e := ParseTerms(text).value;
    && -500 <= e - nanos <= 500
    && (nanos < SECOND ==> e == nanos)
  }

  /** The least granular units, in ASCII: "ms" if there are milliseconds, "ns" otherwise, and "h"
      and "m" before the closing "s" only where there are some.  A fraction does not end in a
      zero, nor a number in its dot. */
  ghost predicate UsesUnits(text: Bytes, nanos: nat) {
    if nanos < 1_000_000_000 then
      && |text| > 2 && text[|text| - 2..] == (if nanos >= 1_000_000 then [109, 115] else [110, 115])
      && Trimmed(text, 2)
    else
      && (104 in text <==> nanos >= 3600_000_000_000)
      && (109 in text <==> nanos % 3600_000_000_000 >= 60_000_000_000)
      && |text| > 1 && text[|text| - 1] == 115
      && Trimmed(text, 1)
  }

  /** If there is a dot, the character before the last unit is neither it nor a zero. */
  ghost predicate Trimmed(text: Bytes, unit: nat) {
    46 in text && unit < |text| ==> text[|text| - unit - 1] != 48 && text[|text| - unit - 1] != 46
  }

  lemma TrimmedBeforeUnit(number: Bytes, unit: Bytes)
    requires |number| > 0 && DOT !in unit
    requires DOT in number ==> number[|number| - 1] != ZERO && number[|number| - 1] != DOT
    ensures Trimmed(number + unit, |unit|)
  {
    assert (number + unit)[|number| - 1] == number[|number| - 1];
  }

  lemma TrimmedBehind(front: Bytes, text: Bytes, unit: nat)
    requires DOT !in front && Trimmed(text, unit) && unit < |text|
    ensures Trimmed(front + text, unit)
  {
    assert (front + text)[|front| + |text| - unit - 1] == text[|text| - unit - 1];
  }

  method DurationBucketString(bucketBound: Int64, tieUp: bool) returns (str: Bytes)
    requires bucketBound != -TWO_63
    ensures ReadsBack(str, bucketBound)
    ensures bucketBound == 0 ==> str == [48]
    ensures bucketBound > 0 ==> str[0] != ZERO && UsesUnits(str, bucketBound)
    ensures bucketBound < 0 ==> |str| > 1 && str[0] == 45 && str[1] != ZERO && UsesUnits(str[1..], 0 - bucketBound)
  {
    if bucketBound == 0 {
      return [ZERO];
    }
    if bucketBound == CHRONO_LIMIT {
      assert false;  // "infinity" is never printed
    }
    if bucketBound == CHRONO_LIMIT {
      assert false;  // nor "-infinity"
    }
    var isNegative := bucketBound < 0;
    var magnitude: nat := if bucketBound < 0 then 0 - bucketBound else bucketBound;
    var text := FormatMagnitude(magnitude, tieUp);
    if isNegative {
      str := [MINUS] + text;
      assert str[1..] == text;
    } else {
      str := text;
    }
  }

  /** The part of `DurationBucketString` after the sign. */
  method FormatMagnitude(magnitude: nat, tieUp: bool) returns (text: Bytes)
    requires magnitude > 0
    ensures Tells(text, magnitude) && UsesUnits(text, magnitude)
  {
    var seconds := magnitude / SECOND;
    if seconds < 1 {
      text := FormatBelowSecond(magnitude, tieUp);
    } else {
      text := FormatClock(magnitude, tieUp);
    }
  }

  method FormatBelowSecond(magnitude: nat, tieUp: bool) returns (text: Bytes)
    requires 0 < magnitude < SECOND
    ensures Tells(text, magnitude) && UsesUnits(text, magnitude)
  {
    var millis := magnitude / 1_000_000;
    if millis > 0 {
      text := FormatDuration(magnitude, 6, tieUp);
      MillisExact(magnitude, tieUp);
      TermAlone(text, [M, S], magnitude, magnitude);
      TrimmedBeforeUnit(text, [M, S]);
      text := text + [M, S];
    } else {
      if millis > 0 {
        assert false;  // the microsecond branch repeats the test above
      }
      text := Decimal(magnitude);
      DigitsShow(magnitude);
      TermAlone(text, [N, S], magnitude * MILLION, magnitude);
      NoLeadingZero(magnitude);
      NoDot(magnitude);
      TrimmedBeforeUnit(text, [N, S]);
      text := text + [N, S];
    }
  }

  lemma NoDot(n: nat)
    ensures DOT !in Decimal(n)
  {
    DecimalRoundTrip(n);
  }

  /** A text of terms worth exactly `e`, starting with a digit. */
  ghost predicate Terms(text: Bytes, e: nat) {
    |text| > 1 && IsDigit(text[0]) && ParseTerms(text) == Some(e)
  }

  /** A whole number of hours or minutes, left out when it is none. */
  function Part(k: nat, unit: Bytes): Bytes {
    if k > 0 then Decimal(k) + unit else []
  }

  lemma PartBefore(k: nat, unit: Bytes, rest: Bytes, nanos: nat, e: nat)
    requires InUnit(k * MILLION, unit) == Some(nanos) && Terms(rest, e)
    ensures Terms(Part(k, unit) + rest, nanos + e)
    ensures k > 0 ==> (Part(k, unit) + rest)[0] != ZERO
    ensures k == 0 ==> Part(k, unit) + rest == rest
  {
    if k > 0 {
      DigitsShow(k);
      TermBefore(Decimal(k), unit, rest, k * MILLION, nanos, e);
      NoLeadingZero(k);
    } else {
      assert Part(k, unit) + rest == rest;
    }
  }

  lemma SecondsRead(number: Bytes, micro: nat)
    requires Shows(number, micro)
    ensures Terms(number + [S], micro * 1000)
  {
    TermAlone(number, [S], micro, micro * 1000);
  }

  lemma ClockReads(hours: nat, minutes: nat, number: Bytes, micro: nat, magnitude: nat)
    requires Shows(number, micro) && magnitude >= SECOND
    requires -500 <= hours * HOUR + minutes * MINUTE + micro * 1000 - magnitude <= 500
    ensures Tells(Part(hours, [H]) + (Part(minutes, [M]) + (number + [S])), magnitude)
  {
    SecondsRead(number, micro);
    PartBefore(minutes, [M], number + [S], minutes * MINUTE, micro * 1000);
    PartBefore(hours, [H], Part(minutes, [M]) + (number + [S]), hours * HOUR, minutes * MINUTE + micro * 1000);
  }

  /** Which letters a clock text contains. */
  lemma ClockLetters(hours: nat, minutes: nat, number: Bytes)
    requires IsNumber(number)
    requires DOT in number ==> number[|number| - 1] != ZERO && number[|number| - 1] != DOT
    ensures var text := Part(hours, [H]) + (Part(minutes, [M]) + (number + [S]));
      && (H in text <==> hours > 0) && (M in text <==> minutes > 0) && text[|text| - 1] == S
      && Trimmed(text, 1)
  {
    PartLetters(hours, H);
    PartLetters(minutes, M);
    TrimmedBeforeUnit(number, [S]);
    TrimmedBehind(Part(minutes, [M]), number + [S], 1);
    TrimmedBehind(Part(hours, [H]), Part(minutes, [M]) + (number + [S]), 1);
    assert H !in number && M !in number;
    var rest := Part(minutes, [M]) + (number + [S]);
    assert rest[|rest| - 1] == S;
  }

  lemma PartLetters(k: nat, unit: Byte)
    requires !IsNumeric(unit)
    ensures forall c :: c in Part(k, [unit]) && !IsNumeric(c) <==> c == unit && k > 0
    ensures DOT !in Part(k, [unit])
  {
    DecimalRoundTrip(k);
    assert forall c :: c in Decimal(k) ==> IsDigit(c);
  }

  method FormatClock(magnitude: nat, tieUp: bool) returns (text: Bytes)
    requires magnitude >= SECOND
    ensures Tells(text, magnitude) && UsesUnits(text, magnitude)
  {
    var hours := magnitude / HOUR;
    var minutes := (magnitude - hours * HOUR) / MINUTE;
    var nanos := magnitude - hours * HOUR - minutes * MINUTE;
    text := [];
    if hours > 0 {
      Regroup(text, Decimal(hours), [H]);
      text := text + Decimal(hours) + [H];
    }
    assert text == Part(hours, [H]);
    if minutes > 0 {
      Regroup(text, Decimal(minutes), [M]);
      text := text + Decimal(minutes) + [M];
    }
    assert text == Part(hours, [H]) + Part(minutes, [M]);
    var number := FormatDuration(nanos, 9, tieUp);
    Regroup(text, number, [S]);
    Regroup(Part(hours, [H]), Part(minutes, [M]), number + [S]);
    text := text + number + [S];
    ClockLetters(hours, minutes, number);
    SecondsRounded(nanos, tieUp);
    ClockReads(hours, minutes, number, Nearest(nanos, 9, tieUp), magnitude);
  }

  lemma Regroup(a: Bytes, b: Bytes, c: Bytes)
    ensures a + b + c == a + (b + c)
  {
  }
}
