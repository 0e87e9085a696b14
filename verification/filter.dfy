/** The regulator's integer recursive average filter, with C++ integer division. */
module Filter {

  /** Window of the recursive filter (avgCount). */
  const AvgCount: int := 2

  function Min(a: int, b: int): (r: int) { if a <= b then a else b }
  function Max(a: int, b: int): (r: int) { if a <= b then b else a }
  function Abs(a: int): (r: nat) { if a < 0 then -a else a }

  /** C++ `a / b` on int: the quotient truncated toward zero, so the remainder
      `a - q * b` is smaller than the divisor in magnitude and never has the
      opposite sign to `a` (section 7.6.5 of ISO/IEC 14882:2020). Dafny's own
      `/` is Euclidean and differs from this when `a` is negative. */
  function TruncDiv(a: int, b: int): (q: int)
    requires b != 0
    ensures Abs(a - q * b) < Abs(b)
    ensures a >= 0 ==> a - q * b >= 0
    ensures a <= 0 ==> a - q * b <= 0
  {
    if a >= 0 then
      (if b > 0 then a / b else -(a / -b))
    else
      (if b > 0 then -((-a) / b) else (-a) / (-b))
  }

  /** The remainder conditions above pin the quotient down: any q meeting them is TruncDiv's. */
  lemma TruncDivUnique(a: int, b: int, q: int)
    requires b != 0
    requires Abs(a - q * b) < Abs(b)
    requires a >= 0 ==> a - q * b >= 0
    requires a <= 0 ==> a - q * b <= 0
    ensures q == TruncDiv(a, b)
  {
    var p := TruncDiv(a, b);
    // both remainders lie on one side of zero within |b|, so they differ by less than |b|,
    // yet they differ by (p - q) * b
    var d := p - q;
    assert (a - q * b) - (a - p * b) == d * b;
    if d != 0 {
      MulAtLeastFactor(Abs(d), Abs(b));
      AbsMul(d, b);
    }
  }

  lemma AbsMul(x: int, y: int)
    ensures Abs(x * y) == Abs(x) * Abs(y)
  {
  }

  /** A product of a positive factor and a non-negative one is at least the latter. */
  lemma MulAtLeastFactor(m: int, n: int)
    requires m >= 1 && n >= 0
    ensures m * n >= n
  {
  }

  /** One filter step: the new average from the previous one and the reading. */
  function FilterStep(average: int, tempC: int): (r: int)
    ensures Min(average, tempC) <= r <= Max(average, tempC)
  {
    TruncDiv(average * (AvgCount - 1) + tempC, AvgCount)
  }

  /** With avgCount = 2 the step is the truncated mean of the two values; for a
      non-negative sum that is the floor, for a negative sum it rounds up. */
  lemma FilterStepIsTruncatedMean(average: int, tempC: int)
    ensures FilterStep(average, tempC) == TruncDiv(average + tempC, 2)
    ensures average + tempC >= 0 ==> FilterStep(average, tempC) == (average + tempC) / 2
    ensures average + tempC < 0 ==> FilterStep(average, tempC) == -((-(average + tempC)) / 2)
  {
  }

  /** A reading equal to the average leaves the average where it is. */
  lemma FilterFixedPoint(t: int)
    ensures FilterStep(t, t) == t
  {
  }

  /** Each step at least halves (rounding up) the distance to the reading. */
  lemma FilterContracts(average: int, tempC: int)
    ensures Abs(FilterStep(average, tempC) - tempC) <= (Abs(average - tempC) + 1) / 2
  {
  }

  /** Truncation stalls the filter one degree short: a non-negative average one
      below the reading never moves, and neither does a non-positive average one
      above it. */
  lemma FilterStallsOneAway(average: int)
    ensures average >= 0 ==> FilterStep(average, average + 1) == average
    ensures average <= 0 ==> FilterStep(average, average - 1) == average
  {
  }

  /** Where Euclidean and truncating division part: a negative odd sum. Dafny's
      Euclidean `(-3 + 0) / 2` is -2; the C++ step gives -1. */
  lemma FilterTruncatesTowardZero()
    ensures FilterStep(-3, 0) == -1
  {
  }
}
