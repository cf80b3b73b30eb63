// The efficiency arithmetic: `Math.round`, `Math.min` and the divisions the
// components perform on JavaScript numbers, restated exactly in integers.
module Rounding {

  /** `Math.round`: the nearest integer, with halves rounded up. */
  function RoundHalfUp(x: real): (r: int)
    ensures r as real - 0.5 <= x < r as real + 0.5
  {
    (x + 0.5).Floor
  }

  function MinReal(x: real, y: real): real
  {
    if x <= y then x else y
  }

  /** Integer division by a positive divisor is the floor of the real quotient. */
  lemma DivIsFloor(a: int, b: int)
    requires b > 0
    ensures a / b == (a as real / b as real).Floor
  {
    var q, r := a / b, a % b;
    assert a == q * b + r && 0 <= r < b;
    assert a as real / b as real == q as real + r as real / b as real;
    assert 0.0 <= r as real / b as real < 1.0;
  }

  /**
   * The efficiency a member ends with when an admin verifies a report worth
   * `points`: `Math.round(Math.min(100, e + points / 10))`, computed on
   * integers as min(100, floor((10e + points + 5) / 10)).
   */
  function VerifiedEfficiency(e: int, points: int): (r: int)
    ensures r <= 100
    ensures e <= 100 && points >= 0 ==> e <= r
    ensures points == 0 && 0 <= e <= 100 ==> r == e
  {
    var t := (10 * e + points + 5) / 10;
    if t < 100 then t else 100
  }

  /** The integer formula agrees with the real-valued one the code evaluates. */
  lemma VerifiedEfficiencyIsRounded(e: int, points: int)
    ensures VerifiedEfficiency(e, points)
         == RoundHalfUp(MinReal(100.0, e as real + points as real / 10.0))
  {
    var x := e as real + points as real / 10.0;
    DivIsFloor(10 * e + points + 5, 10);
    assert (10 * e + points + 5) as real / 10.0 == x + 0.5;
    if x >= 100.0 {
      assert (10 * e + points + 5) / 10 >= 100;
    }
  }

  /**
   * `Math.round(sum / n)` for an integer sum over `n` values, computed on
   * integers as floor((2 sum + n) / 2n).
   */
  function RoundedAverage(sum: int, n: int): int
    requires n > 0
  {
    (2 * sum + n) / (2 * n)
  }

  lemma RoundedAverageIsRounded(sum: int, n: int)
    requires n > 0
    ensures RoundedAverage(sum, n) == RoundHalfUp(sum as real / n as real)
  {
    DivIsFloor(2 * sum + n, 2 * n);
    var s, m := sum as real, n as real;
    var x := s / m;
    QuotientTimes(s, m);
    assert (2 * sum + n) as real == 2.0 * s + m;
    assert (2 * n) as real == 2.0 * m;
    assert (x + 0.5) * (2.0 * m) == 2.0 * (x * m) + m;
    QuotientOf(2.0 * s + m, 2.0 * m, x + 0.5);
  }

  lemma QuotientTimes(a: real, b: real)
    requires b != 0.0
    ensures (a / b) * b == a
  {
  }

  lemma QuotientOf(a: real, b: real, c: real)
    requires b != 0.0 && c * b == a
    ensures a / b == c
  {
  }

  /** An average of values in [lo, hi] rounds to a value in [lo, hi]. */
  lemma RoundedAverageBounds(sum: int, n: int, lo: int, hi: int)
    requires n > 0
    requires n * lo <= sum <= n * hi
    ensures lo <= RoundedAverage(sum, n) <= hi
  {
    var q := RoundedAverage(sum, n);
    var d := 2 * n;
    assert q * d <= 2 * sum + n < q * d + d;
    assert (q + 1) * d == q * d + d;
    assert lo * d + n <= 2 * sum + n <= hi * d + n;
    MulCancel(lo, q + 1, d);
    MulCancel(q, hi + 1, d);
  }

  lemma MulCancel(a: int, b: int, d: int)
    requires d > 0 && a * d < b * d
    ensures a < b
  {
    assert (b - a) * d == b * d - a * d;
  }

  /** The worked cases: a project report of 20 points, and the 15-point record. */
  lemma VerifiedEfficiencyExamples()
    ensures VerifiedEfficiency(50, 20) == 52
    ensures VerifiedEfficiency(99, 20) == 100
    ensures VerifiedEfficiency(92, 15) == 94
    ensures VerifiedEfficiency(92, 0) == 92
  {
  }
}
