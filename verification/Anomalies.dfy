/** Cost anomaly detection: days more than two standard deviations above the average. */
module Anomalies {
  datatype Day = Day(day: string, cost: real)

  datatype Anomaly = Anomaly(day: string, cost: real, average: real, threshold: real, deviation: real)

  const MIN_DAYS: nat := 7

  function Sum(trend: seq<Day>): real {
    if trend == [] then 0.0 else Sum(trend[..|trend| - 1]) + trend[|trend| - 1].cost
  }

  function Square(x: real): real { x * x }

  function SumSquares(trend: seq<Day>, center: real): real {
    if trend == [] then 0.0
    else SumSquares(trend[..|trend| - 1], center) + Square(trend[|trend| - 1].cost - center)
  }

  function Average(trend: seq<Day>): real
    requires trend != []
  {
    Sum(trend) / |trend| as real
  }

  function Variance(trend: seq<Day>): real
    requires trend != []
  {
    SumSquares(trend, Average(trend)) / |trend| as real
  }

  /** `s` is the square root of the variance. */
  predicate IsStdDev(s: real, trend: seq<Day>)
    requires trend != []
  {
    s >= 0.0 && s * s == Variance(trend)
  }

  predicate IsSpike(d: Day, threshold: real) { d.cost > threshold && d.cost > 0.0 }

  function Spikes(trend: seq<Day>, average: real, threshold: real): seq<Anomaly> {
    if trend == [] then []
    else
      var rest, d := Spikes(trend[..|trend| - 1], average, threshold), trend[|trend| - 1];
      if IsSpike(d, threshold) then rest + [Anomaly(d.day, d.cost, average, threshold, d.cost - average)] else rest
  }

  /** The average is the cost per day and the variance the mean squared distance from it; sums run over
      all days, wherever the list is cut. */
  lemma {:induction false} SumsAppend(a: seq<Day>, b: seq<Day>, center: real)
    ensures Sum(a + b) == Sum(a) + Sum(b)
    ensures SumSquares(a + b, center) == SumSquares(a, center) + SumSquares(b, center)
    ensures |a| == 1 ==>
      Sum(a) == a[0].cost && SumSquares(a, center) == (a[0].cost - center) * (a[0].cost - center)
  {
    if |a| == 1 { assert a[..0] == [] && Sum([]) == 0.0 && SumSquares([], center) == 0.0; }
    if b == [] {
      assert a + b == a;
    } else {
      assert (a + b)[..|a + b| - 1] == a + b[..|b| - 1];
      SumsAppend(a, b[..|b| - 1], center);
    }
  }

  lemma AverageTimesDays(trend: seq<Day>)
    requires trend != []
    ensures |trend| as real * Average(trend) == Sum(trend)
    ensures |trend| as real * Variance(trend) == SumSquares(trend, Average(trend))
  {
    DivideTimes(Sum(trend), |trend| as real);
    DivideTimes(SumSquares(trend, Average(trend)), |trend| as real);
  }

  /** A day is reported exactly when its cost is positive and above the threshold, with its cost, the
      average, the threshold and its distance from the average; days keep their order. */
  lemma {:induction false} SpikesExactly(a: seq<Day>, b: seq<Day>, average: real, threshold: real)
    ensures Spikes(a + b, average, threshold) == Spikes(a, average, threshold) + Spikes(b, average, threshold)
    ensures |a| == 1 ==> var d := a[0];
      Spikes(a, average, threshold)
      == (if d.cost > threshold && d.cost > 0.0 then [Anomaly(d.day, d.cost, average, threshold, d.cost - average)] else [])
  {
    if |a| == 1 { assert a[..0] == []; }
    if b == [] {
      assert a + b == a;
    } else {
      assert (a + b)[..|a + b| - 1] == a + b[..|b| - 1];
      SpikesExactly(a, b[..|b| - 1], average, threshold);
    }
  }

  /** Reports the spikes in order; `stdDev` is the square root the library computes. */
  method DetectAnomalies(trend: seq<Day>, stdDev: real) returns (anomalies: seq<Anomaly>)
    requires |trend| >= 7 ==> IsStdDev(stdDev, trend)
    ensures |trend| < 7 ==> anomalies == []
    ensures |trend| >= 7 ==> anomalies == Spikes(trend, Average(trend), Average(trend) + 2.0 * stdDev)
    ensures anomalies != [] ==> 5 * |anomalies| < |trend|
  {
    if |trend| < MIN_DAYS { return []; }
    var total, i := 0.0, 0;
    while i < |trend|
      invariant i <= |trend| && total == Sum(trend[..i])
    {
      assert trend[..i + 1][..i] == trend[..i];
      total := total + trend[i].cost;
      i := i + 1;
    }
    assert trend[..i] == trend;
    var avg := total / |trend| as real;
    var threshold := avg + 2.0 * stdDev;
    anomalies, i := [], 0;
    while i < |trend|
      invariant i <= |trend| && anomalies == Spikes(trend[..i], avg, threshold)
    {
      assert trend[..i + 1][..i] == trend[..i];
      var cost := trend[i].cost;
      if cost > threshold && cost > 0.0 {
        anomalies := anomalies + [Anomaly(trend[i].day, cost, avg, threshold, cost - avg)];
      }
      i := i + 1;
    }
    assert trend[..i] == trend;
    if anomalies != [] { SpikesAreFew(trend, stdDev); }
  }

  // ----- fewer than one day in five -----

  /** Pure arithmetic, kept apart from the sums. */
  lemma DivideTimes(x: real, n: real)
    requires n > 0.0
    ensures n * (x / n) == x
  {}

  lemma Distribute(k: real, x: real, y: real)
    ensures k * (x + y) == k * x + k * y
  {}

  lemma CancelFactor(v: real, x: real, y: real)
    requires v > 0.0 && v * x == v * y
    ensures x == y
  {
    assert (v * x) / v == x && (v * y) / v == y;
  }

  lemma SquareOfProduct(s: real, v: real, z: real, d: real)
    requires s * s == v && s * z == d
    ensures v * Square(z) == Square(d)
  {
    assert v * (z * z) == (s * z) * (s * z);
  }

  lemma SquarePositive(x: real)
    requires x > 0.0
    ensures Square(x) > 0.0
  {
    assert Square(x) / x == x;
  }

  lemma SquareNegative(x: real)
    requires x < 0.0
    ensures Square(x) > 0.0
  {
    assert Square(x) / x == x;
  }

  lemma SquareShifted(z: real)
    ensures Square(z + 0.5) == Square(z) + z + 0.25
    ensures Square(z + 0.5) >= 0.0
    ensures z > 2.0 ==> Square(z + 0.5) > 6.25
  {
    if z > 2.0 {
      assert z * z >= 2.0 * z;
    }
  }

  lemma QuotientAbove(c: real, s: real)
    requires s > 0.0 && c > 2.0 * s
    ensures c / s > 2.0
  {
    assert (c / s) * s == c;
  }

  // Standard scores: deviations in units of the standard deviation.

  function Score(d: Day, a: real, s: real): real
    requires s > 0.0
  {
    (d.cost - a) / s
  }

  function SumScores(trend: seq<Day>, a: real, s: real): real
    requires s > 0.0
  {
    if trend == [] then 0.0 else SumScores(trend[..|trend| - 1], a, s) + Score(trend[|trend| - 1], a, s)
  }

  function SumSquaredScores(trend: seq<Day>, a: real, s: real): real
    requires s > 0.0
  {
    if trend == [] then 0.0
    else SumSquaredScores(trend[..|trend| - 1], a, s) + Square(Score(trend[|trend| - 1], a, s))
  }

  function SumShiftedScores(trend: seq<Day>, a: real, s: real): real
    requires s > 0.0
  {
    if trend == [] then 0.0
    else SumShiftedScores(trend[..|trend| - 1], a, s) + Square(Score(trend[|trend| - 1], a, s) + 0.5)
  }

  function SumDeviations(trend: seq<Day>, a: real): real {
    if trend == [] then 0.0 else SumDeviations(trend[..|trend| - 1], a) + (trend[|trend| - 1].cost - a)
  }

  lemma {:induction false} DeviationsAre(trend: seq<Day>, a: real)
    ensures SumDeviations(trend, a) == Sum(trend) - a * |trend| as real
  {
    if trend != [] {
      var init := trend[..|trend| - 1];
      DeviationsAre(init, a);
      Distribute(a, |init| as real, 1.0);
      assert |init| as real + 1.0 == |trend| as real;
    }
  }

  lemma {:induction false} ScoresSum(trend: seq<Day>, a: real, s: real)
    requires s > 0.0
    ensures s * SumScores(trend, a, s) == SumDeviations(trend, a)
  {
    if trend != [] {
      var init, d := trend[..|trend| - 1], trend[|trend| - 1];
      ScoresSum(init, a, s);
      Distribute(s, SumScores(init, a, s), Score(d, a, s));
      DivideTimes(d.cost - a, s);
    }
  }

  lemma {:induction false} SquaredScoresSum(trend: seq<Day>, a: real, s: real, v: real)
    requires s > 0.0 && s * s == v
    ensures v * SumSquaredScores(trend, a, s) == SumSquares(trend, a)
  {
    if trend != [] {
      var init, d := trend[..|trend| - 1], trend[|trend| - 1];
      SquaredScoresSum(init, a, s, v);
      DivideTimes(d.cost - a, s);
      SquareOfProduct(s, v, Score(d, a, s), d.cost - a);
      Distribute(v, SumSquaredScores(init, a, s), Square(Score(d, a, s)));
    }
  }

  lemma {:induction false} ShiftedScoresSum(trend: seq<Day>, a: real, s: real)
    requires s > 0.0
    ensures SumShiftedScores(trend, a, s) == SumSquaredScores(trend, a, s) + SumScores(trend, a, s) + 0.25 * |trend| as real
  {
    if trend != [] {
      ShiftedScoresSum(trend[..|trend| - 1], a, s);
      SquareShifted(Score(trend[|trend| - 1], a, s));
    }
  }

  /** Every spike has a score above 2, so it alone contributes more than 6.25 to the shifted squares. */
  lemma {:induction false} SpikesWeigh(trend: seq<Day>, a: real, s: real)
    requires s > 0.0
    ensures var k := |Spikes(trend, a, a + 2.0 * s)| as real;
      && SumShiftedScores(trend, a, s) >= 6.25 * k
      && (k > 0.0 ==> SumShiftedScores(trend, a, s) > 6.25 * k)
  {
    if trend != [] {
      var d := trend[|trend| - 1];
      SpikesWeigh(trend[..|trend| - 1], a, s);
      SquareShifted(Score(d, a, s));
      if IsSpike(d, a + 2.0 * s) { QuotientAbove(d.cost - a, s); }
    }
  }

  /** At the average, with the standard deviation as unit, scores add up to 0 and their squares to n. */
  lemma ScoresNormalised(trend: seq<Day>, s: real)
    requires trend != [] && IsStdDev(s, trend) && s > 0.0
    ensures SumScores(trend, Average(trend), s) == 0.0
    ensures SumSquaredScores(trend, Average(trend), s) == |trend| as real
  {
    SumScoresZero(trend, Average(trend), s, |trend| as real);
    SquaredScoresCount(trend, Average(trend), s, Variance(trend), |trend| as real);
  }

  lemma SquaredScoresCount(trend: seq<Day>, a: real, s: real, v: real, n: real)
    requires s > 0.0 && s * s == v && n > 0.0 && v == SumSquares(trend, a) / n
    ensures SumSquaredScores(trend, a, s) == n
  {
    assert v > 0.0 by { SquarePositive(s); }
    assert n * v == SumSquares(trend, a) by { DivideTimes(SumSquares(trend, a), n); }
    SquaredScoresSum(trend, a, s, v);
    Commute(n, v);
    CancelFactor(v, SumSquaredScores(trend, a, s), n);
  }

  lemma Commute(x: real, y: real)
    ensures x * y == y * x
  {}

  lemma SumScoresZero(trend: seq<Day>, a: real, s: real, n: real)
    requires s > 0.0 && n > 0.0 && n == |trend| as real && a == Sum(trend) / n
    ensures SumScores(trend, a, s) == 0.0
  {
    DivideTimes(Sum(trend), n);
    Commute(n, a);
    DeviationsAre(trend, a);
    ScoresSum(trend, a, s);
    CancelFactor(s, SumScores(trend, a, s), 0.0);
  }

  lemma {:induction false} ZeroSquaresConstant(trend: seq<Day>, a: real, i: nat)
    requires SumSquares(trend, a) == 0.0 && i < |trend|
    ensures trend[i].cost == a
  {
    SumSquaresNonNegative(trend[..|trend| - 1], a);
    var d := trend[|trend| - 1].cost - a;
    if d > 0.0 { SquarePositive(d); }
    if d < 0.0 { SquareNegative(d); }
    if i < |trend| - 1 { ZeroSquaresConstant(trend[..|trend| - 1], a, i); }
  }

  lemma {:induction false} SumSquaresNonNegative(trend: seq<Day>, a: real)
    ensures SumSquares(trend, a) >= 0.0
  {
    if trend != [] {
      var d := trend[|trend| - 1].cost - a;
      SumSquaresNonNegative(trend[..|trend| - 1], a);
      if d > 0.0 { SquarePositive(d); }
      if d < 0.0 { SquareNegative(d); }
    }
  }

  lemma {:induction false} NoSpikesIn(trend: seq<Day>, a: real, threshold: real)
    requires forall i :: 0 <= i < |trend| ==> trend[i].cost <= threshold
    ensures Spikes(trend, a, threshold) == []
  {
    if trend != [] { NoSpikesIn(trend[..|trend| - 1], a, threshold); }
  }

  /** A flat series has no anomalies. */
  lemma FlatSeriesHasNone(trend: seq<Day>)
    requires trend != [] && Variance(trend) == 0.0
    ensures Spikes(trend, Average(trend), Average(trend) + 2.0 * 0.0) == []
  {
    var a := Average(trend);
    DivideTimes(SumSquares(trend, a), |trend| as real);
    forall i | 0 <= i < |trend| ensures trend[i].cost <= a {
      ZeroSquaresConstant(trend, a, i);
    }
    NoSpikesIn(trend, a, a + 2.0 * 0.0);
  }

  /** One-sided Chebyshev: whenever any day is flagged, fewer than one in five is. */
  lemma SpikesAreFew(trend: seq<Day>, s: real)
    requires trend != [] && IsStdDev(s, trend)
    requires Spikes(trend, Average(trend), Average(trend) + 2.0 * s) != []
    ensures 5 * |Spikes(trend, Average(trend), Average(trend) + 2.0 * s)| < |trend|
  {
    if s == 0.0 {
      FlatSeriesHasNone(trend);
    } else {
      ScoresNormalised(trend, s);
      ShiftedScoresSum(trend, Average(trend), s);
      SpikesWeigh(trend, Average(trend), s);
    }
  }

  // ----- the bound is sharp -----

  /** Every day costs one of two amounts. */
  predicate TwoLevels(trend: seq<Day>, lo: real, hi: real) {
    forall i :: 0 <= i < |trend| ==> trend[i].cost == lo || trend[i].cost == hi
  }

  function HighDays(trend: seq<Day>, hi: real): (k: nat)
    ensures k <= |trend|
  {
    if trend == [] then 0 else HighDays(trend[..|trend| - 1], hi) + if trend[|trend| - 1].cost == hi then 1 else 0
  }

  /** `k` times `x`, by addition. */
  function Times(k: nat, x: real): real {
    if k == 0 then 0.0 else Times(k - 1, x) + x
  }

  lemma {:induction false} TimesIsProduct(k: nat, x: real)
    ensures Times(k, x) == k as real * x
  {
    if k > 0 {
      TimesIsProduct(k - 1, x);
      OneMore((k - 1) as real, k as real, x);
    }
  }

  lemma OneMore(j: real, k: real, x: real)
    requires k == j + 1.0
    ensures k * x == j * x + x
  {}

  lemma {:induction false} SumOfTwoLevels(trend: seq<Day>, lo: real, hi: real)
    requires TwoLevels(trend, lo, hi)
    ensures Sum(trend) == Times(HighDays(trend, hi), hi) + Times(|trend| - HighDays(trend, hi), lo)
  {
    if trend != [] { SumOfTwoLevels(trend[..|trend| - 1], lo, hi); }
  }

  lemma {:induction false} SquaresOfTwoLevels(trend: seq<Day>, lo: real, hi: real, a: real)
    requires TwoLevels(trend, lo, hi)
    ensures SumSquares(trend, a)
         == Times(HighDays(trend, hi), Square(hi - a)) + Times(|trend| - HighDays(trend, hi), Square(lo - a))
  {
    if trend != [] { SquaresOfTwoLevels(trend[..|trend| - 1], lo, hi, a); }
  }

  lemma {:induction false} SpikesAreHighDays(trend: seq<Day>, lo: real, hi: real, a: real, threshold: real)
    requires TwoLevels(trend, lo, hi) && lo <= threshold < hi && hi > 0.0
    ensures |Spikes(trend, a, threshold)| == HighDays(trend, hi)
  {
    if trend != [] { SpikesAreHighDays(trend[..|trend| - 1], lo, hi, a, threshold); }
  }

  /** With the share `p` of high days and the distance `d` of the levels. */
  lemma AverageOfShares(n: real, k: real, p: real, lo: real, hi: real, d: real, a: real)
    requires n > 0.0 && k == n * p && d == hi - lo && n * a == k * hi + (n - k) * lo
    ensures a == lo + p * d
  {
    assert n * a == n * (lo + p * d) by {
      assert k * hi + (n - k) * lo == n * lo + k * d;
      assert k * d == n * (p * d);
      Distribute(n, lo, p * d);
    }
    CancelFactor(n, a, lo + p * d);
  }

  lemma VarianceOfShares(n: real, k: real, p: real, d: real, v: real)
    requires n > 0.0 && k == n * p && n * v == k * Square((1.0 - p) * d) + (n - k) * Square(p * d)
    ensures v == p * (1.0 - p) * Square(d)
  {
    var q, e := 1.0 - p, Square(d);
    SquareOfTimes(q, d);
    SquareOfTimes(p, d);
    assert n - k == n * q by { Distribute(n, q, p); }
    assert k * (Square(q) * e) == n * (p * q * e * q);
    assert n * q * (Square(p) * e) == n * (p * q * e * p);
    Distribute(n, p * q * e * q, p * q * e * p);
    Distribute(p * q * e, q, p);
    CancelFactor(n, v, p * q * e);
  }

  lemma SquareOfTimes(x: real, y: real)
    ensures Square(x * y) == Square(x) * Square(y)
  {}

  lemma SquaresCompare(x: real, y: real)
    requires x >= 0.0 && y >= 0.0
    ensures x > y <==> Square(x) > Square(y)
  {
    if x > y {
      SquaresIncrease(x, y);
    } else if y > x {
      SquaresIncrease(y, x);
    }
  }

  lemma SquaresIncrease(x: real, y: real)
    requires x > y >= 0.0
    ensures Square(x) > Square(y)
  {
    if y == 0.0 {
      SquarePositive(x);
      assert Square(y) == 0.0;
    } else {
      var d := x - y;
      SquareOfSum(y, d);
      SignOfProduct(d, d);
      SignOfProduct(y, d);
    }
  }

  lemma SquareOfSum(y: real, d: real)
    ensures Square(y + d) == Square(y) + 2.0 * (y * d) + d * d
  {}

  lemma SignOfProduct(x: real, y: real)
    requires x > 0.0
    ensures x * y > 0.0 <==> y > 0.0
  {}

  /** The distance of the high level from the average exceeds two deviations exactly below one in five. */
  lemma FifthDecides(p: real, d: real, s: real)
    requires 0.0 <= p <= 1.0 && d > 0.0 && s >= 0.0 && s * s == p * (1.0 - p) * Square(d)
    ensures (1.0 - p) * d > 2.0 * s <==> 5.0 * p < 1.0
  {
    var q, e := 1.0 - p, Square(d);
    SquarePositive(d);
    if q == 0.0 {
      assert q * d == 0.0;
    } else {
      assert q * d >= 0.0 by { SignOfProduct(q, d); }
      SquaresCompare(q * d, 2.0 * s);
      SquareOfTimes(q, d);
      assert Square(2.0 * s) == 4.0 * (s * s);
      assert Square(q) * e - 4.0 * (p * q * e) == (q * e) * (q - 4.0 * p);
      assert q * e > 0.0 by { SignOfProduct(q, e); }
      SignOfProduct(q * e, q - 4.0 * p);
    }
  }

  lemma ShareBounds(n: real, k: real, p: real)
    requires n > 0.0 && 0.0 <= k <= n && k == n * p
    ensures 0.0 <= p <= 1.0
    ensures 5.0 * p < 1.0 <==> 5.0 * k < n
  {
    SignOfProduct(n, -p);
    Opposite(n, p);
    SignOfProduct(n, p - 1.0);
    assert n * (p - 1.0) == k - n;
    SignOfProduct(n, 1.0 - 5.0 * p);
    assert n * (1.0 - 5.0 * p) == n - 5.0 * k;
  }

  lemma Opposite(x: real, y: real)
    ensures x * -y == -(x * y)
  {}

  /** The average of two levels, `p` being the share of high days and `d` the distance of the levels. */
  lemma AverageOfLevels(n: nat, k: nat, m: nat, p: real, lo: real, hi: real, d: real, a: real, sum: real)
    requires n > 0 && n == k + m && k as real == n as real * p && d == hi - lo
    requires sum == Times(k, hi) + Times(m, lo) && a == sum / n as real
    ensures a == lo + p * d
  {
    TimesIsProduct(k, hi);
    TimesIsProduct(m, lo);
    DivideTimes(sum, n as real);
    AverageOfShares(n as real, k as real, p, lo, hi, d, a);
  }

  lemma VarianceOfLevels(n: nat, k: nat, m: nat, p: real, d: real, v: real, high: real, low: real, squares: real)
    requires n > 0 && n == k + m && k as real == n as real * p
    requires high == Square((1.0 - p) * d) && low == Square(p * d)
    requires squares == Times(k, high) + Times(m, low) && v == squares / n as real
    ensures v == p * (1.0 - p) * Square(d)
  {
    TimesIsProduct(k, high);
    TimesIsProduct(m, low);
    DivideTimes(squares, n as real);
    VarianceOfShares(n as real, k as real, p, d, v);
  }

  lemma DistancesOfLevels(p: real, lo: real, hi: real, d: real, a: real)
    requires d == hi - lo && a == lo + p * d
    ensures hi - a == (1.0 - p) * d
    ensures Square(lo - a) == Square(p * d)
  {
    assert (1.0 - p) * d == d - p * d;
    SquareOfOpposite(p * d);
  }

  lemma SquareOfOpposite(x: real)
    ensures Square(-x) == Square(x)
  {}

  lemma ShareOf(k: nat, n: nat) returns (p: real)
    requires k <= n && n > 0
    ensures k as real == n as real * p && 0.0 <= p <= 1.0
    ensures 5.0 * p < 1.0 <==> 5 * k < n
  {
    p := k as real / n as real;
    DivideTimes(k as real, n as real);
    ShareBounds(n as real, k as real, p);
  }

  /** How the two levels lie to the threshold. */
  lemma LevelsAndThreshold(n: nat, k: nat, m: nat, lo: real, hi: real, a: real, s: real, sum: real, squares: real)
    requires n > 0 && n == k + m && lo < hi && s >= 0.0
    requires sum == Times(k, hi) + Times(m, lo) && a == sum / n as real
    requires squares == Times(k, Square(hi - a)) + Times(m, Square(lo - a)) && s * s == squares / n as real
    ensures hi > a + 2.0 * s <==> 5 * k < n
    ensures lo <= a + 2.0 * s
  {
    var d := hi - lo;
    var p := ShareOf(k, n);
    AverageOfLevels(n, k, m, p, lo, hi, d, a, sum);
    DistancesOfLevels(p, lo, hi, d, a);
    VarianceOfLevels(n, k, m, p, d, s * s, Square(hi - a), Square(lo - a), squares);
    FifthDecides(p, d, s);
    assert p * d >= 0.0 by { NonNegative(p, d); }
  }

  lemma NonNegative(x: real, y: real)
    requires x >= 0.0 && y >= 0.0
    ensures x * y >= 0.0
  {}

  /** One in five is the exact limit: with costs on two levels the high days are flagged, all of them,
      exactly when they are fewer than a fifth, and otherwise nothing is. */
  lemma OneInFiveIsSharp(trend: seq<Day>, s: real, lo: real, hi: real)
    requires trend != [] && IsStdDev(s, trend) && TwoLevels(trend, lo, hi) && lo < hi && hi > 0.0
    ensures |Spikes(trend, Average(trend), Average(trend) + 2.0 * s)|
         == if 5 * HighDays(trend, hi) < |trend| then HighDays(trend, hi) else 0
  {
    var a, k := Average(trend), HighDays(trend, hi);
    SumOfTwoLevels(trend, lo, hi);
    SquaresOfTwoLevels(trend, lo, hi, a);
    LevelsAndThreshold(|trend|, k, |trend| - k, lo, hi, a, s, Sum(trend), SumSquares(trend, a));
    if hi > a + 2.0 * s {
      SpikesAreHighDays(trend, lo, hi, a, a + 2.0 * s);
    } else {
      NoSpikesIn(trend, a, a + 2.0 * s);
    }
  }
}
