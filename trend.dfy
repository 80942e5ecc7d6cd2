/** `calculateTrendline` (src/components/Dashboard.tsx): the least-squares line through the points
    `(i, ys[i])`, evaluated at `x = 0 .. n - 1`, over exact reals. */
module Trend {
  import opened Common

  /** `sumX`: `0 + 1 + ... + (n - 1)`. */
  function XSum(n: nat): real {
    if n == 0 then 0.0 else XSum(n - 1) + (n - 1) as real
  }

  /** `sumXX`: `0^2 + 1^2 + ... + (n - 1)^2`. */
  function XSqSum(n: nat): real {
    if n == 0 then 0.0 else XSqSum(n - 1) + (n - 1) as real * (n - 1) as real
  }

  /** `sumY`: `ys.reduce((a, b) => a + b, 0)`. */
  function SumY(ys: seq<real>): real
    decreases |ys|
  {
    if |ys| == 0 then 0.0 else SumY(ys[..|ys| - 1]) + ys[|ys| - 1]
  }

  /** `sumXY`: `xValues.reduce((sum, x, i) => sum + x * yValues[i], 0)` with `x == i`. */
  function SumXY(ys: seq<real>): real
    decreases |ys|
  {
    if |ys| == 0 then 0.0 else SumXY(ys[..|ys| - 1]) + (|ys| - 1) as real * ys[|ys| - 1]
  }

  /** `xValues.map(x => slope * x + intercept)`. */
  function Line(slope: real, intercept: real, n: nat): (r: seq<real>)
    ensures |r| == n
  {
    seq(n, i => slope * i as real + intercept)
  }

  /** The slope `(n * sumXY - sumX * sumY) / (n * sumXX - sumX * sumX)` of the given sums. */
  function SlopeOf(n: real, sx: real, sxx: real, sy: real, sxy: real): real
    requires n * sxx - sx * sx != 0.0
  {
    (n * sxy - sx * sy) / (n * sxx - sx * sx)
  }

  /** The intercept `(sumY - slope * sumX) / n` of the given sums. */
  function InterceptOf(n: real, sx: real, sy: real, slope: real): real
    requires n > 0.0
  {
    (sy - slope * sx) / n
  }

  /** The fitted line through `n >= 2` points whose `sumY` is `sy` and whose `sumXY` is `sxy`. */
  function Fitted(n: nat, sy: real, sxy: real): (r: seq<real>)
    requires n >= 2
    ensures |r| == n
  {
    DenominatorPositive(n);
    var slope := SlopeOf(n as real, XSum(n), XSqSum(n), sy, sxy);
    Line(slope, InterceptOf(n as real, XSum(n), sy, slope), n)
  }

  /** `calculateTrendline(data)`: `null` for fewer than two points, else the fitted line. */
  function Trendline(ys: seq<real>): (r: Option<seq<real>>)
    ensures r == None <==> |ys| < 2
    ensures r.Some? ==> |r.value| == |ys|
  {
    if |ys| < 2 then None else Some(Fitted(|ys|, SumY(ys), SumXY(ys)))
  }

  lemma {:induction false} XSumClosed(n: nat)
    ensures 2.0 * XSum(n) == n as real * (n as real - 1.0)
  {
    if n > 0 {
      XSumClosed(n - 1);
    }
  }

  lemma SqStep(m: real, n: real, s0: real, s: real)
    requires n == m + 1.0 && 6.0 * s0 == (m - 1.0) * m * (2.0 * m - 1.0) && s == s0 + m * m
    ensures 6.0 * s == (n - 1.0) * n * (2.0 * n - 1.0)
  {
  }

  lemma {:induction false} XSqSumClosed(n: nat)
    ensures 6.0 * XSqSum(n) == (n as real - 1.0) * n as real * (2.0 * n as real - 1.0)
  {
    if n > 0 {
      XSqSumClosed(n - 1);
      SqStep((n - 1) as real, n as real, XSqSum(n - 1), XSqSum(n));
    }
  }

  lemma DenominatorAlgebra(n: real, sx: real, sxx: real)
    requires n >= 2.0 && 2.0 * sx == n * (n - 1.0) && 6.0 * sxx == (n - 1.0) * n * (2.0 * n - 1.0)
    ensures 12.0 * (n * sxx - sx * sx) == n * n * (n - 1.0) * (n + 1.0)
  {
    assert 12.0 * (n * sxx - sx * sx) == 2.0 * n * (6.0 * sxx) - 3.0 * (2.0 * sx) * (2.0 * sx);
  }

  /** The denominator `n * sumXX - sumX * sumX` is `n^2 (n^2 - 1) / 12`. */
  lemma DenominatorClosed(n: nat)
    ensures 12.0 * (n as real * XSqSum(n) - XSum(n) * XSum(n)) == n as real * n as real * (n as real - 1.0) * (n as real + 1.0)
  {
    XSumClosed(n);
    XSqSumClosed(n);
    if n >= 2 {
      DenominatorAlgebra(n as real, XSum(n), XSqSum(n));
    }
  }

  lemma PositiveProduct(n: real, d: real)
    requires n >= 2.0 && 12.0 * d == n * n * (n - 1.0) * (n + 1.0)
    ensures d > 0.0
  {
    assert n * n * (n - 1.0) * (n + 1.0) > 0.0;
  }

  /** From two points on the denominator is positive, so the slope is defined. */
  lemma DenominatorPositive(n: nat)
    requires n >= 2
    ensures n as real * XSqSum(n) - XSum(n) * XSum(n) > 0.0
  {
    DenominatorClosed(n);
    PositiveProduct(n as real, n as real * XSqSum(n) - XSum(n) * XSum(n));
  }

  lemma LineInit(a: real, b: real, n: nat)
    requires n > 0
    ensures Line(a, b, n)[..n - 1] == Line(a, b, n - 1)
    ensures Line(a, b, n)[n - 1] == a * (n - 1) as real + b
  {
  }

  lemma SumYStep(sy: real, sy0: real, y: real, s: real, s0: real, a: real, b: real, x: real, n: real)
    requires sy0 == a * s0 + x * b && y == a * x + b && sy == sy0 + y && s == s0 + x && n == x + 1.0
    ensures sy == a * s + n * b
  {
  }

  /** The `sumY` of a line's points. */
  lemma {:induction false} LineSumY(a: real, b: real, n: nat)
    ensures SumY(Line(a, b, n)) == a * XSum(n) + n as real * b
  {
    if n > 0 {
      LineInit(a, b, n);
      LineSumY(a, b, n - 1);
      var ys := Line(a, b, n);
      SumYStep(SumY(ys), SumY(Line(a, b, n - 1)), ys[n - 1], XSum(n), XSum(n - 1), a, b, (n - 1) as real, n as real);
    }
  }

  lemma SumXYSnoc(ys: seq<real>)
    requires |ys| > 0
    ensures SumXY(ys) == SumXY(ys[..|ys| - 1]) + (|ys| - 1) as real * ys[|ys| - 1]
  {
  }

  lemma SumXYStep(sxy: real, sxy0: real, s: real, s0: real, q: real, q0: real, a: real, b: real, x: real, y: real)
    requires sxy0 == a * q0 + b * s0 && y == a * x + b && sxy == sxy0 + x * y && q == q0 + x * x && s == s0 + x
    ensures sxy == a * q + b * s
  {
  }

  /** The `sumXY` of a line's points. */
  lemma {:induction false} LineSumXY(a: real, b: real, n: nat)
    ensures SumXY(Line(a, b, n)) == a * XSqSum(n) + b * XSum(n)
  {
    if n > 0 {
      var ys := Line(a, b, n);
      LineSumXY(a, b, n - 1);
      LineInit(a, b, n);
      SumXYSnoc(ys);
      SumXYStep(SumXY(ys), SumXY(Line(a, b, n - 1)), XSum(n), XSum(n - 1), XSqSum(n), XSqSum(n - 1),
                a, b, (n - 1) as real, ys[n - 1]);
    }
  }

  /** The slope and intercept formulas solve both normal equations of least squares. */
  lemma NormalEquations(n: real, sx: real, sxx: real, sy: real, sxy: real)
    requires n > 0.0 && n * sxx - sx * sx != 0.0
    ensures SlopeOf(n, sx, sxx, sy, sxy) * sx + n * InterceptOf(n, sx, sy, SlopeOf(n, sx, sxx, sy, sxy)) == sy
    ensures SlopeOf(n, sx, sxx, sy, sxy) * sxx + InterceptOf(n, sx, sy, SlopeOf(n, sx, sxx, sy, sxy)) * sx == sxy
  {
    var d := n * sxx - sx * sx;
    var slope := SlopeOf(n, sx, sxx, sy, sxy);
    var intercept := InterceptOf(n, sx, sy, slope);
    assert slope * d == n * sxy - sx * sy;
    assert n * intercept == sy - slope * sx;
    assert n * (slope * sxx + intercept * sx) == slope * d + sx * sy;
  }

  /** The fitted line's `sumY` is the one it was fitted to. */
  lemma FittedSumY(n: nat, sy: real, sxy: real)
    requires n >= 2
    ensures SumY(Fitted(n, sy, sxy)) == sy
  {
    DenominatorPositive(n);
    var slope := SlopeOf(n as real, XSum(n), XSqSum(n), sy, sxy);
    NormalEquations(n as real, XSum(n), XSqSum(n), sy, sxy);
    LineSumY(slope, InterceptOf(n as real, XSum(n), sy, slope), n);
  }

  /** The fitted line's `sumXY` is the one it was fitted to. */
  lemma FittedSumXY(n: nat, sy: real, sxy: real)
    requires n >= 2
    ensures SumXY(Fitted(n, sy, sxy)) == sxy
  {
    DenominatorPositive(n);
    var slope := SlopeOf(n as real, XSum(n), XSqSum(n), sy, sxy);
    NormalEquations(n as real, XSum(n), XSqSum(n), sy, sxy);
    LineSumXY(slope, InterceptOf(n as real, XSum(n), sy, slope), n);
  }

  /** Two solutions of the same normal equations coincide. */
  lemma SolutionsCoincide(n: real, sx: real, sxx: real, a: real, b: real, s: real, c: real)
    requires n * sxx - sx * sx != 0.0
    requires a * sx + n * b == s * sx + n * c && a * sxx + b * sx == s * sxx + c * sx
    ensures a == s && b == c
  {
    assert (a - s) * (n * sxx - sx * sx) == 0.0;
  }

  /** Two lines whose closed-form sums agree over two or more points coincide. */
  lemma ClosedSumsDetermineLine(n: nat, a: real, b: real, s: real, c: real)
    requires n >= 2
    requires a * XSum(n) + n as real * b == s * XSum(n) + n as real * c
    requires a * XSqSum(n) + b * XSum(n) == s * XSqSum(n) + c * XSum(n)
    ensures a == s && b == c
  {
    DenominatorPositive(n);
    SolutionsCoincide(n as real, XSum(n), XSqSum(n), a, b, s, c);
  }

  /** From two points on, a line is determined by the `sumY` and `sumXY` of its points. */
  lemma SumsDetermineLine(n: nat, a: real, b: real, s: real, c: real)
    requires n >= 2
    requires SumY(Line(a, b, n)) == SumY(Line(s, c, n)) && SumXY(Line(a, b, n)) == SumXY(Line(s, c, n))
    ensures a == s && b == c
  {
    LineSumY(a, b, n);
    LineSumY(s, c, n);
    LineSumXY(a, b, n);
    LineSumXY(s, c, n);
    ClosedSumsDetermineLine(n, a, b, s, c);
  }

  /** The fitted line is a line. */
  lemma FittedIsLine(n: nat, sy: real, sxy: real) returns (s: real, c: real)
    requires n >= 2
    ensures Fitted(n, sy, sxy) == Line(s, c, n)
  {
    DenominatorPositive(n);
    s := SlopeOf(n as real, XSum(n), XSqSum(n), sy, sxy);
    c := InterceptOf(n as real, XSum(n), sy, s);
  }

  /** A line whose points have the sums `sy` and `sxy` is the fitted line. */
  lemma FittedUnique(n: nat, sy: real, sxy: real, a: real, b: real)
    requires n >= 2
    requires SumY(Line(a, b, n)) == sy && SumXY(Line(a, b, n)) == sxy
    ensures Fitted(n, sy, sxy) == Line(a, b, n)
  {
    FittedSumY(n, sy, sxy);
    FittedSumXY(n, sy, sxy);
    var s, c := FittedIsLine(n, sy, sxy);
    SumsDetermineLine(n, a, b, s, c);
  }

  /** The fitted line's points have the same `sumY` and `sumXY` as the data: the trendline
      passes through the mean point and leaves residuals uncorrelated with the index. */
  lemma TrendlineKeepsSums(ys: seq<real>)
    requires |ys| >= 2
    ensures SumY(Trendline(ys).value) == SumY(ys)
    ensures SumXY(Trendline(ys).value) == SumXY(ys)
  {
    FittedSumY(|ys|, SumY(ys), SumXY(ys));
    FittedSumXY(|ys|, SumY(ys), SumXY(ys));
  }

  /** The trendline is the least-squares line: a line is the trendline of `ys` exactly when its
      points have the same `sumY` and `sumXY` as `ys` (the two normal equations). */
  lemma TrendlineIsLeastSquares(ys: seq<real>, a: real, b: real)
    requires |ys| >= 2
    ensures Trendline(ys) == Some(Line(a, b, |ys|))
        <==> SumY(Line(a, b, |ys|)) == SumY(ys) && SumXY(Line(a, b, |ys|)) == SumXY(ys)
  {
    if Trendline(ys) == Some(Line(a, b, |ys|)) {
      TrendlineKeepsSums(ys);
    }
    if SumY(Line(a, b, |ys|)) == SumY(ys) && SumXY(Line(a, b, |ys|)) == SumXY(ys) {
      FittedUnique(|ys|, SumY(ys), SumXY(ys), a, b);
    }
  }

  /** Data that already lie on a line are their own trendline. */
  lemma TrendlineFitsLine(ys: seq<real>, a: real, b: real)
    requires |ys| >= 2
    requires forall i :: 0 <= i < |ys| ==> ys[i] == a * i as real + b
    ensures Trendline(ys) == Some(ys)
  {
    var line := Line(a, b, |ys|);
    assert forall i :: 0 <= i < |ys| ==> line[i] == ys[i];
    assert line == ys;
    FittedUnique(|ys|, SumY(ys), SumXY(ys), a, b);
  }
}
