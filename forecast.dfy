/** forecast_expenses: an ordinary-least-squares line through the monthly
    totals against the indices 0..k-1, exactly as the closed form computes it
    (slope = sum((x - mean x)(y - mean y)) / sum((x - mean x)^2), intercept =
    mean y - slope * mean x), extrapolated onto the calendar months after the
    last observed one. */
module Forecast {
  import opened Ledger
  import opened Aggregation

  // ---------------------------------------------------------------------
  // Vectors of reals

  function Sum(s: seq<real>): real {
    if s == [] then 0.0 else Sum(s[..|s| - 1]) + s[|s| - 1]
  }

  function Dot(a: seq<real>, b: seq<real>): real
    requires |a| == |b|
  {
    if a == [] then 0.0 else Dot(a[..|a| - 1], b[..|b| - 1]) + a[|a| - 1] * b[|b| - 1]
  }

  /** The element-wise combination p*a + q*b. */
  function Comb(a: seq<real>, b: seq<real>, p: real, q: real): (c: seq<real>)
    requires |a| == |b|
    ensures |c| == |a|
    ensures forall i {:trigger c[i]} :: 0 <= i < |a| ==> c[i] == p * a[i] + q * b[i]
  {
    seq(|a|, i requires 0 <= i < |a| => p * a[i] + q * b[i])
  }

  function Ones(n: nat): (r: seq<real>)
    ensures |r| == n && forall i :: 0 <= i < n ==> r[i] == 1.0
  {
    seq(n, i => 1.0)
  }

  /** `np.arange(n)` as reals. */
  function Indices(n: nat): (r: seq<real>)
    ensures |r| == n && forall i :: 0 <= i < n ==> r[i] == i as real
  {
    seq(n, i => i as real)
  }

  function Mean(s: seq<real>): real
    requires |s| > 0
  {
    Sum(s) / |s| as real
  }

  /** `s - np.mean(s)`. */
  function Centered(s: seq<real>): (c: seq<real>)
    requires |s| > 0
    ensures |c| == |s|
  {
    Comb(s, Ones(|s|), 1.0, -Mean(s))
  }

  lemma CombPrefix(a: seq<real>, b: seq<real>, p: real, q: real, n: nat)
    requires |a| == |b| && n <= |a|
    ensures Comb(a, b, p, q)[..n] == Comb(a[..n], b[..n], p, q)
  {
    var c, d := Comb(a, b, p, q)[..n], Comb(a[..n], b[..n], p, q);
    assert |c| == |d| && forall i :: 0 <= i < n ==> c[i] == d[i];
  }

  lemma {:induction false} DotComb(c: seq<real>, a: seq<real>, b: seq<real>, p: real, q: real)
    requires |a| == |b| == |c|
    ensures Dot(c, Comb(a, b, p, q)) == p * Dot(c, a) + q * Dot(c, b)
  {
    if a != [] {
      var n := |a| - 1;
      CombPrefix(a, b, p, q, n);
      DotComb(c[..n], a[..n], b[..n], p, q);
      assert c[n] * (p * a[n] + q * b[n]) == p * (c[n] * a[n]) + q * (c[n] * b[n]);
    }
  }

  lemma SumComb(a: seq<real>, b: seq<real>, p: real, q: real)
    requires |a| == |b|
    ensures Sum(Comb(a, b, p, q)) == p * Sum(a) + q * Sum(b)
  {
    SumLinear(Comb(a, b, p, q), a, b, p, q);
  }

  /** Summing is linear: element-wise p*a + q*b sums to p*Sum(a) + q*Sum(b). */
  lemma {:induction false} SumLinear(c: seq<real>, a: seq<real>, b: seq<real>, p: real, q: real)
    requires |a| == |b| == |c|
    requires forall i :: 0 <= i < |c| ==> c[i] == p * a[i] + q * b[i]
    ensures Sum(c) == p * Sum(a) + q * Sum(b)
  {
    if c != [] {
      var n := |c| - 1;
      SumLinear(c[..n], a[..n], b[..n], p, q);
      assert Sum(a) == Sum(a[..n]) + a[n];
      assert Sum(b) == Sum(b[..n]) + b[n];
      assert p * (Sum(a[..n]) + a[n]) + q * (Sum(b[..n]) + b[n])
          == (p * Sum(a[..n]) + q * Sum(b[..n])) + (p * a[n] + q * b[n]);
    }
  }

  lemma {:induction false} DotSymmetric(a: seq<real>, b: seq<real>)
    requires |a| == |b|
    ensures Dot(a, b) == Dot(b, a)
  {
    if a != [] {
      DotSymmetric(a[..|a| - 1], b[..|b| - 1]);
    }
  }

  lemma {:induction false} DotOnes(a: seq<real>)
    ensures Dot(a, Ones(|a|)) == Sum(a)
  {
    if a != [] {
      DotOnes(a[..|a| - 1]);
      assert Ones(|a|)[..|a| - 1] == Ones(|a| - 1);
    }
  }

  lemma {:induction false} SumOnes(n: nat)
    ensures Sum(Ones(n)) == n as real
  {
    if n > 0 {
      SumOnes(n - 1);
      assert Ones(n)[..n - 1] == Ones(n - 1);
    }
  }

  lemma SumCentered(s: seq<real>)
    requires |s| > 0
    ensures Sum(Centered(s)) == 0.0
  {
    SumComb(s, Ones(|s|), 1.0, -Mean(s));
    SumOnes(|s|);
  }

  /** A sum of squares is at least the sum of the squares of its first `m` terms. */
  lemma {:induction false} SquaresPrefix(a: seq<real>, m: nat)
    requires m <= |a|
    ensures Dot(a[..m], a[..m]) <= Dot(a, a)
  {
    if m < |a| {
      var p := a[..|a| - 1];
      assert p[..m] == a[..m];
      SquaresPrefix(p, m);
      assert a[|a| - 1] * a[|a| - 1] >= 0.0;
    } else {
      assert a[..m] == a;
    }
  }

  lemma SquaresNonNegative(a: seq<real>)
    ensures Dot(a, a) >= 0.0
  {
    SquaresPrefix(a, 0);
  }

  /** Two numbers one apart cannot both be 0, so their squares add up to
      something positive. */
  lemma ConsecutiveSquaresPositive(x: real, y: real)
    requires y == x + 1.0
    ensures x * x + y * y > 0.0
  {
    if x >= 0.0 {
      assert y * y >= y;
      assert x * x >= 0.0;
    } else {
      assert x * x > 0.0;
      assert y * y >= 0.0;
    }
  }

  /** A sum of squares is at least the squares of its first two terms. */
  lemma FirstTwoSquares(a: seq<real>)
    requires |a| >= 2
    ensures a[0] * a[0] + a[1] * a[1] <= Dot(a, a)
  {
    SquaresPrefix(a, 2);
    var b := a[..2];
    assert b[..1][..0] == [];
    assert Dot(b[..1], b[..1]) == a[0] * a[0];
    assert Dot(b, b) == Dot(b[..1], b[..1]) + a[1] * a[1];
  }

  /** With two or more points the divisor of the slope is positive: the
      indices 0 and 1 cannot both equal their mean. */
  lemma SpreadPositive(k: nat)
    requires k >= 2
    ensures Dot(Centered(Indices(k)), Centered(Indices(k))) > 0.0
  {
    CenteredKeepsGap(Indices(k));
    GapSquaresPositive(Centered(Indices(k)));
  }

  /** A vector whose first two entries are one apart has a positive sum of squares. */
  lemma GapSquaresPositive(a: seq<real>)
    requires |a| >= 2 && a[1] == a[0] + 1.0
    ensures Dot(a, a) > 0.0
  {
    FirstTwoSquares(a);
    ConsecutiveSquaresPositive(a[0], a[1]);
  }

  /** Centering shifts every element by the same amount. */
  lemma CenteredKeepsGap(s: seq<real>)
    requires |s| >= 2 && s[1] == s[0] + 1.0
    ensures Centered(s)[1] == Centered(s)[0] + 1.0
  {
    var m := Mean(s);
    assert Ones(|s|)[0] == 1.0 && Ones(|s|)[1] == 1.0;
    assert Centered(s)[0] == s[0] - m;
    assert Centered(s)[1] == s[1] - m;
  }

  // ---------------------------------------------------------------------
  // The fit

  datatype Fit = Fit(slope: real, intercept: real)

  /** The fitted line's value at index `x`. */
  function Predict(f: Fit, x: int): real {
    f.slope * x as real + f.intercept
  }

  /** The line at the indices 0..n-1. */
  function Line(f: Fit, n: nat): (r: seq<real>)
    ensures |r| == n && forall i :: 0 <= i < n ==> r[i] == Predict(f, i)
  {
    Comb(Indices(n), Ones(n), f.slope, f.intercept)
  }

  function Residuals(ys: seq<real>, f: Fit): (r: seq<real>)
    ensures |r| == |ys| && forall i :: 0 <= i < |ys| ==> r[i] == ys[i] - Predict(f, i)
  {
    Comb(ys, Line(f, |ys|), 1.0, -1.0)
  }

  /** The sum of squared errors of a line through the points (i, ys[i]). */
  function SquaredError(ys: seq<real>, f: Fit): real {
    Dot(Residuals(ys, f), Residuals(ys, f))
  }

  /** The normal equations of least squares: the residuals add up to 0 and
      are uncorrelated with the indices. */
  predicate NormalEquations(ys: seq<real>, f: Fit) {
    Sum(Residuals(ys, f)) == 0.0 && Dot(Indices(|ys|), Residuals(ys, f)) == 0.0
  }

  /** With the closed-form intercept, each residual is the centred value
      minus slope times the centred index. */
  lemma ResidualsOfClosedForm(ys: seq<real>, slope: real, intercept: real)
    requires |ys| >= 2
    requires intercept == Mean(ys) - slope * Mean(Indices(|ys|))
    ensures Residuals(ys, Fit(slope, intercept))
            == Comb(Centered(ys), Centered(Indices(|ys|)), 1.0, -slope)
  {
    ShiftedResiduals(ys, slope, intercept, Mean(ys), Mean(Indices(|ys|)));
  }

  /** The residuals of the line through (mx, my) with the given slope are
      the values shifted by my minus slope times the indices shifted by mx. */
  lemma ShiftedResiduals(ys: seq<real>, slope: real, intercept: real, my: real, mx: real)
    requires intercept == my - slope * mx
    ensures Residuals(ys, Fit(slope, intercept))
            == Comb(Comb(ys, Ones(|ys|), 1.0, -my), Comb(Indices(|ys|), Ones(|ys|), 1.0, -mx), 1.0, -slope)
  {
    var n := |ys|;
    var dy, dx := Comb(ys, Ones(n), 1.0, -my), Comb(Indices(n), Ones(n), 1.0, -mx);
    var r, c := Residuals(ys, Fit(slope, intercept)), Comb(dy, dx, 1.0, -slope);
    forall i | 0 <= i < n ensures r[i] == c[i] {
      ClosedFormPoint(ys[i], i as real, slope, intercept, my, mx);
    }
  }

  /** One point of ShiftedResiduals: with intercept = my - slope*mx,
      y - (slope*x + intercept) is (y - my) - slope*(x - mx). */
  lemma ClosedFormPoint(y: real, x: real, slope: real, intercept: real, my: real, mx: real)
    requires intercept == my - slope * mx
    ensures y - (slope * x + intercept) == 1.0 * (1.0 * y + (-my) * 1.0) + (-slope) * (1.0 * x + (-mx) * 1.0)
  {
    assert (-slope) * (1.0 * x + (-mx) * 1.0) == slope * mx - slope * x;
  }

  /** Residuals of the form dy - slope*dx add up to 0. */
  lemma CentredResidualsSumToZero(ys: seq<real>, slope: real)
    requires |ys| >= 2
    ensures Sum(Comb(Centered(ys), Centered(Indices(|ys|)), 1.0, -slope)) == 0.0
  {
    var dx, dy := Centered(Indices(|ys|)), Centered(ys);
    SumComb(dy, dx, 1.0, -slope);
    SumCentered(ys);
    SumCentered(Indices(|ys|));
    ScaleZero(-slope, Sum(dx));
  }

  /** With the closed-form slope, residuals dy - slope*dx are uncorrelated
      with the centred indices. */
  lemma CentredResidualsOrthogonal(ys: seq<real>, slope: real)
    requires |ys| >= 2
    requires slope * Dot(Centered(Indices(|ys|)), Centered(Indices(|ys|)))
             == Dot(Centered(Indices(|ys|)), Centered(ys))
    ensures Dot(Centered(Indices(|ys|)), Comb(Centered(ys), Centered(Indices(|ys|)), 1.0, -slope)) == 0.0
  {
    OrthogonalAtSlope(Centered(Indices(|ys|)), Centered(ys), slope);
  }

  /** If slope * dx.dx == dx.dy, then dx is orthogonal to dy - slope*dx. */
  lemma OrthogonalAtSlope(dx: seq<real>, dy: seq<real>, slope: real)
    requires |dx| == |dy|
    requires slope * Dot(dx, dx) == Dot(dx, dy)
    ensures Dot(dx, Comb(dy, dx, 1.0, -slope)) == 0.0
  {
    DotComb(dx, dy, dx, 1.0, -slope);
    ScaleNegated(slope, Dot(dx, dx));
  }

  /** Residuals that add up to 0 and are uncorrelated with the centred
      indices are uncorrelated with the indices themselves. */
  lemma OrthogonalToIndices(r: seq<real>)
    requires |r| >= 2
    requires Sum(r) == 0.0 && Dot(Centered(Indices(|r|)), r) == 0.0
    ensures Dot(Indices(|r|), r) == 0.0
  {
    var n := |r|;
    var xs := Indices(n);
    var dx := Centered(xs);
    assert xs == Comb(dx, Ones(n), 1.0, Mean(xs));
    DotComb(r, dx, Ones(n), 1.0, Mean(xs));
    DotOnes(r);
    ScaleZero(Mean(xs), Dot(r, Ones(n)));
    DotSymmetric(r, dx);
    DotSymmetric(xs, r);
  }

  lemma NormalEquationsOfClosedForm(ys: seq<real>, slope: real, intercept: real)
    requires |ys| >= 2
    requires slope * Dot(Centered(Indices(|ys|)), Centered(Indices(|ys|)))
             == Dot(Centered(Indices(|ys|)), Centered(ys))
    requires intercept == Mean(ys) - slope * Mean(Indices(|ys|))
    ensures NormalEquations(ys, Fit(slope, intercept))
  {
    ResidualsOfClosedForm(ys, slope, intercept);
    CentredResidualsSumToZero(ys, slope);
    CentredResidualsOrthogonal(ys, slope);
    OrthogonalToIndices(Residuals(ys, Fit(slope, intercept)));
  }

  lemma ScaleZero(p: real, x: real)
    requires x == 0.0
    ensures p * x == 0.0
  {
  }

  lemma ScaleNegated(p: real, x: real)
    ensures (-p) * x == -(p * x)
  {
  }

  /** `forecast_expenses`' closed form; its result satisfies the normal
      equations, so it is the least-squares line. */
  function FitLine(ys: seq<real>): (f: Fit)
    requires |ys| >= 2
    ensures NormalEquations(ys, f)
  {
    var dx := Centered(Indices(|ys|));
    SpreadPositive(|ys|);
    var slope := Dot(dx, Centered(ys)) / Dot(dx, dx);
    var f := Fit(slope, Mean(ys) - slope * Mean(Indices(|ys|)));
    NormalEquationsOfClosedForm(ys, f.slope, f.intercept);
    f
  }

  /** The difference of two lines, g minus f, at the indices 0..n-1. */
  function LineGap(f: Fit, g: Fit, n: nat): seq<real> {
    Line(Fit(g.slope - f.slope, g.intercept - f.intercept), n)
  }

  lemma ResidualsOfOtherLine(ys: seq<real>, f: Fit, g: Fit)
    ensures Residuals(ys, g) == Comb(Residuals(ys, f), LineGap(f, g, |ys|), 1.0, -1.0)
  {
    var n := |ys|;
    var rf, rg, d := Residuals(ys, f), Residuals(ys, g), LineGap(f, g, n);
    var c := Comb(rf, d, 1.0, -1.0);
    forall i | 0 <= i < n ensures rg[i] == c[i] {
      var x := i as real;
      assert (g.slope - f.slope) * x == g.slope * x - f.slope * x;
    }
  }

  /** |r - d|^2 = |r|^2 - 2 r.d + |d|^2. */
  lemma SquareOfDifference(r: seq<real>, d: seq<real>)
    requires |r| == |d|
    ensures Dot(Comb(r, d, 1.0, -1.0), Comb(r, d, 1.0, -1.0))
            == Dot(r, r) - 2.0 * Dot(r, d) + Dot(d, d)
  {
    var e := Comb(r, d, 1.0, -1.0);
    DotComb(e, r, d, 1.0, -1.0);
    DotSymmetric(e, r);
    DotSymmetric(e, d);
    DotComb(r, r, d, 1.0, -1.0);
    DotComb(d, r, d, 1.0, -1.0);
    DotSymmetric(d, r);
  }

  /** Residuals satisfying the normal equations are uncorrelated with every line. */
  lemma NormalResidualsOrthogonalToLines(ys: seq<real>, f: Fit, h: Fit)
    requires NormalEquations(ys, f)
    ensures Dot(Residuals(ys, f), Line(h, |ys|)) == 0.0
  {
    OrthogonalToEveryLine(Residuals(ys, f), h);
  }

  /** A vector that adds up to 0 and is uncorrelated with the indices is
      uncorrelated with every line. */
  lemma OrthogonalToEveryLine(r: seq<real>, h: Fit)
    requires Sum(r) == 0.0 && Dot(Indices(|r|), r) == 0.0
    ensures Dot(r, Line(h, |r|)) == 0.0
  {
    var n := |r|;
    DotComb(r, Indices(n), Ones(n), h.slope, h.intercept);
    DotSymmetric(r, Indices(n));
    DotOnes(r);
    ScaleZero(h.slope, Dot(r, Indices(n)));
    ScaleZero(h.intercept, Dot(r, Ones(n)));
  }

  /** Any line's squared error is the fitted line's plus the squared
      difference of the two lines. */
  lemma SquaredErrorDecomposition(ys: seq<real>, g: Fit)
    requires |ys| >= 2
    ensures SquaredError(ys, g)
            == SquaredError(ys, FitLine(ys)) + Dot(LineGap(FitLine(ys), g, |ys|), LineGap(FitLine(ys), g, |ys|))
  {
    var f := FitLine(ys);
    ResidualsOfOtherLine(ys, f, g);
    SquareOfDifference(Residuals(ys, f), LineGap(f, g, |ys|));
    NormalResidualsOrthogonalToLines(ys, f, Fit(g.slope - f.slope, g.intercept - f.intercept));
  }

  /** The fitted line has the least squared error of all lines. */
  lemma FitLineIsLeastSquares(ys: seq<real>, g: Fit)
    requires |ys| >= 2
    ensures SquaredError(ys, FitLine(ys)) <= SquaredError(ys, g)
  {
    SquaredErrorDecomposition(ys, g);
    SquaresNonNegative(LineGap(FitLine(ys), g, |ys|));
  }

  /** Points that lie on a line are fitted without error. */
  lemma PointsOnALineFitExactly(ys: seq<real>, g: Fit)
    requires |ys| >= 2
    requires forall i :: 0 <= i < |ys| ==> ys[i] == Predict(g, i)
    ensures SquaredError(ys, FitLine(ys)) == 0.0
  {
    FitLineIsLeastSquares(ys, g);
    ZeroSquares(Residuals(ys, g));
    SquaresNonNegative(Residuals(ys, FitLine(ys)));
  }

  lemma {:induction false} ZeroSquares(a: seq<real>)
    requires forall i :: 0 <= i < |a| ==> a[i] == 0.0
    ensures Dot(a, a) == 0.0
  {
    if a != [] {
      ZeroSquares(a[..|a| - 1]);
    }
  }

  // ---------------------------------------------------------------------
  // forecast_expenses

  function Values(trend: seq<(Month, real)>): (v: seq<real>)
    ensures |v| == |trend| && forall i :: 0 <= i < |trend| ==> v[i] == trend[i].1
  {
    seq(|trend|, i requires 0 <= i < |trend| => trend[i].1)
  }

  /** The predictions for the `monthsAhead` months after the last month of
      the series: None for fewer than two months; otherwise the i-th month
      after the last one (i = 1, 2, ...) gets the fitted line's value at
      index k-1+i, and the labels run on, one calendar month apart. */
  function ForecastSeries(trend: seq<(Month, real)>, monthsAhead: nat): (r: Option<seq<(Month, real)>>)
    ensures r.None? <==> |trend| < 2
    ensures r.Some? ==> |r.value| == monthsAhead
    ensures r.Some? ==> forall i :: 0 <= i < monthsAhead ==>
              r.value[i].0 == AddMonths(trend[|trend| - 1].0, i + 1)
              && r.value[i].1 == Predict(FitLine(Values(trend)), |trend| - 1 + (i + 1))
    ensures r.Some? ==> Chronological(r.value)
    ensures r.Some? && monthsAhead > 0 ==> Before(trend[|trend| - 1].0, r.value[0].0)
  {
    if |trend| < 2 then None
    else Some(Extrapolate(FitLine(Values(trend)), trend[|trend| - 1].0, |trend|, monthsAhead))
  }

  /** The line `f` at the indices k, k+1, ... labelled with the months after
      `last`. */
  function Extrapolate(f: Fit, last: Month, k: nat, monthsAhead: nat): (p: seq<(Month, real)>)
    ensures |p| == monthsAhead
    ensures forall i :: 0 <= i < monthsAhead ==> p[i] == (AddMonths(last, i + 1), Predict(f, k + i))
    ensures Chronological(p)
    ensures monthsAhead > 0 ==> Before(last, p[0].0)
  {
    var p := seq(monthsAhead, i requires 0 <= i < monthsAhead => (AddMonths(last, i + 1), Predict(f, k + i)));
    MonthsAfterChronological(p, last);
    p
  }

  /** Entries labelled with the successive months after `last` are in
      chronological order, all after `last`. */
  lemma MonthsAfterChronological(p: seq<(Month, real)>, last: Month)
    requires forall i :: 0 <= i < |p| ==> p[i].0 == AddMonths(last, i + 1)
    ensures Chronological(p)
    ensures p != [] ==> Before(last, p[0].0)
  {
    forall i, j | 0 <= i < j < |p| ensures Before(p[i].0, p[j].0) {
      BeforeIsIndexOrder(p[i].0, p[j].0);
    }
    if p != [] {
      BeforeIsIndexOrder(last, p[0].0);
    }
  }

  /** forecast_expenses over the ledger: the month series fitted and
      extrapolated; None when the ledger has rows in fewer than two months. */
  function ForecastExpenses(rows: seq<Row>, monthsAhead: nat): (r: Option<seq<(Month, real)>>)
    ensures r.None? <==> |KeySet(rows, MonthOfRow)| < 2
  {
    var trend := MonthlyTotals(rows);
    DistinctKeysCount(trend);
    ForecastSeries(trend, monthsAhead)
  }

  lemma DotOfTwo(a: seq<real>, b: seq<real>)
    requires |a| == |b| == 2
    ensures Dot(a, b) == a[0] * b[0] + a[1] * b[1]
  {
    var a1, b1 := a[..1], b[..1];
    assert a1[..0] == [] && b1[..0] == [];
    assert Dot(a1, b1) == a[0] * b[0];
    assert Dot(a, b) == Dot(a1, b1) + a[1] * b[1];
  }

  lemma SumOfTwo(a: seq<real>)
    requires |a| == 2
    ensures Sum(a) == a[0] + a[1]
  {
    var a1 := a[..1];
    assert a1[..0] == [];
    assert Sum(a1) == a[0];
  }

  /** Through two points the fit is the line joining them. */
  lemma FitOfTwoPoints(ys: seq<real>)
    requires |ys| == 2
    ensures FitLine(ys) == Fit(ys[1] - ys[0], ys[0])
  {
    var xs := Indices(2);
    SumOfTwo(xs);
    SumOfTwo(ys);
    assert Mean(xs) == 0.5;
    var dx, dy := Centered(xs), Centered(ys);
    assert dx[0] == -0.5 && dx[1] == 0.5;
    DotOfTwo(dx, dx);
    DotOfTwo(dx, dy);
    assert Dot(dx, dx) == 0.5;
    assert Dot(dx, dy) == (ys[1] - ys[0]) / 2.0;
  }

  /** With exactly two months v1, v2 the first prediction continues the line
      through them: 2*v2 - v1. */
  lemma TwoMonthForecast(trend: seq<(Month, real)>, monthsAhead: nat)
    requires |trend| == 2 && monthsAhead >= 1
    ensures ForecastSeries(trend, monthsAhead).Some?
    ensures ForecastSeries(trend, monthsAhead).value[0].1 == 2.0 * trend[1].1 - trend[0].1
  {
    FitOfTwoPoints(Values(trend));
  }
}
