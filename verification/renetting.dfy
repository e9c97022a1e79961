/** Re-netting a banked series: sums, means, variances and the information ratio as functions of the
    cost, in exact arithmetic. */
module Renetting {
  import opened Options
  import opened RealAlgebra

  const MINUTES_PER_YEAR := 525600.0
  const EPS_IR := 0.000000000001

  /** A square root in exact arithmetic. */
  ghost predicate IsSqrt(sqrt: real -> real) {
    forall v :: v >= 0.0 ==> sqrt(v) >= 0.0 && Times(sqrt(v), sqrt(v)) == v
  }

  // ------------------------------------------------------------------ series

  function Sum(s: seq<real>): real {
    if s == [] then 0.0 else s[0] + Sum(s[1..])
  }

  /** The number of active periods. */
  function Actives(s: seq<real>): (n: nat) {
    if s == [] then 0 else (if s[0] != 0.0 then 1 else 0) + Actives(s[1..])
  }

  /** `np.where(s != 0, s + d, 0)`: flat periods stay exactly zero. */
  function Shift(s: seq<real>, d: real): (r: seq<real>) {
    seq(|s|, i requires 0 <= i < |s| => if s[i] != 0.0 then s[i] + d else 0.0)
  }

  function Renet(s: seq<real>, fromCost: real, toCost: real): seq<real> {
    Shift(s, -(toCost - fromCost))
  }

  /** The entries of `g` where `s` is active, zero elsewhere: summing them is `g[s != 0].sum()`. */
  function OnActive(g: seq<real>, s: seq<real>): seq<real>
    requires |g| == |s|
  {
    seq(|s|, i requires 0 <= i < |s| => if s[i] != 0.0 then g[i] else 0.0)
  }

  function SquaredDeviations(s: seq<real>, m: real): seq<real> {
    seq(|s|, i requires 0 <= i < |s| => Times(s[i] - m, s[i] - m))
  }

  function Mean(s: seq<real>): real
    requires s != []
  {
    Over(Sum(s), |s| as real)
  }

  function Variance(s: seq<real>): real
    requires s != []
  {
    Over(Sum(SquaredDeviations(s, Mean(s))), |s| as real)
  }

  /** The fraction of the grid that is active. */
  function Activity(s: seq<real>): real
    requires s != []
  {
    Over(Actives(s) as real, |s| as real)
  }

  function PeriodsPerYear(h: nat): (p: real)
    requires h > 0
    ensures p > 0.0
  {
    OverSign(MINUTES_PER_YEAR, h as real);
    Over(MINUTES_PER_YEAR, h as real)
  }

  /** `metrics.information_ratio`: not-a-number below two periods. */
  function InformationRatio(sqrt: real -> real, r: seq<real>, h: nat): Option<real>
    requires h > 0 && IsSqrt(sqrt)
  {
    if |r| < 2 then None
    else
      VarianceIsNonNegative(r);
      Some(Times(Over(Mean(r), sqrt(Variance(r)) + EPS_IR), sqrt(PeriodsPerYear(h))))
  }

  function IrAtCost(sqrt: real -> real, s: seq<real>, c: real, h: nat, headlineCost: real): Option<real>
    requires h > 0 && IsSqrt(sqrt)
  {
    InformationRatio(sqrt, Renet(s, headlineCost, c), h)
  }

  /** The mean gross return of an active period; not-a-number without one. */
  function MeanGross(s: seq<real>, headlineCost: real): Option<real> {
    if Actives(s) == 0 then None
    else Some(Over(Sum(OnActive(Shift(s, headlineCost), s)), Actives(s) as real))
  }

  // ------------------------------------------------------------------ sums

  function Squares(s: seq<real>): seq<real> {
    seq(|s|, i requires 0 <= i < |s| => Times(s[i], s[i]))
  }

  function Indicator(s: seq<real>): seq<real> {
    seq(|s|, i requires 0 <= i < |s| => if s[i] != 0.0 then 1.0 else 0.0)
  }

  function Ones(n: nat): seq<real> {
    seq(n, i => 1.0)
  }

  /** Summing is linear. */
  lemma {:induction false} SumIsLinear(r: seq<real>, q: seq<real>, s: seq<real>, u: seq<real>, a: real, b: real)
    requires |r| == |q| == |s| == |u|
    requires forall i :: 0 <= i < |r| ==> r[i] == q[i] + Times(a, s[i]) + Times(b, u[i])
    ensures Sum(r) == Sum(q) + Times(a, Sum(s)) + Times(b, Sum(u))
  {
    hide Times;
    Units(a);
    Units(b);
    if r != [] {
      SumIsLinear(r[1..], q[1..], s[1..], u[1..], a, b);
      Distribute(a, s[0], Sum(s[1..]));
      Distribute(b, u[0], Sum(u[1..]));
    }
  }

  lemma {:induction false} SumIsNonNegative(s: seq<real>)
    requires forall i :: 0 <= i < |s| ==> s[i] >= 0.0
    ensures Sum(s) >= 0.0
  {
    if s != [] {
      SumIsNonNegative(s[1..]);
    }
  }

  lemma {:induction false} IndicatorCounts(s: seq<real>)
    ensures Sum(Indicator(s)) == Actives(s) as real && Actives(s) <= |s|
    ensures Actives(s) == 0 ==> forall i :: 0 <= i < |s| ==> s[i] == 0.0
  {
    if s != [] {
      IndicatorCounts(s[1..]);
      assert Indicator(s)[1..] == Indicator(s[1..]);
      assert forall i :: 0 < i < |s| ==> s[i] == s[1..][i - 1];
    }
  }

  lemma {:induction false} OnesCount(n: nat)
    ensures Sum(Ones(n)) == n as real
  {
    if n > 0 {
      OnesCount(n - 1);
      assert Ones(n)[1..] == Ones(n - 1);
    }
  }

  lemma {:induction false} SumOfZeros(s: seq<real>)
    requires forall i :: 0 <= i < |s| ==> s[i] == 0.0
    ensures Sum(s) == 0.0
  {
    if s != [] {
      SumOfZeros(s[1..]);
    }
  }

  /** Moving the active entries by `d` moves the sum by `d` for each of them. */
  lemma ShiftedSum(s: seq<real>, d: real)
    ensures Sum(Shift(s, d)) == Sum(s) + Times(d, Actives(s) as real)
  {
    hide Times;
    IndicatorCounts(s);
    Units(d);
    Units(0.0);
    forall i | 0 <= i < |s|
      ensures Shift(s, d)[i] == s[i] + Times(d, Indicator(s)[i]) + Times(0.0, Ones(|s|)[i])
    {
    }
    SumIsLinear(Shift(s, d), s, Indicator(s), Ones(|s|), d, 0.0);
    Units(Sum(Ones(|s|)));
  }

  lemma ShiftedSquares(s: seq<real>, d: real)
    ensures Sum(Squares(Shift(s, d))) == Sum(Squares(s)) + Times(2.0 * d, Sum(s))
              + Times(Times(d, d), Actives(s) as real)
  {
    hide Times;
    IndicatorCounts(s);
    Units(Times(d, d));
    Units(2.0 * d);
    Units(0.0);
    forall i | 0 <= i < |s|
      ensures Squares(Shift(s, d))[i] ==
              Squares(s)[i] + Times(2.0 * d, s[i]) + Times(Times(d, d), Indicator(s)[i])
    {
      SquareOfShift(s[i], d);
    }
    SumIsLinear(Squares(Shift(s, d)), Squares(s), s, Indicator(s), 2.0 * d, Times(d, d));
  }

  // ------------------------------------------------------------------ means and variances

  lemma VarianceIsNonNegative(s: seq<real>)
    requires s != []
    ensures Variance(s) >= 0.0
  {
    hide Times, Over;
    var dev := SquaredDeviations(s, Mean(s));
    forall i | 0 <= i < |s|
      ensures dev[i] >= 0.0
    {
      SquareIsNonNegative(s[i] - Mean(s));
    }
    SumIsNonNegative(dev);
    OverSign(Sum(dev), |s| as real);
  }

  /** The variance is the mean square less the squared mean. */
  lemma VarianceIsMoments(s: seq<real>)
    requires s != []
    ensures Variance(s) == Over(Sum(Squares(s)), |s| as real) - Times(Mean(s), Mean(s))
  {
    hide Times, Over;
    var m, n := Mean(s), |s| as real;
    var dev := SquaredDeviations(s, m);
    Units(Times(-m, -m));
    forall i | 0 <= i < |s|
      ensures dev[i] == Squares(s)[i] + Times(2.0 * (-m), s[i]) + Times(Times(-m, -m), Ones(|s|)[i])
    {
      SquareOfShift(s[i], -m);
      assert s[i] - m == s[i] + (-m);
    }
    SumIsLinear(dev, Squares(s), s, Ones(|s|), 2.0 * (-m), Times(-m, -m));
    OnesCount(|s|);
    TimesOver(Sum(s), n);
    AboutTheMean(Sum(Squares(s)), Sum(s), n, m);
    MomentQuotient(Sum(dev), Sum(Squares(s)), m, n);
  }

  /** The mean gross return is the mean of the active entries, moved by the cost. */
  lemma MeanGrossIs(s: seq<real>, headlineCost: real)
    requires Actives(s) > 0
    ensures MeanGross(s, headlineCost).Some?
    ensures MeanGross(s, headlineCost).value == Over(Sum(s), Actives(s) as real) + headlineCost
  {
    hide Times, Over;
    assert OnActive(Shift(s, headlineCost), s) == Shift(s, headlineCost);
    ShiftedSum(s, headlineCost);
    MeanMovesAlong(Sum(s), headlineCost, Actives(s) as real);
  }

  lemma ActivityIsAFraction(s: seq<real>)
    requires Actives(s) > 0
    ensures s != [] && 0.0 < Activity(s) <= 1.0
  {
    hide Over;
    IndicatorCounts(s);
    FractionBelowOne(Actives(s) as real, |s| as real);
  }

  // ------------------------------------------------------------------ the break-even identity

  /** The re-netted mean is the activity times the distance of the cost from the mean gross
      return. */
  lemma RenettedMean(s: seq<real>, headlineCost: real, c: real)
    requires Actives(s) > 0
    ensures s != [] && Mean(Renet(s, headlineCost, c)) == Times(Activity(s), MeanGross(s, headlineCost).value - c)
  {
    hide Times, Over;
    MeanGrossIs(s, headlineCost);
    var d, k := -(c - headlineCost), Actives(s) as real;
    ShiftedSum(s, d);
    MeanOfActive(Sum(s), d, k, |s| as real);
    assert Over(Sum(s), k) + d == MeanGross(s, headlineCost).value - c;
  }

  /** The ratio has the sign of the distance, so it vanishes exactly at the mean gross return. */
  lemma SignOfIr(sqrt: real -> real, s: seq<real>, c: real, h: nat, headlineCost: real)
    requires h > 0 && IsSqrt(sqrt) && Actives(s) > 0 && |s| >= 2
    ensures IrAtCost(sqrt, s, c, h, headlineCost).Some?
    ensures IrAtCost(sqrt, s, c, h, headlineCost).value > 0.0 <==> c < MeanGross(s, headlineCost).value
    ensures IrAtCost(sqrt, s, c, h, headlineCost).value < 0.0 <==> c > MeanGross(s, headlineCost).value
  {
    hide Times, Over;
    var r, gap := Renet(s, headlineCost, c), MeanGross(s, headlineCost).value - c;
    RenettedMean(s, headlineCost, c);
    ActivityIsAFraction(s);
    VarianceIsNonNegative(r);
    RootIsPositive(sqrt(PeriodsPerYear(h)), PeriodsPerYear(h));
    RatioSign(Activity(s), gap, sqrt(Variance(r)) + EPS_IR, sqrt(PeriodsPerYear(h)));
  }

  /** Nobody active: the ratio is zero at every cost. */
  lemma FlatSeriesHasNoEdge(sqrt: real -> real, s: seq<real>, c: real, h: nat, headlineCost: real)
    requires h > 0 && IsSqrt(sqrt) && Actives(s) == 0 && |s| >= 2
    ensures IrAtCost(sqrt, s, c, h, headlineCost) == Some(0.0)
  {
    var r := Renet(s, headlineCost, c);
    IndicatorCounts(s);
    SumOfZeros(r);
    VarianceIsNonNegative(r);
    ZeroRatio(|r| as real, 1.0);
    assert Mean(r) == 0.0;
    hide Times, Over;
    ZeroRatio(sqrt(Variance(r)) + EPS_IR, sqrt(PeriodsPerYear(h)));
  }

  // ------------------------------------------------------------------ how the ratio falls with cost

  /** The squared deviations of the active entries from their own mean, spread over the grid.  No cost
      enters it. */
  function Scatter(s: seq<real>): real
    requires Actives(s) > 0
  {
    Over(Sum(OnActive(SquaredDeviations(s, Over(Sum(s), Actives(s) as real)), s)), |s| as real)
  }

  /** The scatter's numerator, by moments. */
  lemma ScatterIsMoments(s: seq<real>, u: real)
    requires Actives(s) > 0 && Times(u, Actives(s) as real) == Sum(s)
    ensures Sum(OnActive(SquaredDeviations(s, u), s)) == Sum(Squares(s)) - Times(u, Sum(s))
    ensures Sum(OnActive(SquaredDeviations(s, u), s)) >= 0.0
  {
    hide Times;
    var dev := OnActive(SquaredDeviations(s, u), s);
    Units(Times(-u, -u));
    Units(2.0 * (-u));
    Units(0.0);
    forall i | 0 <= i < |s|
      ensures dev[i] == Squares(s)[i] + Times(2.0 * (-u), s[i]) + Times(Times(-u, -u), Indicator(s)[i]) && dev[i] >= 0.0
    {
      SquareOfShift(s[i], -u);
      assert s[i] - u == s[i] + (-u);
      SquareIsNonNegative(s[i] - u);
    }
    IndicatorCounts(s);
    SumIsLinear(dev, Squares(s), s, Indicator(s), 2.0 * (-u), Times(-u, -u));
    SumIsNonNegative(dev);
    AboutTheMean(Sum(Squares(s)), Sum(s), Actives(s) as real, u);
  }

  lemma ScatterIsNonNegative(s: seq<real>)
    requires Actives(s) > 0
    ensures s != [] && Scatter(s) >= 0.0
  {
    hide Times, Over;
    var k := Actives(s) as real;
    TimesOver(Sum(s), k);
    ScatterIsMoments(s, Over(Sum(s), k));
    OverSign(Sum(OnActive(SquaredDeviations(s, Over(Sum(s), k)), s)), |s| as real);
  }

  /** Variance of the re-netted series: a constant scatter, plus what the cost adds because the flat
      periods stay at zero. */
  lemma RenettedVariance(s: seq<real>, headlineCost: real, c: real)
    requires Actives(s) > 0
    ensures var m, a := MeanGross(s, headlineCost).value - c, Activity(s);
            s != [] && Variance(Renet(s, headlineCost, c)) == Scatter(s) + Times(Times(a, 1.0 - a), Times(m, m))
  {
    hide Times, Over;
    MeanGrossIs(s, headlineCost);
    RenettedMean(s, headlineCost, c);
    var r, d, k, n := Renet(s, headlineCost, c), -(c - headlineCost), Actives(s) as real, |s| as real;
    var u := Over(Sum(s), k);
    TimesOver(Sum(s), k);
    ShiftedSquares(s, d);
    VarianceIsMoments(r);
    ScatterIsMoments(s, u);
    VarianceByMoments(Sum(Squares(s)), Sum(s), k, n, u, d, Sum(OnActive(SquaredDeviations(s, u), s)));
    assert u + d == MeanGross(s, headlineCost).value - c;
  }

  /** The ratio in terms of the gap and the deviation. */
  lemma Deviation(sqrt: real -> real, s: seq<real>, c: real, h: nat, headlineCost: real) returns (d: real)
    requires h > 0 && IsSqrt(sqrt) && Actives(s) > 0 && |s| >= 2
    ensures var m, a := MeanGross(s, headlineCost).value - c, Activity(s);
            && d >= 0.0 && Times(d, d) == Scatter(s) + Times(Times(a, 1.0 - a), Times(m, m))
            && IrAtCost(sqrt, s, c, h, headlineCost)
               == Some(Times(Over(Times(a, m), d + EPS_IR), sqrt(PeriodsPerYear(h))))
  {
    hide Times, Over;
    var r := Renet(s, headlineCost, c);
    RenettedMean(s, headlineCost, c);
    RenettedVariance(s, headlineCost, c);
    VarianceIsNonNegative(r);
    d := sqrt(Variance(r));
  }

  /** The ratio itself: mean over deviation, the latter with a floor of 1e-12, times the root of the periods
      of a year of 525600 minutes. */
  lemma RatioIs(sqrt: real -> real, r: seq<real>, h: nat)
    requires h > 0 && IsSqrt(sqrt) && |r| >= 2
    ensures Variance(r) >= 0.0 && InformationRatio(sqrt, r, h).Some?
    ensures Times(InformationRatio(sqrt, r, h).value, sqrt(Variance(r)) + 0.000000000001)
            == Times(Mean(r), sqrt(PeriodsPerYear(h)))
    ensures Times(PeriodsPerYear(h), h as real) == 525600.0
  {
    VarianceIsNonNegative(r);
    TimesOverBack(Mean(r), sqrt(Variance(r)) + EPS_IR, sqrt(PeriodsPerYear(h)));
    OverTimes(MINUTES_PER_YEAR, h as real);
    hide Times, Over, Variance, Mean;
  }

  lemma TimesOverBack(x: real, t: real, root: real)
    requires t > 0.0
    ensures Times(Times(Over(x, t), root), t) == Times(x, root)
  {
    var q := x / t;
    assert q * t == x;
    assert (q * root) * t == (q * t) * root;
  }

  lemma OverTimes(x: real, t: real)
    requires t > 0.0
    ensures Times(Over(x, t), t) == x
  {
  }

  /** With positions fixed the ratio strictly falls as the cost rises. */
  lemma IrFallsWithCost(sqrt: real -> real, s: seq<real>, c: real, c': real, h: nat, headlineCost: real)
    requires h > 0 && IsSqrt(sqrt) && Actives(s) > 0 && |s| >= 2 && c < c'
    ensures IrAtCost(sqrt, s, c, h, headlineCost).Some? && IrAtCost(sqrt, s, c', h, headlineCost).Some?
    ensures IrAtCost(sqrt, s, c, h, headlineCost).value > IrAtCost(sqrt, s, c', h, headlineCost).value
  {
    hide Times, Over, Scatter, Activity, MeanGross, IrAtCost;
    MeanGrossIs(s, headlineCost);
    var g, root := MeanGross(s, headlineCost).value, sqrt(PeriodsPerYear(h));
    var d := Deviation(sqrt, s, c, h, headlineCost);
    var d' := Deviation(sqrt, s, c', h, headlineCost);
    ScatterIsNonNegative(s);
    ActivityIsAFraction(s);
    RootIsPositive(root, PeriodsPerYear(h));
    RatioFalls(Scatter(s), Activity(s), g - c', g - c, d', d, EPS_IR, root);
  }

  // ------------------------------------------------------------------ the activity bound

  /** The square of a sum is at most the number of its non-zero terms times the sum of squares. */
  lemma CauchySchwarz(s: seq<real>)
    ensures Times(Sum(s), Sum(s)) <= Times(Actives(s) as real, Sum(Squares(s)))
  {
    hide Times, Over;
    IndicatorCounts(s);
    if Actives(s) == 0 {
      SumOfZeros(s);
      Units(0.0);
      Units(Sum(Squares(s)));
    } else {
      var k := Actives(s) as real;
      TimesOver(Sum(s), k);
      ScatterIsMoments(s, Over(Sum(s), k));
      MeanBound(Sum(Squares(s)), Sum(s), k, Over(Sum(s), k));
    }
  }

  /** `activity_lower_bound`. */
  function ActivityLowerBound(ir: real, h: nat): real
    requires h > 0
  {
    SquareIsNonNegative(ir);
    Over(Times(ir, ir), PeriodsPerYear(h) + Times(ir, ir))
  }

  /** The bound is the fraction of the squared ratio in itself and the periods of a year: never below zero,
      always below one, zero only for a ratio of zero. */
  lemma BoundIsAFraction(ir: real, h: nat)
    requires h > 0
    ensures Times(ActivityLowerBound(ir, h), PeriodsPerYear(h) + Times(ir, ir)) == Times(ir, ir)
    ensures 0.0 <= ActivityLowerBound(ir, h) < 1.0
    ensures ActivityLowerBound(ir, h) == 0.0 <==> ir == 0.0
  {
    hide Times, Over, PeriodsPerYear;
    SquareIsNonNegative(ir);
    SquareOfNonZero(ir);
    FractionOf(Times(ir, ir), PeriodsPerYear(h));
  }

  lemma SquareOfNonZero(x: real)
    ensures Times(x, x) == 0.0 <==> x == 0.0
  {
    Units(x);
    PositiveSquare(x);
    PositiveSquare(-x);
    OppositeSquares(x, -x);
    hide Times;
  }

  lemma PositiveProduct(x: real, y: real)
    requires x > 0.0 && y > 0.0
    ensures Times(x, y) > 0.0
  {
  }

  lemma PositiveSquare(x: real)
    ensures x > 0.0 ==> Times(x, x) > 0.0
  {
    hide Times;
    if x > 0.0 {
      PositiveProduct(x, x);
    }
  }

  lemma OppositeSquares(x: real, y: real)
    requires y == -x
    ensures Times(y, y) == Times(x, x)
  {
  }

  lemma FractionOf(x: real, p: real)
    requires x >= 0.0 && p > 0.0
    ensures Times(Over(x, p + x), p + x) == x
    ensures 0.0 <= Over(x, p + x) < 1.0
    ensures Over(x, p + x) == 0.0 <==> x == 0.0
  {
    var q, t := x / (p + x), p + x;
    assert q * t == x;
    assert q >= 1.0 ==> (q - 1.0) * t >= 0.0;
    assert q < 0.0 ==> (-q) * t > 0.0;
  }

  /** It rises with the size of the ratio. */
  lemma BoundRises(ir: real, ir': real, h: nat)
    requires h > 0 && Times(ir, ir) < Times(ir', ir')
    ensures ActivityLowerBound(ir, h) < ActivityLowerBound(ir', h)
  {
    SquareIsNonNegative(ir);
    FractionRises(Times(ir, ir), Times(ir', ir'), PeriodsPerYear(h));
    hide Times, Over;
  }

  lemma FractionRises(x: real, y: real, p: real)
    requires 0.0 <= x < y && p > 0.0
    ensures Over(x, p + x) < Over(y, p + y)
  {
    var q, r := x / (p + x), y / (p + y);
    assert q * (p + x) == x && r * (p + y) == y;
    FractionsCompare(q, r, x, y, p);
  }

  lemma FractionsCompare(q: real, r: real, x: real, y: real, p: real)
    requires 0.0 <= x < y && p > 0.0 && q * (p + x) == x && r * (p + y) == y
    ensures q < r
  {
    assert (1.0 - q) * (p + x) == p && (1.0 - r) * (p + y) == p;
    assert 1.0 - q > 0.0 by {
      assert 1.0 - q <= 0.0 ==> (q - 1.0) * (p + x) >= 0.0;
    }
    assert (1.0 - q) * (p + y) == p + (1.0 - q) * (y - x);
    assert (1.0 - q) * (y - x) > 0.0;
    assert (r - q) * (p + y) > 0.0;
  }

  /** Whatever the series, the ratio's own size bounds the activity from below. */
  lemma ActivityBound(sqrt: real -> real, s: seq<real>, h: nat)
    requires h > 0 && IsSqrt(sqrt) && |s| >= 2
    ensures Activity(s) >= ActivityLowerBound(InformationRatio(sqrt, s, h).value, h)
    ensures var ir := InformationRatio(sqrt, s, h).value;
            Times(Activity(s), PeriodsPerYear(h) + Times(ir, ir)) >= Times(ir, ir)
  {
    hide Times, Over;
    var n := |s| as real;
    VarianceIsNonNegative(s);
    VarianceIsMoments(s);
    CauchySchwarz(s);
    IndicatorCounts(s);
    MomentBound(Sum(s), Actives(s) as real, Sum(Squares(s)), n);
    FractionBelowOne(Actives(s) as real, n);
    var d, root, p := sqrt(Variance(s)), sqrt(PeriodsPerYear(h)), PeriodsPerYear(h);
    RootIsPositive(root, p);
    ActivityFromMoments(Mean(s), Over(Sum(Squares(s)), n), d, d + EPS_IR, Activity(s), root, p);
    var ir := InformationRatio(sqrt, s, h).value;
    SquareIsNonNegative(ir);
    BoundIsAFraction(ir, h);
    MoreOfIt(Activity(s), ActivityLowerBound(ir, h), p + Times(ir, ir));
  }

  lemma MoreOfIt(a: real, b: real, t: real)
    requires a >= b && t >= 0.0
    ensures Times(a, t) >= Times(b, t)
  {
    assert (a - b) * t >= 0.0;
  }
}
