/** Facts of real arithmetic, each on its own.  Products and quotients have names, so that a proof
    about the program can hide them and use the facts below instead of searching for them. */
module RealAlgebra {
  function Times(x: real, y: real): real {
    x * y
  }

  function Over(x: real, y: real): real
    requires y != 0.0
  {
    x / y
  }

  // ------------------------------------------------------------------ plain arithmetic

  lemma Cancel(p: real, q: real, t: real)
    requires t != 0.0 && p * t == q * t
    ensures p == q
  {
    assert (p - q) * t == 0.0;
  }

  lemma DivideProduct(x: real, y: real, t: real)
    requires t != 0.0
    ensures (x / t) * y == (x * y) / t
  {
    var q := x / t;
    assert q * t == x;
    assert (q * y) * t == x * y;
    Cancel(q * y, (x * y) / t, t);
  }

  lemma ProductSign(x: real, y: real)
    requires y > 0.0
    ensures x > 0.0 <==> x * y > 0.0
    ensures x < 0.0 <==> x * y < 0.0
  {
  }

  lemma OverSign(x: real, t: real)
    requires t > 0.0
    ensures x > 0.0 <==> Over(x, t) > 0.0
    ensures x < 0.0 <==> Over(x, t) < 0.0
  {
    var q := x / t;
    assert q * t == x;
    ProductSign(q, t);
  }

  lemma QuotientMonotone(x: real, y: real, t: real)
    requires t > 0.0
    ensures x <= y <==> x / t <= y / t
  {
    var p, q := x / t, y / t;
    assert p * t == x && q * t == y;
    assert (q - p) * t == y - x;
    ProductSign(q - p, t);
  }

  lemma SquareOrder(x: real, y: real)
    requires y >= 0.0 && x * x <= y * y
    ensures x <= y
  {
    assert (x - y) * (x + y) == x * x - y * y;
    if x > y {
      ProductSign(x - y, x + y);
    }
  }

  lemma OrderOfSquares(x: real, y: real)
    requires 0.0 <= x <= y
    ensures x * x <= y * y
  {
    assert (y - x) * (y + x) >= 0.0;
  }

  lemma Scale(a: real, x: real, y: real)
    requires a >= 0.0 && x <= y
    ensures a * x <= a * y
  {
    assert a * (y - x) >= 0.0;
  }

  lemma SplitQuotient(w: real, k: real, y: real, n: real)
    requires n != 0.0
    ensures (w + k * y) / n == w / n + (k / n) * y
  {
    DivideProduct(k, y, n);
    assert (w / n) * n == w && ((k * y) / n) * n == k * y;
    assert n * (w / n + (k * y) / n) == n * (w / n) + n * ((k * y) / n);
    Cancel((w + k * y) / n, w / n + (k * y) / n, n);
  }

  /** The distances are ordered across the deviations that belong to them. */
  lemma RatioOrder(v: real, k: real, m1: real, m2: real, d1: real, d2: real)
    requires v >= 0.0 && k >= 0.0 && m1 < m2 && d1 >= 0.0 && d2 >= 0.0
    requires Times(d1, d1) == v + Times(k, Times(m1, m1)) && Times(d2, d2) == v + Times(k, Times(m2, m2))
    ensures Times(m1, d2) <= Times(m2, d1)
  {
    if m1 >= 0.0 {
      PositiveRatioOrder(v, k, m1, m2, d1, d2);
    } else if m2 >= 0.0 {
      assert m1 * d2 <= 0.0;
      assert m2 * d1 >= 0.0;
    } else {
      assert (-m1) * (-m1) == m1 * m1 && (-m2) * (-m2) == m2 * m2;
      PositiveRatioOrder(v, k, -m2, -m1, d2, d1);
      assert (-m2) * d1 == -(m2 * d1) && (-m1) * d2 == -(m1 * d2);
    }
  }

  lemma PositiveRatioOrder(v: real, k: real, m1: real, m2: real, d1: real, d2: real)
    requires v >= 0.0 && k >= 0.0 && 0.0 <= m1 < m2 && d1 >= 0.0 && d2 >= 0.0
    requires d1 * d1 == v + k * (m1 * m1) && d2 * d2 == v + k * (m2 * m2)
    ensures m1 * d2 <= m2 * d1
  {
    CrossSquare(v, k, m1, m2, d2);
    CrossSquare(v, k, m2, m1, d1);
    OrderOfSquares(m1, m2);
    Scale(v, m1 * m1, m2 * m2);
    assert m2 * d1 >= 0.0;
    SquareOrder(m1 * d2, m2 * d1);
  }

  lemma CrossSquare(v: real, k: real, m: real, m': real, d: real)
    requires d * d == v + k * (m' * m')
    ensures (m * d) * (m * d) == v * (m * m) + k * ((m * m) * (m' * m'))
  {
    assert (m * d) * (m * d) == (m * m) * (d * d);
  }

  lemma SteeperQuotient(m1: real, m2: real, d1: real, d2: real, eps: real)
    requires eps > 0.0 && d1 >= 0.0 && d2 >= 0.0 && m1 < m2
    requires Times(m1, d2) <= Times(m2, d1)
    ensures Over(m1, d1 + eps) < Over(m2, d2 + eps)
  {
    hide Times, Over;
    Distribute(m1, d2, eps);
    Distribute(m2, d1, eps);
    ScaleStrictly(eps, m1, m2);
    CrossQuotient(m1, m2, d1 + eps, d2 + eps);
  }

  lemma ScaleStrictly(a: real, x: real, y: real)
    requires a > 0.0 && x < y
    ensures Times(x, a) < Times(y, a)
  {
    ProductSign(y - x, a);
    assert (y - x) * a == y * a - x * a;
  }

  lemma CrossQuotient(m1: real, m2: real, e1: real, e2: real)
    requires e1 > 0.0 && e2 > 0.0 && Times(m1, e2) < Times(m2, e1)
    ensures Over(m1, e1) < Over(m2, e2)
  {
    var x, y := m1 / e1, m2 / e2;
    assert x * e1 == m1 && y * e2 == m2;
    assert x * e1 * e2 < y * e2 * e1;
    assert (y - x) * (e1 * e2) == y * e2 * e1 - x * e1 * e2;
    ProductSign(e1, e2);
    ProductSign(y - x, e1 * e2);
  }

  /** A larger mean over its deviation gives a larger annualized ratio. */
  lemma AnnualizedOrder(a: real, m1: real, m2: real, e1: real, e2: real, root: real)
    requires a > 0.0 && e1 > 0.0 && e2 > 0.0 && root > 0.0 && Over(m1, e1) < Over(m2, e2)
    ensures Times(Over(Times(a, m1), e1), root) < Times(Over(Times(a, m2), e2), root)
  {
    var x, y := m1 / e1, m2 / e2;
    ScaledQuotient(a, m1, e1);
    ScaledQuotient(a, m2, e2);
    ProductSign(y - x, a);
    assert (y - x) * a == a * y - a * x;
    ProductSign(a * y - a * x, root);
    assert (a * y - a * x) * root == a * y * root - a * x * root;
  }

  lemma ScaledQuotient(a: real, m: real, e: real)
    requires e != 0.0
    ensures a * m / e == a * (m / e)
  {
    DivideProduct(m, a, e);
    assert m * a == a * m;
    assert (m / e) * a == a * (m / e);
  }

  /** From the moments to the bound on the activity `a`, for a mean `m` and a deviation `d` padded to
      `e`: `x` is the ratio of one period, the square of `root` the annualization. */
  lemma BoundFromMoments(d: real, m: real, a: real, e: real, x: real, root: real)
    requires 0.0 <= d <= e && e > 0.0 && 0.0 <= a && x * e == m && root > 0.0
    requires m * m <= a * (d * d + m * m)
    ensures Times(Times(x, root), Times(x, root)) <= Times(a, Times(root, root) + Times(Times(x, root), Times(x, root)))
  {
    OrderOfSquares(d, e);
    var f := PositiveProduct(e, e);
    SquareOfQuotient(x, e);
    PeriodBound(d * d, f, x * x, m * m, a);
    SquareOfQuotient(x, root);
    var p := PositiveProduct(root, root);
    AnnualBound(x * x, p, a);
  }

  lemma PositiveProduct(x: real, y: real) returns (p: real)
    requires x > 0.0 && y > 0.0
    ensures p == x * y && p > 0.0
  {
    assert x * y > 0.0;
    p := x * y;
  }

  lemma SquareOfQuotient(x: real, e: real)
    ensures (x * e) * (x * e) == (x * x) * (e * e)
  {
  }

  lemma PeriodBound(dd: real, f: real, y: real, mm: real, a: real)
    requires dd <= f && f > 0.0 && mm == y * f && 0.0 <= a && mm <= a * (dd + mm)
    ensures y <= a * (1.0 + y)
  {
    Scale(a, dd + mm, f + mm);
    assert a * (f + y * f) == (a * (1.0 + y)) * f;
    var gap := y - a * (1.0 + y);
    assert gap * f == y * f - (a * (1.0 + y)) * f;
    ProductSign(gap, f);
  }

  lemma AnnualBound(y: real, p: real, a: real)
    requires p > 0.0 && y <= a * (1.0 + y)
    ensures y * p <= a * (p + y * p)
  {
    Scale(p, y, a * (1.0 + y));
    assert p * (a * (1.0 + y)) == a * (p + y * p);
  }

  lemma FractionBound(x: real, a: real, t: real)
    requires t > 0.0 && x <= Times(a, t)
    ensures Over(x, t) <= a
  {
    QuotientMonotone(x, a * t, t);
    assert (a * t / t) * t == a * t;
    Cancel(a * t / t, a, t);
  }

  // ------------------------------------------------------------------ named products and quotients

  lemma Units(b: real)
    ensures Times(b, 1.0) == b && Times(b, 0.0) == 0.0 == Times(0.0, b)
  {
  }

  lemma Distribute(a: real, x: real, y: real)
    ensures Times(a, x + y) == Times(a, x) + Times(a, y)
  {
  }

  lemma SquareOfShift(x: real, d: real)
    ensures Times(x + d, x + d) == Times(x, x) + Times(2.0 * d, x) + Times(d, d)
  {
  }

  lemma SquareIsNonNegative(x: real)
    ensures Times(x, x) >= 0.0
  {
  }

  lemma RootIsPositive(root: real, p: real)
    requires root >= 0.0 && Times(root, root) == p && p > 0.0
    ensures root > 0.0
  {
    assert root == 0.0 ==> root * root == 0.0;
  }

  lemma TimesOver(x: real, t: real)
    requires t != 0.0
    ensures Times(Over(x, t), t) == x
  {
  }

  lemma FractionBelowOne(x: real, t: real)
    requires t > 0.0 && 0.0 <= x <= t
    ensures 0.0 <= Over(x, t) <= 1.0 && (x > 0.0 ==> Over(x, t) > 0.0)
  {
    OverSign(x, t);
    FractionBound(x, 1.0, t);
  }

  /** Moments about the mean: `u` is the mean of `k` values of sum `s`. */
  lemma AboutTheMean(q: real, s: real, k: real, u: real)
    requires Times(u, k) == s
    ensures q + Times(2.0 * (-u), s) + Times(Times(-u, -u), k) == q - Times(u, s)
    ensures Times(u, s) == Times(Times(u, u), k)
  {
    assert u * s == u * (u * k);
    assert (2.0 * (-u)) * s == -2.0 * (u * s) && (-u) * (-u) * k == u * (u * k);
  }

  lemma MomentQuotient(w: real, q: real, m: real, n: real)
    requires n > 0.0 && w == q - Times(Times(m, m), n)
    ensures Over(w, n) == Over(q, n) - Times(m, m)
  {
    assert (w / n) * n == w && (q / n) * n == q;
    assert (q / n - m * m) * n == (q / n) * n - m * m * n;
    Cancel(w / n, q / n - m * m, n);
  }

  lemma MeanMovesAlong(s: real, h: real, k: real)
    requires k > 0.0
    ensures Over(s + Times(h, k), k) == Over(s, k) + h
  {
    assert (s / k) * k == s;
    assert (s / k + h) * k == (s / k) * k + h * k;
    assert ((s + h * k) / k) * k == s + h * k;
    Cancel((s + h * k) / k, s / k + h, k);
  }

  lemma MeanOfActive(s: real, d: real, k: real, n: real)
    requires k > 0.0 && n > 0.0
    ensures Over(s + Times(d, k), n) == Times(Over(k, n), Over(s, k) + d)
  {
    assert (s / k) * k == s;
    assert k * (s / k + d) == (s / k) * k + d * k;
    DivideProduct(k, s / k + d, n);
  }

  /** The annualized ratio has the sign of the gap. */
  lemma RatioSign(a: real, gap: real, d: real, root: real)
    requires a > 0.0 && d > 0.0 && root > 0.0
    ensures Times(Over(Times(a, gap), d), root) > 0.0 <==> gap > 0.0
    ensures Times(Over(Times(a, gap), d), root) < 0.0 <==> gap < 0.0
  {
    ProductSign(gap, a);
    OverSign(a * gap, d);
    ProductSign(a * gap / d, root);
  }

  lemma ZeroRatio(d: real, root: real)
    requires d > 0.0
    ensures Times(Over(0.0, d), root) == 0.0
  {
    assert 0.0 / d == 0.0;
  }

  /** The variance of `k` of `n` entries moved by `d`: `u` is their mean, `w` their scatter. */
  lemma VarianceByMoments(q: real, s: real, k: real, n: real, u: real, d: real, w: real)
    requires k > 0.0 && n > 0.0 && Times(u, k) == s && w == q - Times(u, s)
    ensures var m, a := u + d, Over(k, n);
            Over(q + Times(2.0 * d, s) + Times(Times(d, d), k), n) - Times(Times(a, m), Times(a, m))
            == Over(w, n) + Times(Times(a, 1.0 - a), Times(m, m))
  {
    var m, a := u + d, k / n;
    SpreadAfterShift(q, s, k, u, d);
    SplitQuotient(w, k, m * m, n);
    assert a * (m * m) - (a * m) * (a * m) == a * (1.0 - a) * (m * m);
  }

  lemma SpreadAfterShift(q: real, s: real, k: real, u: real, d: real)
    requires u * k == s
    ensures q + (2.0 * d) * s + d * d * k == (q - u * s) + k * ((u + d) * (u + d))
  {
    assert (u + d) * (u + d) == u * u + (2.0 * d) * u + d * d;
    assert k * (u * u + (2.0 * d) * u + d * d) == u * (u * k) + (2.0 * d) * (u * k) + d * d * k;
  }

  /** A smaller gap gives a smaller annualized ratio, each with the deviation that belongs to it. */
  lemma RatioFalls(v: real, a: real, m1: real, m2: real, d1: real, d2: real, eps: real, root: real)
    requires v >= 0.0 && 0.0 < a <= 1.0 && m1 < m2 && d1 >= 0.0 && d2 >= 0.0 && eps > 0.0 && root > 0.0
    requires Times(d1, d1) == v + Times(Times(a, 1.0 - a), Times(m1, m1))
    requires Times(d2, d2) == v + Times(Times(a, 1.0 - a), Times(m2, m2))
    ensures Times(Over(Times(a, m1), d1 + eps), root) < Times(Over(Times(a, m2), d2 + eps), root)
  {
    hide Times, Over;
    var k := NonNegativeProduct(a, 1.0 - a);
    RatioOrder(v, k, m1, m2, d1, d2);
    SteeperQuotient(m1, m2, d1, d2, eps);
    AnnualizedOrder(a, m1, m2, d1 + eps, d2 + eps, root);
  }

  lemma NonNegativeProduct(x: real, y: real) returns (p: real)
    requires x >= 0.0 && y >= 0.0
    ensures p == Times(x, y) && p >= 0.0
  {
    p := x * y;
  }

  lemma MeanBound(q: real, s: real, k: real, u: real)
    requires k > 0.0 && Times(u, k) == s && q - Times(u, s) >= 0.0
    ensures Times(s, s) <= Times(k, q)
  {
    Scale(k, u * s, q);
    assert k * (u * s) == (u * k) * s;
  }

  lemma MomentBound(s: real, k: real, q: real, n: real)
    requires n > 0.0 && Times(s, s) <= Times(k, q)
    ensures Times(Over(s, n), Over(s, n)) <= Times(Over(k, n), Over(q, n))
  {
    var m, a, y := s / n, k / n, q / n;
    assert m * n == s && a * n == k && y * n == q;
    var f := PositiveProduct(n, n);
    assert (m * m) * f == s * s by {
      SquareOfQuotient(m, n);
    }
    assert (a * y) * f == k * q by {
      assert (a * n) * (y * n) == (a * y) * (n * n);
    }
    assert (m * m - a * y) * f == (m * m) * f - (a * y) * f;
    ProductSign(m * m - a * y, f);
  }

  /** The bound on the activity `a` from a mean `m`, a mean square `y`, a deviation `d` padded to `e`
      and an annualization `p`. */
  lemma ActivityFromMoments(m: real, y: real, d: real, e: real, a: real, root: real, p: real)
    requires 0.0 <= d <= e && e > 0.0 && a >= 0.0 && root > 0.0 && Times(root, root) == p
    requires Times(d, d) == y - Times(m, m) && Times(m, m) <= Times(a, y)
    ensures var ir := Times(Over(m, e), root);
            p + Times(ir, ir) > 0.0 && Over(Times(ir, ir), p + Times(ir, ir)) <= a
  {
    hide Times, Over;
    var x := Over(m, e);
    TimesOver(m, e);
    PaddedBound(d, m, y, a, e, x, root);
    PositiveDenominator(Times(x, root), root);
    FractionBound(Times(Times(x, root), Times(x, root)), a, p + Times(Times(x, root), Times(x, root)));
  }

  lemma PaddedBound(d: real, m: real, y: real, a: real, e: real, x: real, root: real)
    requires 0.0 <= d <= e && e > 0.0 && 0.0 <= a && Times(x, e) == m && root > 0.0
    requires Times(d, d) == y - Times(m, m) && Times(m, m) <= Times(a, y)
    ensures Times(Times(x, root), Times(x, root)) <= Times(a, Times(root, root) + Times(Times(x, root), Times(x, root)))
  {
    assert y == d * d + m * m;
    BoundFromMoments(d, m, a, e, x, root);
  }

  lemma PositiveDenominator(ir: real, root: real)
    requires root > 0.0
    ensures Times(root, root) + Times(ir, ir) > 0.0
  {
    var p := PositiveProduct(root, root);
    SquareIsNonNegative(ir);
  }
}
