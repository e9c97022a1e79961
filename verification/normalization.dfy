/** Causal z-scores with exponentially weighted statistics, and what one non-finite input does to
    them under the clip that compared and under the clip that propagates. */
module Normalization {
  import opened Floats
  import RealAlgebra

  const CLIP_LO := -5.0
  const CLIP_HI := 5.0
  const EPS_VAR := 0.00000001

  const LOW := Fin(CLIP_LO)
  const HIGH := Fin(CLIP_HI)

  /** `min(CLIP_HI, max(CLIP_LO, x))`: the clip the scan was written for. */
  function OldClip(x: Float): Float {
    PyMin(HIGH, PyMax(LOW, x))
  }

  /** The clip that lets non-finite values through as not-a-number. */
  function Clip(x: Float): Float {
    if !IsFinite(x) then NaN else OldClip(x)
  }

  datatype State = State(mu: Float, variance: Float)

  /** `(f - mu) / sqrt(var + eps)`, for a square root that is positive on positive numbers. */
  function Score(sqrt: real -> real, f: Float, s: State): Float
    requires forall v :: v > 0.0 ==> sqrt(v) > 0.0
  {
    var delta := Sub(f, s.mu);
    match s.variance
    case NaN => NaN
    case NegInf => NaN
    case PosInf => if IsFinite(delta) then Fin(0.0) else NaN
    case Fin(v) =>
      if v + EPS_VAR <= 0.0 then NaN
      else if IsFinite(delta) then Fin(delta.r / sqrt(v + EPS_VAR))
      else delta
  }

  /** The statistics after folding one more value in. */
  function Advance(alpha: real, f: Float, s: State): State
    requires 0.0 < alpha < 1.0
  {
    var delta := Sub(f, s.mu);
    var variance := Scale(1.0 - alpha, Add(s.variance, Scale(alpha, Square(delta))));
    State(Add(s.mu, Scale(alpha, delta)), PyMax(variance, Fin(0.0)))
  }

  /** The statistics after bars 0 to `i`. */
  function StateAfter(alpha: real, f: seq<Float>, i: nat): State
    requires 0.0 < alpha < 1.0 && i < |f|
  {
    if i == 0 then State(f[0], Fin(0.0)) else Advance(alpha, f[i], StateAfter(alpha, f, i - 1))
  }

  predicate IsLive(i: nat, warmBars: nat) {
    i > 0 && i >= warmBars
  }

  /** The unclipped score of a live bar. */
  function ScoreAt(sqrt: real -> real, alpha: real, f: seq<Float>, i: nat): Float
    requires (forall v :: v > 0.0 ==> sqrt(v) > 0.0) && 0.0 < alpha < 1.0 && 0 < i < |f|
  {
    Score(sqrt, f[i], StateAfter(alpha, f, i - 1))
  }

  /** What one segment emits under a clip. */
  ghost predicate Emits(sqrt: real -> real, alpha: real, warmBars: nat, clip: Float -> Float, f: seq<Float>,
      z: seq<Float>, warm: seq<bool>)
    requires (forall v :: v > 0.0 ==> sqrt(v) > 0.0) && 0.0 < alpha < 1.0
  {
    && |z| == |warm| == |f|
    && forall i :: 0 <= i < |f| ==>
         && (warm[i] <==> !IsLive(i, warmBars))
         && z[i] == if warm[i] then Fin(0.0) else clip(ScoreAt(sqrt, alpha, f, i))
  }

  method CausalZscore(sqrt: real -> real, alpha: real, warmBars: nat, clip: Float -> Float, f: seq<Float>)
    returns (z: array<Float>, warm: array<bool>)
    requires (forall v :: v > 0.0 ==> sqrt(v) > 0.0) && 0.0 < alpha < 1.0
    ensures Emits(sqrt, alpha, warmBars, clip, f, z[..], warm[..])
  {
    hide Advance, Score;
    var n := |f|;
    z, warm := new Float[n](_ => Fin(0.0)), new bool[n](_ => true);
    var s := State(Fin(0.0), Fin(0.0));
    for i := 0 to n
      invariant i > 0 ==> s == StateAfter(alpha, f, i - 1)
      invariant forall k :: i <= k < n ==> z[k] == Fin(0.0) && warm[k]
      invariant forall k :: 0 <= k < i ==>
                  && (warm[k] <==> !IsLive(k, warmBars))
                  && z[k] == if warm[k] then Fin(0.0) else clip(ScoreAt(sqrt, alpha, f, k))
    {
      if i == 0 {
        s := State(f[0], Fin(0.0));
      } else {
        warm[i] := i < warmBars;
        if !warm[i] {
          z[i] := clip(Score(sqrt, f[i], s));
        }
        s := Advance(alpha, f[i], s);
      }
    }
  }

  // ------------------------------------------------------------------ what the statistics are

  function Mix(alpha: real, was: real, now: real): real {
    (1.0 - alpha) * was + alpha * now
  }

  function Sq(x: real): real {
    x * x
  }

  /** The exponentially weighted mean and mean square of bars 0 to `i`. */
  function WeightedMean(alpha: real, f: seq<Float>, i: nat): real
    requires i < |f| && AllFinite(f, i + 1)
  {
    if i == 0 then f[0].r else Mix(alpha, WeightedMean(alpha, f, i - 1), f[i].r)
  }

  function WeightedSquare(alpha: real, f: seq<Float>, i: nat): real
    requires i < |f| && AllFinite(f, i + 1)
  {
    if i == 0 then Sq(f[0].r) else Mix(alpha, WeightedSquare(alpha, f, i - 1), Sq(f[i].r))
  }

  /** The incremental recursion computes the weighted mean, and the weighted mean square less its square;
      that is never negative, so the clamp at zero never acts in exact arithmetic. */
  lemma {:induction false} RecursionIsTheVariance(alpha: real, f: seq<Float>, i: nat)
    requires 0.0 < alpha < 1.0 && i < |f| && AllFinite(f, i + 1)
    ensures var m, q := WeightedMean(alpha, f, i), WeightedSquare(alpha, f, i);
            StateAfter(alpha, f, i) == State(Fin(m), Fin(q - Sq(m))) && q - Sq(m) >= 0.0
  {
    hide Advance, Mix, Sq;
    if i > 0 {
      RecursionIsTheVariance(alpha, f, i - 1);
      RecursionStep(alpha, WeightedMean(alpha, f, i - 1), WeightedSquare(alpha, f, i - 1), f[i].r);
    }
  }

  /** The code's own increments. */
  function Nudged(a: real, m: real, d: real): real {
    m + RealAlgebra.Times(a, d)
  }

  function Decayed(a: real, v: real, d: real): real {
    RealAlgebra.Times(1.0 - a, v + RealAlgebra.Times(a, RealAlgebra.Times(d, d)))
  }

  lemma RecursionStep(a: real, m: real, q: real, x: real)
    requires 0.0 < a < 1.0 && q - Sq(m) >= 0.0
    ensures var m', q' := Mix(a, m, x), Mix(a, q, Sq(x));
            Advance(a, Fin(x), State(Fin(m), Fin(q - Sq(m)))) == State(Fin(m'), Fin(q' - Sq(m'))) && q' - Sq(m') >= 0.0
  {
    hide Advance, Mix, Sq, Nudged, Decayed;
    DecayIsNonNegative(a, q - Sq(m), x - m);
    AdvanceFinite(a, x, m, q - Sq(m));
    IncrementsMix(a, m, q, x);
  }

  lemma AdvanceFinite(a: real, x: real, m: real, v: real)
    requires 0.0 < a < 1.0 && Decayed(a, v, x - m) >= 0.0
    ensures Advance(a, Fin(x), State(Fin(m), Fin(v))) == State(Fin(Nudged(a, m, x - m)), Fin(Decayed(a, v, x - m)))
  {
    hide Scale, Square, RealAlgebra.Times;
    var d := x - m;
    FiniteProducts(a, d);
    FiniteProducts(a, RealAlgebra.Times(d, d));
    FiniteProducts(1.0 - a, v + RealAlgebra.Times(a, RealAlgebra.Times(d, d)));
  }

  lemma FiniteProducts(a: real, r: real)
    requires a > 0.0
    ensures Scale(a, Fin(r)) == Fin(RealAlgebra.Times(a, r))
    ensures Square(Fin(r)) == Fin(RealAlgebra.Times(r, r))
  {
  }

  lemma IncrementsMix(a: real, m: real, q: real, x: real)
    ensures Nudged(a, m, x - m) == Mix(a, m, x)
    ensures Decayed(a, q - Sq(m), x - m) == Mix(a, q, Sq(x)) - Sq(Mix(a, m, x))
  {
    var d, n := x - m, Mix(a, m, x);
    MeanMovesBy(a, m, x);
    SquareOfSum(m, d);
    SquareOfSum(m, a * d);
    MovedSquare(a, m, d);
    MixedSquares(a, q, m * m, m * d, d * d);
  }

  lemma MeanMovesBy(a: real, m: real, x: real)
    ensures Mix(a, m, x) == m + a * (x - m)
  {
  }

  lemma SquareOfSum(m: real, d: real)
    ensures (m + d) * (m + d) == m * m + 2.0 * (m * d) + d * d
  {
  }

  lemma MovedSquare(a: real, m: real, d: real)
    ensures m * (a * d) == a * (m * d) && (a * d) * (a * d) == a * (a * (d * d))
  {
  }

  lemma MixedSquares(a: real, q: real, mm: real, md: real, dd: real)
    ensures (1.0 - a) * (q - mm + a * dd)
         == ((1.0 - a) * q + a * (mm + 2.0 * md + dd)) - (mm + 2.0 * (a * md) + a * (a * dd))
  {
  }

  lemma DecayIsNonNegative(a: real, v: real, d: real)
    requires 0.0 < a < 1.0 && v >= 0.0
    ensures Decayed(a, v, d) >= 0.0
  {
    var s := SquareIsNatural(d);
    var w := ScaleNonNegative(a, s);
    var u := ScaleNonNegative(1.0 - a, v + w);
  }

  lemma SquareIsNatural(d: real) returns (s: real)
    ensures s == d * d && s >= 0.0
  {
    if d >= 0.0 {
      s := ScaleNonNegative(d, d);
    } else {
      s := ScaleNonNegative(-d, -d);
    }
  }

  lemma ScaleNonNegative(a: real, x: real) returns (y: real)
    requires a >= 0.0 && x >= 0.0
    ensures y == a * x && y >= 0.0
  {
    y := a * x;
  }

  /** Over finite data a live bar's score is its distance from the weighted mean of the bars before it, in
      units of their deviation: the root of the weighted variance and a floor of 1e-8. */
  lemma ScoreIsTheDeviation(sqrt: real -> real, alpha: real, f: seq<Float>, i: nat)
    requires (forall v :: v > 0.0 ==> sqrt(v) > 0.0) && 0.0 < alpha < 1.0
    requires 0 < i < |f| && AllFinite(f, i + 1)
    ensures var m, q := WeightedMean(alpha, f, i - 1), WeightedSquare(alpha, f, i - 1);
            && q - Sq(m) >= 0.0 && ScoreAt(sqrt, alpha, f, i).Fin?
            && RealAlgebra.Times(ScoreAt(sqrt, alpha, f, i).r, sqrt(q - Sq(m) + 0.00000001)) == f[i].r - m
  {
    RecursionIsTheVariance(alpha, f, i - 1);
    var m, q := WeightedMean(alpha, f, i - 1), WeightedSquare(alpha, f, i - 1);
    Undivided(f[i].r - m, sqrt(q - Sq(m) + EPS_VAR));
    hide Sq, StateAfter;
  }

  lemma Undivided(d: real, root: real)
    requires root > 0.0
    ensures RealAlgebra.Times(d / root, root) == d
  {
  }

  /** Both clips keep a finite score between -5 and 5 and take any other to the nearer of the two. */
  lemma ClipsToFive(x: real)
    ensures Clip(Fin(x)) == OldClip(Fin(x)) == Fin(if x < -5.0 then -5.0 else if x > 5.0 then 5.0 else x)
  {
  }

  /** Strictly causal: the score of a bar is the same in every series that agrees up to it. */
  lemma {:induction false} StatisticsAreCausal(alpha: real, f: seq<Float>, f': seq<Float>, i: nat)
    requires 0.0 < alpha < 1.0 && i < |f| && i < |f'| && f[..i + 1] == f'[..i + 1]
    ensures StateAfter(alpha, f, i) == StateAfter(alpha, f', i)
  {
    assert f[..i + 1][i] == f'[..i + 1][i];
    if i > 0 {
      assert f[..i] == f[..i + 1][..i] == f'[..i + 1][..i] == f'[..i];
      StatisticsAreCausal(alpha, f, f', i - 1);
    }
  }

  lemma ScoresAreCausal(sqrt: real -> real, alpha: real, f: seq<Float>, f': seq<Float>, i: nat)
    requires (forall v :: v > 0.0 ==> sqrt(v) > 0.0) && 0.0 < alpha < 1.0
    requires 0 < i < |f| && i < |f'| && f[..i + 1] == f'[..i + 1]
    ensures ScoreAt(sqrt, alpha, f, i) == ScoreAt(sqrt, alpha, f', i)
  {
    assert f[..i] == f[..i + 1][..i] == f'[..i + 1][..i] == f'[..i];
    assert f[..i + 1][i] == f'[..i + 1][i];
    StatisticsAreCausal(alpha, f, f', i - 1);
  }

  // ------------------------------------------------------------------ poisoning

  predicate AllFinite(f: seq<Float>, n: nat)
    requires n <= |f|
  {
    forall i :: 0 <= i < n ==> IsFinite(f[i])
  }

  predicate IsHealthy(s: State) {
    IsFinite(s.mu) && IsFinite(s.variance) && s.variance.r >= 0.0
  }

  /** Poisoned for good. */
  predicate IsPoisoned(s: State) {
    s.mu.NaN? || (!IsFinite(s.mu) && !IsFinite(s.variance) && !s.variance.NegInf?)
  }

  /** Finite inputs keep the statistics finite. */
  lemma {:induction false} FiniteStaysHealthy(alpha: real, f: seq<Float>, i: nat)
    requires 0.0 < alpha < 1.0 && i < |f| && AllFinite(f, i + 1)
    ensures IsHealthy(StateAfter(alpha, f, i))
  {
    if i > 0 {
      FiniteStaysHealthy(alpha, f, i - 1);
    }
  }

  /** Nothing cures a poisoned state. */
  lemma PoisonStays(alpha: real, f: Float, s: State)
    requires 0.0 < alpha < 1.0 && IsPoisoned(s)
    ensures IsPoisoned(Advance(alpha, f, s))
  {
  }

  lemma PoisonScoresNaN(sqrt: real -> real, f: Float, s: State)
    requires (forall v :: v > 0.0 ==> sqrt(v) > 0.0) && IsPoisoned(s)
    ensures !IsFinite(Score(sqrt, f, s)) && OldClip(Score(sqrt, f, s)) == LOW && Clip(Score(sqrt, f, s)) == NaN
  {
    assert !IsFinite(Sub(f, s.mu));
  }

  /** One bar after the first non-finite one the statistics are poisoned, and stay so. */
  lemma {:induction false} PoisonSpreads(alpha: real, f: seq<Float>, i: nat, j: nat)
    requires 0.0 < alpha < 1.0 && i < |f| && i <= j < |f| && AllFinite(f, i) && !IsFinite(f[i])
    ensures j >= 1 ==> IsPoisoned(StateAfter(alpha, f, j))
    ensures j == 0 ==> StateAfter(alpha, f, j) == State(f[0], Fin(0.0))
    decreases j
  {
    if j > i {
      PoisonSpreads(alpha, f, i, j - 1);
    } else if i > 0 {
      FiniteStaysHealthy(alpha, f, i - 1);
    }
  }

  /** The one bar that escapes: the second of a segment that opens at minus infinity, when that bar is
      live and neither of the two is not-a-number. */
  predicate IsEscape(f: seq<Float>, i: nat, j: nat)
    requires i < j < |f|
  {
    i == 0 && j == 1 && f[0] == NegInf && !f[1].NaN? && f[1] != NegInf
  }

  /** Every later bar that is live reads the lower clip under the old clip, with that one exception,
      which reads the upper clip. */
  lemma PoisonReachesTheEnd(sqrt: real -> real, alpha: real, warmBars: nat, f: seq<Float>, z: seq<Float>,
      warm: seq<bool>, i: nat, j: nat)
    requires (forall v :: v > 0.0 ==> sqrt(v) > 0.0) && 0.0 < alpha < 1.0
    requires Emits(sqrt, alpha, warmBars, OldClip, f, z, warm)
    requires i < j < |f| && AllFinite(f, i) && !IsFinite(f[i]) && IsLive(j, warmBars)
    ensures z[j] == if IsEscape(f, i, j) then HIGH else LOW
  {
    PoisonSpreads(alpha, f, i, j - 1);
    if j - 1 >= 1 {
      PoisonScoresNaN(sqrt, f[j], StateAfter(alpha, f, j - 1));
    } else {
      assert StateAfter(alpha, f, 0) == State(f[0], Fin(0.0));
    }
  }

  /** Not-a-number poisons its own bar too, so no warm-up excuses any bar from there on. */
  lemma NaNCoversTheTail(sqrt: real -> real, alpha: real, warmBars: nat, f: seq<Float>, z: seq<Float>, warm: seq<bool>,
      i: nat, j: nat)
    requires (forall v :: v > 0.0 ==> sqrt(v) > 0.0) && 0.0 < alpha < 1.0
    requires Emits(sqrt, alpha, warmBars, OldClip, f, z, warm)
    requires i <= j < |f| && f[i].NaN? && IsLive(j, warmBars)
    ensures z[j] == LOW
  {
    if i < j {
      NaNSpreads(alpha, f, i, j - 1);
      PoisonScoresNaN(sqrt, f[j], StateAfter(alpha, f, j - 1));
    } else {
      assert Sub(f[j], StateAfter(alpha, f, j - 1).mu).NaN?;
    }
  }

  lemma {:induction false} NaNSpreads(alpha: real, f: seq<Float>, i: nat, j: nat)
    requires 0.0 < alpha < 1.0 && i <= j < |f| && f[i].NaN?
    ensures StateAfter(alpha, f, j).mu.NaN?
    decreases j
  {
    if i < j {
      NaNSpreads(alpha, f, i, j - 1);
    }
  }

  lemma HealthyScores(sqrt: real -> real, f: Float, s: State)
    requires (forall v :: v > 0.0 ==> sqrt(v) > 0.0) && IsHealthy(s)
    ensures var x := Score(sqrt, f, s);
            if IsFinite(f) then IsFinite(Clip(x)) && CLIP_LO <= Clip(x).r <= CLIP_HI && OldClip(x) == Clip(x)
            else Clip(x) == NaN
  {
  }

  /** Under the propagating clip the finiteness check on the emitted segment fails exactly when a
      non-finite input has a live bar at or after it; the old clip never let it fail. */
  lemma TripwireIsExact(sqrt: real -> real, alpha: real, warmBars: nat, f: seq<Float>, z: seq<Float>, warm: seq<bool>)
    requires (forall v :: v > 0.0 ==> sqrt(v) > 0.0) && 0.0 < alpha < 1.0
    requires Emits(sqrt, alpha, warmBars, Clip, f, z, warm)
    ensures AllFinite(z, |z|) <==> forall j :: 0 <= j < |f| && IsLive(j, warmBars) ==> AllFinite(f, j + 1)
  {
    forall j | 0 <= j < |f| && IsLive(j, warmBars)
      ensures IsFinite(z[j]) <==> AllFinite(f, j + 1)
    {
      TripwireAt(sqrt, alpha, f, j);
    }
  }

  lemma TripwireAt(sqrt: real -> real, alpha: real, f: seq<Float>, j: nat)
    requires (forall v :: v > 0.0 ==> sqrt(v) > 0.0) && 0.0 < alpha < 1.0 && 0 < j < |f|
    ensures IsFinite(Clip(ScoreAt(sqrt, alpha, f, j))) <==> AllFinite(f, j + 1)
  {
    if AllFinite(f, j) {
      FiniteStaysHealthy(alpha, f, j - 1);
      HealthyScores(sqrt, f[j], StateAfter(alpha, f, j - 1));
    } else {
      var i := FirstBad(f, j);
      PoisonSpreads(alpha, f, i, j - 1);
      if j > 1 {
        PoisonScoresNaN(sqrt, f[j], StateAfter(alpha, f, j - 1));
      } else {
        assert !IsFinite(Sub(f[j], f[0]));
      }
    }
  }

  lemma {:induction false} FirstBad(f: seq<Float>, n: nat) returns (i: nat)
    requires n <= |f| && !AllFinite(f, n)
    ensures i < n && AllFinite(f, i) && !IsFinite(f[i])
  {
    if AllFinite(f, n - 1) {
      i := n - 1;
    } else {
      i := FirstBad(f, n - 1);
    }
  }

  lemma OldClipNeverTrips(sqrt: real -> real, alpha: real, warmBars: nat, f: seq<Float>, z: seq<Float>, warm: seq<bool>)
    requires (forall v :: v > 0.0 ==> sqrt(v) > 0.0) && 0.0 < alpha < 1.0
    requires Emits(sqrt, alpha, warmBars, OldClip, f, z, warm)
    ensures AllFinite(z, |z|)
  {
  }
}
