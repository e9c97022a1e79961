/** The break-even cost: the bisected root of the information ratio, and the two checks the script runs
    on it. */
module BreakEven {
  import opened Options
  import opened RealAlgebra
  import opened Renetting

  const LO := -0.05
  const HI := 0.05
  const ROUNDS: nat := 300
  const AGREEMENT := 0.000000000001
  const DELTA := 0.0001
  const REJECTION := 0.000000001

  predicate Near(x: real, y: real, bound: real) {
    -bound < x - y < bound
  }

  predicate IsWithin(x: real, bound: real) {
    -bound <= x <= bound
  }

  /** The break-even cost lies strictly inside the bracket and there is a ratio to look at. */
  predicate IsMeasurable(s: seq<real>, headlineCost: real) {
    |s| >= 2 && Actives(s) > 0 && LO < MeanGross(s, headlineCost).value < HI
  }

  /** The bracket after `k` halvings. */
  function Width(k: nat): real {
    if k == 0 then HI - LO else 0.5 * Width(k - 1)
  }

  function PowerOfTwo(k: nat): (p: real)
    ensures p >= 1.0
  {
    if k == 0 then 1.0 else 2.0 * PowerOfTwo(k - 1)
  }

  /** That is 0.1 over a power of two. */
  lemma {:induction false} WidthIs(k: nat)
    ensures Over(0.1, PowerOfTwo(k)) == Width(k) > 0.0
  {
    if k > 0 {
      WidthIs(k - 1);
      HalveQuotient(0.1, PowerOfTwo(k - 1));
    }
  }

  lemma HalveQuotient(x: real, p: real)
    requires p > 0.0
    ensures Over(x, 2.0 * p) == 0.5 * Over(x, p)
  {
    assert (x / p) * p == x;
    assert (0.5 * (x / p)) * (2.0 * p) == x;
    Cancel(x / (2.0 * p), 0.5 * (x / p), 2.0 * p);
  }

  lemma {:induction false} WidthShrinks(k: nat, j: nat)
    requires j <= k
    ensures 0.0 < Width(k) <= Width(j)
    decreases k
  {
    WidthIs(k);
    if j < k {
      WidthShrinks(k - 1, j);
    }
  }

  lemma WidthIsTiny(k: nat)
    requires k >= 40
    ensures Width(k) < AGREEMENT
  {
    WidthShrinks(k, 40);
    Sixteenth(0);
    Sixteenth(4);
    Sixteenth(8);
    Sixteenth(12);
    Sixteenth(16);
    Sixteenth(20);
    Sixteenth(24);
    Sixteenth(28);
    Sixteenth(32);
    Sixteenth(36);
  }

  lemma Sixteenth(k: nat)
    ensures 16.0 * Width(k + 4) == Width(k)
  {
    assert Width(k + 2) == 0.5 * Width(k + 1);
    assert Width(k + 4) == 0.5 * Width(k + 3);
  }

  // ------------------------------------------------------------------ the root

  predicate IsPositive(x: Option<real>) {
    x.Some? && x.value > 0.0
  }

  predicate IsNegative(x: Option<real>) {
    x.Some? && x.value < 0.0
  }

  /** What one look at the ratio tells about the cost. */
  lemma LookAt(sqrt: real -> real, s: seq<real>, c: real, h: nat, headlineCost: real)
    requires h > 0 && IsSqrt(sqrt)
    ensures IsPositive(IrAtCost(sqrt, s, c, h, headlineCost)) <==>
            |s| >= 2 && Actives(s) > 0 && c < MeanGross(s, headlineCost).value
    ensures IsNegative(IrAtCost(sqrt, s, c, h, headlineCost)) <==>
            |s| >= 2 && Actives(s) > 0 && c > MeanGross(s, headlineCost).value
  {
    hide Times, Over;
    if |s| >= 2 {
      if Actives(s) > 0 {
        SignOfIr(sqrt, s, c, h, headlineCost);
      } else {
        FlatSeriesHasNoEdge(sqrt, s, c, h, headlineCost);
      }
    }
  }

  /** A root is reported exactly when the mean gross return lies strictly inside the bracket, and then it
      is within half the last bracket of it. */
  method RootOfIr(sqrt: real -> real, s: seq<real>, h: nat, headlineCost: real) returns (root: Option<real>)
    requires h > 0 && IsSqrt(sqrt)
    ensures root.Some? <==> IsMeasurable(s, headlineCost)
    ensures root.Some? ==> -Width(301) <= root.value - MeanGross(s, headlineCost).value <= Width(301)
  {
    hide Times, Over, IrAtCost;
    var lo, hi := LO, HI;
    LookAt(sqrt, s, lo, h, headlineCost);
    LookAt(sqrt, s, hi, h, headlineCost);
    if !(IsPositive(IrAtCost(sqrt, s, lo, h, headlineCost)) && IsNegative(IrAtCost(sqrt, s, hi, h, headlineCost))) {
      return None;
    }
    ghost var target := MeanGross(s, headlineCost).value;
    for i := 0 to ROUNDS
      invariant lo < target <= hi && hi - lo == Width(i)
    {
      var mid := 0.5 * (lo + hi);
      LookAt(sqrt, s, mid, h, headlineCost);
      if IsPositive(IrAtCost(sqrt, s, mid, h, headlineCost)) {
        lo := mid;
      } else {
        hi := mid;
      }
    }
    root := Some(0.5 * (lo + hi));
  }

  // ------------------------------------------------------------------ the identity check

  method VerifyIdentity(sqrt: real -> real, s: seq<real>, h: nat, headlineCost: real)
    returns (gbar: Option<real>, root: Option<real>, agrees: bool)
    requires h > 0 && IsSqrt(sqrt)
    ensures gbar == MeanGross(s, headlineCost)
    ensures root.Some? ==> gbar.Some? && -0.000000000001 < root.value - gbar.value < 0.000000000001
    ensures root.Some? ==> -Width(301) <= root.value - gbar.value <= Width(301)
    ensures agrees <==> root.Some?
    ensures agrees <==> IsMeasurable(s, headlineCost)
  {
    hide Times, Over;
    gbar := MeanGross(s, headlineCost);
    root := RootOfIr(sqrt, s, h, headlineCost);
    WidthIsTiny(ROUNDS + 1);
    agrees := root.Some? && Near(gbar.value, root.value, AGREEMENT);
  }

  /** The check sees the algebra and not the premise: claiming another cost moves both of its sides by
      the same amount, so the only thing that can make it fail is leaving the bracket. */
  lemma TheClaimedCostIsNotChecked(s: seq<real>, claimed: real, actual: real)
    requires |s| >= 2 && Actives(s) > 0
    ensures MeanGross(s, claimed).value == MeanGross(s, actual).value + (claimed - actual)
    ensures IsMeasurable(s, claimed) <==> LO < MeanGross(s, actual).value + (claimed - actual) < HI
  {
    hide Times, Over;
    MeanGrossIs(s, claimed);
    MeanGrossIs(s, actual);
  }

  // ------------------------------------------------------------------ the discrimination check

  /** How far the mean gross return of the perturbed series is from having moved by exactly the
      perturbation: entries that the perturbation cancels turn into flat periods. */
  function Slip(s: seq<real>): real
    requires Actives(s) > 0 && Actives(Shift(s, DELTA)) > 0
  {
    var total := Sum(Shift(s, DELTA));
    Over(total, Actives(Shift(s, DELTA)) as real) - Over(total, Actives(s) as real)
  }

  lemma {:induction false} ShiftLosesOpposites(s: seq<real>, d: real)
    requires d != 0.0
    ensures Actives(Shift(s, d)) <= Actives(s)
    ensures Actives(Shift(s, d)) == Actives(s) <==> forall i :: 0 <= i < |s| ==> s[i] != -d
  {
    if s != [] {
      ShiftLosesOpposites(s[1..], d);
      assert Shift(s, d)[1..] == Shift(s[1..], d);
      assert forall i :: 0 < i < |s| ==> s[i] == s[1..][i - 1];
    }
  }

  /** The perturbed mean, exactly. */
  lemma PerturbedMean(s: seq<real>, headlineCost: real)
    requires Actives(s) > 0 && Actives(Shift(s, DELTA)) > 0
    ensures MeanGross(Shift(s, DELTA), headlineCost).value
            == MeanGross(s, headlineCost).value + 0.0001 + Slip(s)
  {
    hide Times, Over;
    MeanGrossIs(s, headlineCost);
    MeanGrossIs(Shift(s, DELTA), headlineCost);
    ShiftedSum(s, DELTA);
    MeanMovesAlong(Sum(s), DELTA, Actives(s) as real);
  }

  /** It moves by exactly the perturbation if and only if no active entry is cancelled, or what is left
      sums to nothing. */
  lemma MovesExactly(s: seq<real>, headlineCost: real)
    requires Actives(s) > 0 && Actives(Shift(s, DELTA)) > 0
    ensures MeanGross(Shift(s, DELTA), headlineCost).value == MeanGross(s, headlineCost).value + 0.0001 <==>
            (forall i :: 0 <= i < |s| ==> s[i] != -0.0001) || Sum(Shift(s, DELTA)) == 0.0
  {
    PerturbedMean(s, headlineCost);
    ShiftLosesOpposites(s, DELTA);
    hide Times, Over;
    EqualQuotients(Sum(Shift(s, DELTA)), Actives(Shift(s, DELTA)) as real, Actives(s) as real);
  }

  lemma EqualQuotients(x: real, k: real, n: real)
    requires k > 0.0 && n > 0.0
    ensures Over(x, k) == Over(x, n) <==> k == n || x == 0.0
  {
    var p, q := x / k, x / n;
    assert p * k == x && q * n == x;
    assert p == q ==> p * (k - n) == 0.0;
    assert x == 0.0 ==> p == 0.0 && q == 0.0;
  }

  /** The three verdicts.  The third looks at the distance between the old mean and the new root, which
      is the move of the mean up to half the last bracket. */
  method VerifyIdentityDiscriminates(sqrt: real -> real, s: seq<real>, h: nat, headlineCost: real)
    returns (movesAsExpected: bool, stillAgrees: bool, rejected: bool)
    requires h > 0 && IsSqrt(sqrt)
    ensures movesAsExpected <==>
            Actives(s) > 0 && Actives(Shift(s, DELTA)) > 0 && -0.000000000001 < Slip(s) < 0.000000000001
    ensures stillAgrees <==> IsMeasurable(Shift(s, DELTA), headlineCost)
    ensures rejected ==> Actives(s) > 0 && stillAgrees
    ensures Actives(s) > 0 && stillAgrees ==>
              && Actives(Shift(s, DELTA)) > 0
              && (!IsWithin(0.0001 + Slip(s), 0.000000001 + Width(301)) ==> rejected)
              && (rejected ==> !IsWithin(0.0001 + Slip(s), 0.000000001 - Width(301)))
    ensures movesAsExpected && stillAgrees ==> rejected
  {
    hide Times, Over;
    var perturbed := Shift(s, DELTA);
    var gbar, root, agrees := VerifyIdentity(sqrt, s, h, headlineCost);
    var gbar', root', agrees' := VerifyIdentity(sqrt, perturbed, h, headlineCost);
    if Actives(s) > 0 && Actives(perturbed) > 0 {
      PerturbedMean(s, headlineCost);
    }
    movesAsExpected := gbar.Some? && gbar'.Some? && Near(gbar'.value - gbar.value, DELTA, AGREEMENT);
    stillAgrees := agrees';
    rejected := gbar.Some? && root'.Some? && !IsWithin(gbar.value - root'.value, REJECTION);
  }

  /** The check passes on every series whose two mean gross returns lie in the bracket, unless an entry
      is cancelled. */
  lemma NothingCancelledNoSlip(s: seq<real>)
    requires Actives(s) > 0 && forall i :: 0 <= i < |s| ==> s[i] != -DELTA
    ensures Actives(Shift(s, DELTA)) > 0 && Slip(s) == 0.0
  {
    ShiftLosesOpposites(s, DELTA);
  }

  /** A measurable series on which the check reports a failure although nothing is wrong: one of its
      entries is the opposite of the perturbation. */
  lemma CancelledEntryFailsTheCheck()
    ensures var s := [-DELTA, 0.01];
            IsMeasurable(s, 0.003) && IsMeasurable(Shift(s, DELTA), 0.003) && !Near(Slip(s), 0.0, AGREEMENT)
  {
    var s := [-DELTA, 0.01];
    assert Actives(s) == 2 by {
      assert Actives(s[1..]) == 1;
    }
    var t := Shift(s, DELTA);
    assert t == [0.0, 0.0101];
    assert Actives(t) == 1 by {
      assert Actives(t[1..]) == 1;
    }
    assert Sum(s) == 0.0099 by {
      assert Sum(s[1..]) == 0.01;
    }
    assert Sum(t) == 0.0101 by {
      assert Sum(t[1..]) == 0.0101;
    }
    MeanGrossIs(s, 0.003);
    MeanGrossIs(t, 0.003);
  }
}
