/** Forward-return labels: prefix sums inside a segment, and what they really depend on. */
module ForwardReturns {
  import opened Floats
  import opened Segments

  // ------------------------------------------------------------------ the labels

  /** `np.cumsum(raw[s0:s1])[i]`, as an index into the lake: the sum of bars s0..t. */
  function CumSum(raw: seq<Float>, s0: nat, t: nat): Float
    requires s0 <= t < |raw|
    decreases t
  {
    if t == s0 then raw[s0] else Add(CumSum(raw, s0, t - 1), raw[t])
  }

  /** What the script stores for bar `t` of the segment starting at `s0`. */
  function Label(raw: seq<Float>, s0: nat, t: nat, h: nat): Float
    requires 1 <= h && s0 <= t && t + h < |raw|
  {
    if h == 1 then raw[t + 1] else Sub(CumSum(raw, s0, t + h), CumSum(raw, s0, t + 1))
  }

  /** What the label means: the return over the bars after entry, from nothing at or before `t`. */
  function Window(raw: seq<Float>, a: nat, n: nat): Float
    requires a + n <= |raw|
  {
    if n == 0 then Fin(0.0) else Add(Window(raw, a, n - 1), raw[a + n - 1])
  }

  function Meant(raw: seq<Float>, t: nat, h: nat): Float
    requires 1 <= h && t + h < |raw|
  {
    if h == 1 then raw[t + 1] else Window(raw, t + 2, h - 1)
  }

  ghost predicate FiniteOn(raw: seq<Float>, a: nat, b: nat) {
    forall t :: a <= t < b && t < |raw| ==> IsFinite(raw[t])
  }

  // ------------------------------------------------------------------ the loop

  /** Bar `t` has been given its entry of the range `r`. */
  ghost predicate Labelled(raw: seq<Float>, r: Range, h: nat, t: nat, y: Float, valid: bool)
    requires 1 <= h && r.0 <= t < r.1 <= |raw|
  {
    && (valid <==> t + h < r.1)
    && y == if t + h < r.1 then Label(raw, r.0, t, h) else NaN
  }

  method ForwardReturnLabels(raw: seq<Float>, ids: seq<int>, bounds: seq<Range>, h: nat)
    returns (y: array<Float>, valid: array<bool>)
    requires 1 <= h && |ids| == |raw| && (IsSegmentation(ids, bounds) || (ids == [] && bounds == [(0, 0)]))
    ensures y.Length == valid.Length == |raw| && fresh(y) && fresh(valid)
    ensures forall i, t :: 0 <= i < |bounds| && bounds[i].0 <= t < bounds[i].1 ==>
              Labelled(raw, bounds[i], h, t, y[t], valid[t])
  {
    hide Label, Labelled;
    forall i, k | 0 <= i < k < |bounds|
      ensures bounds[i].1 <= bounds[k].0
    {
      RangesAreOrdered(ids, bounds, i, k);
    }
    y := new Float[|raw|](_ => NaN);
    valid := new bool[|raw|](_ => false);
    for k := 0 to |bounds|
      invariant forall i, t :: 0 <= i < k && bounds[i].0 <= t < bounds[i].1 ==>
                  Labelled(raw, bounds[i], h, t, y[t], valid[t])
      invariant forall t :: Reached(bounds, k, |raw|) <= t < |raw| ==> y[t] == NaN && !valid[t]
    {
      var (s0, s1) := bounds[k];
      FillRange(raw, (s0, s1), h, y, valid);
    }
  }

  function Reached(bounds: seq<Range>, k: nat, n: nat): nat
    requires k <= |bounds|
  {
    if k == |bounds| then n else bounds[k].0
  }

  method FillRange(raw: seq<Float>, r: Range, h: nat, y: array<Float>, valid: array<bool>)
    requires 1 <= h && r.0 <= r.1 <= |raw| == y.Length == valid.Length
    requires forall t :: r.0 <= t < r.1 ==> y[t] == NaN && !valid[t]
    modifies y, valid
    ensures forall t :: r.0 <= t < r.1 ==> Labelled(raw, r, h, t, y[t], valid[t])
    ensures forall t :: 0 <= t < |raw| && !(r.0 <= t < r.1) ==> y[t] == old(y[t]) && valid[t] == old(valid[t])
  {
    var clp := PrefixSums(raw, r);
    var segN := r.1 - r.0;
    var last := segN - h;
    var p := 0;
    while p < last
      invariant 0 <= p <= segN && (p == 0 || p <= last)
      invariant forall t :: r.0 <= t < r.0 + p ==> Labelled(raw, r, h, t, y[t], valid[t])
      invariant forall t :: r.0 + p <= t < r.1 ==> y[t] == NaN && !valid[t]
      invariant forall t :: 0 <= t < |raw| && !(r.0 <= t < r.1) ==> y[t] == old(y[t]) && valid[t] == old(valid[t])
    {
      y[r.0 + p] := if h == 1 then raw[r.0 + p + 1] else Sub(clp[p + h], clp[p + 1]);
      valid[r.0 + p] := true;
      p := p + 1;
    }
  }

  method PrefixSums(raw: seq<Float>, r: Range) returns (clp: seq<Float>)
    requires r.0 <= r.1 <= |raw|
    ensures |clp| == r.1 - r.0 && forall i :: 0 <= i < |clp| ==> clp[i] == CumSum(raw, r.0, r.0 + i)
  {
    clp := [];
    while |clp| < r.1 - r.0
      invariant |clp| <= r.1 - r.0
      invariant forall i :: 0 <= i < |clp| ==> clp[i] == CumSum(raw, r.0, r.0 + i)
    {
      clp := clp + [if clp == [] then raw[r.0] else Add(clp[|clp| - 1], raw[r.0 + |clp|])];
    }
  }

  // ------------------------------------------------------------------ what a label depends on

  lemma {:induction false} FiniteCumSum(raw: seq<Float>, s0: nat, t: nat)
    requires s0 <= t < |raw|
    ensures CumSum(raw, s0, t).Fin? <==> FiniteOn(raw, s0, t + 1)
    decreases t
  {
    if t > s0 {
      FiniteCumSum(raw, s0, t - 1);
      assert FiniteOn(raw, s0, t + 1) <==> FiniteOn(raw, s0, t) && IsFinite(raw[t]);
    }
  }

  /** A running sum, less a finite start, is the sum of what was added since. */
  lemma {:induction false} SumSince(raw: seq<Float>, s0: nat, t: nat, n: nat)
    requires s0 <= t && t + n < |raw| && CumSum(raw, s0, t).Fin?
    ensures Sub(CumSum(raw, s0, t + n), CumSum(raw, s0, t)) == Window(raw, t + 1, n)
    ensures CumSum(raw, s0, t + n) == Add(CumSum(raw, s0, t), Window(raw, t + 1, n))
    decreases n
  {
    if n > 0 {
      SumSince(raw, s0, t, n - 1);
    }
  }

  /** A running sum that has left the finite numbers never comes back, and an infinite one less
      itself is not a number. */
  lemma {:induction false} LostSums(raw: seq<Float>, s0: nat, t: nat, n: nat)
    requires s0 <= t && t + n < |raw| && !CumSum(raw, s0, t).Fin?
    ensures CumSum(raw, s0, t + n) == CumSum(raw, s0, t) || CumSum(raw, s0, t + n) == NaN
    decreases n
  {
    if n > 0 {
      LostSums(raw, s0, t, n - 1);
    }
  }

  /** The stored label, for every horizon beyond one: the meant one, or nothing. */
  lemma LabelIs(raw: seq<Float>, s0: nat, t: nat, h: nat)
    requires 1 < h && s0 <= t && t + h < |raw|
    ensures Label(raw, s0, t, h) == if FiniteOn(raw, s0, t + 2) then Meant(raw, t, h) else NaN
  {
    FiniteCumSum(raw, s0, t + 1);
    if CumSum(raw, s0, t + 1).Fin? {
      SumSince(raw, s0, t + 1, h - 1);
    } else {
      LostSums(raw, s0, t + 1, h - 1);
    }
  }

  /** Exactly when the prefix sum gives the meant label: the bars of the segment up to `t + 1`, which
      it reads although the label is not about them, are all finite, or the label is not a number
      anyway.  With horizon one no prefix sum is used. */
  lemma LabelIsMeantExactly(raw: seq<Float>, s0: nat, t: nat, h: nat)
    requires 1 <= h && s0 <= t && t + h < |raw|
    ensures Label(raw, s0, t, h) == Meant(raw, t, h) <==>
            h == 1 || FiniteOn(raw, s0, t + 2) || Meant(raw, t, h).NaN?
  {
    if h > 1 {
      LabelIs(raw, s0, t, h);
    }
  }

  /** The sum of numbers. */
  function RealSum(raw: seq<Float>, a: nat, n: nat): real
    requires a + n <= |raw| && FiniteOn(raw, a, a + n)
  {
    if n == 0 then 0.0 else RealSum(raw, a, n - 1) + raw[a + n - 1].r
  }

  lemma {:induction false} WindowIsASum(raw: seq<Float>, a: nat, n: nat)
    requires a + n <= |raw| && FiniteOn(raw, a, a + n)
    ensures Window(raw, a, n) == Fin(RealSum(raw, a, n))
  {
    if n > 0 {
      WindowIsASum(raw, a, n - 1);
    }
  }

  /** Over finite data the label is a number: the sum of the returns of bars `t + 2` to `t + h`, or the next
      return. */
  lemma LabelIsASum(raw: seq<Float>, s0: nat, t: nat, h: nat)
    requires 1 <= h && s0 <= t && t + h < |raw| && FiniteOn(raw, s0, t + h + 1)
    ensures Label(raw, s0, t, h) == if h == 1 then raw[t + 1] else Fin(RealSum(raw, t + 2, h - 1))
  {
    if h > 1 {
      LabelIs(raw, s0, t, h);
      WindowIsASum(raw, t + 2, h - 1);
    }
  }

  lemma {:induction false} WindowReads(raw: seq<Float>, raw': seq<Float>, a: nat, n: nat)
    requires |raw| == |raw'| && a + n <= |raw| && forall t :: a <= t < a + n ==> raw[t] == raw'[t]
    ensures Window(raw, a, n) == Window(raw', a, n)
    decreases n
  {
    if n > 0 {
      WindowReads(raw, raw', a, n - 1);
    }
  }

  /** No look-back and no look-ahead: over finite data a label is unchanged by any edit to the bars
      up to and including `t` (and `t + 1`, when the horizon is longer than one), or after `t + h`. */
  lemma LabelIgnoresThePast(raw: seq<Float>, raw': seq<Float>, s0: nat, t: nat, h: nat)
    requires 1 <= h && s0 <= t && t + h < |raw| == |raw'|
    requires FiniteOn(raw, s0, t + 2) && FiniteOn(raw', s0, t + 2)
    requires forall k :: t + (if h == 1 then 1 else 2) <= k <= t + h ==> raw[k] == raw'[k]
    ensures Label(raw, s0, t, h) == Label(raw', s0, t, h)
  {
    LabelIsMeantExactly(raw, s0, t, h);
    LabelIsMeantExactly(raw', s0, t, h);
    if h > 1 {
      WindowReads(raw, raw', t + 2, h - 1);
    }
  }

  /** And over any data, exactly when an edit outside the bars of the label leaves it unchanged: when
      both or neither segment are finite up to `t + 1`, or the label is not a number anyway. */
  lemma EditsKeepLabelExactly(raw: seq<Float>, raw': seq<Float>, s0: nat, t: nat, h: nat)
    requires 1 <= h && s0 <= t && t + h < |raw| == |raw'|
    requires forall k :: t + (if h == 1 then 1 else 2) <= k <= t + h ==> raw[k] == raw'[k]
    ensures Label(raw, s0, t, h) == Label(raw', s0, t, h) <==>
            h == 1 || (FiniteOn(raw, s0, t + 2) <==> FiniteOn(raw', s0, t + 2)) || Meant(raw, t, h).NaN?
  {
    if h > 1 {
      LabelIs(raw, s0, t, h);
      LabelIs(raw', s0, t, h);
      WindowReads(raw, raw', t + 2, h - 1);
    }
  }

  /** Without that proviso the promise fails: a missing value two bars before `t` is no input of the
      label, and still destroys it. */
  lemma MissingPastDestroysLabel()
    ensures var one := Fin(1.0);
            && Meant([NaN, one, one, one, one], 2, 2) == one
            && Label([NaN, one, one, one, one], 0, 2, 2) == NaN
  {
    var raw := [NaN, Fin(1.0), Fin(1.0), Fin(1.0), Fin(1.0)];
    FiniteCumSum(raw, 0, 0);
    LostSums(raw, 0, 0, 3);
    LostSums(raw, 0, 0, 4);
    assert Window(raw, 4, 0) == Fin(0.0);
    assert Window(raw, 4, 1) == Add(Fin(0.0), raw[4]);
  }
}
