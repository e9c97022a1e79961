/** The canary's training attempts with their spike rule, the halve-once restart, and the branch
    decision over two finished cells. */
module Canary {
  import opened Floats
  import opened Options

  const DETECT_TF := Fin(0.3)
  const DETECT_VAL_MARGIN := Fin(0.1)
  const FLAT_TF := Fin(0.05)
  const ARM_VAL_TOL := 0.1
  const MEMO_GAP := Fin(0.5)
  const DESC_NATS := Fin(0.05)
  const CAP_SPAN := 5000

  // ------------------------------------------------------------------ validation streams

  /** The validation losses of one attempt, by number of the evaluation. */
  type Stream = nat -> Float

  /** `best` before the `k`-th evaluation. */
  function Best(val: Stream, k: nat): Float {
    if k == 0 then PosInf else PyMin(Best(val, k - 1), val(k - 1))
  }

  /** `vl > best + spike_nats`. */
  predicate Spikes(val: Stream, margin: real, k: nat) {
    Less(Add(Best(val, k), Fin(margin)), val(k))
  }

  /** `best` is the least value so far, not-a-number aside. */
  lemma {:induction false} BestIsTheMinimum(val: Stream, k: nat)
    ensures !Best(val, k).NaN?
    ensures forall j :: 0 <= j < k ==> !Less(val(j), Best(val, k))
    ensures Best(val, k) == PosInf || exists j :: 0 <= j < k && val(j) == Best(val, k)
  {
    if k > 0 {
      BestIsTheMinimum(val, k - 1);
    }
  }

  /** A spike is a value above some earlier one by more than the margin. */
  lemma SpikeIsARise(val: Stream, margin: real, k: nat)
    ensures Spikes(val, margin, k) <==> exists j :: 0 <= j < k && Less(Add(val(j), Fin(margin)), val(k))
  {
    BestIsTheMinimum(val, k);
    if Spikes(val, margin, k) {
      var j :| 0 <= j < k && val(j) == Best(val, k);
    }
    forall j | 0 <= j < k && Less(Add(val(j), Fin(margin)), val(k))
      ensures Spikes(val, margin, k)
    {
    }
  }

  // ------------------------------------------------------------------ one attempt

  datatype Spike = Spike(step: nat, val: Float, best: Float)

  /** One entry of a trajectory; only the probed cell has a correlation. */
  datatype Entry = Entry(step: nat, val: Float, corr: Option<Float>)

  datatype Attempt = Attempt(aborted: bool, spikes: seq<Spike>, trajectory: seq<Entry>, final: Float, best: Float)

  /** Evaluations within the first `step` steps, one every `every`. */
  function Evals(step: nat, every: nat): nat
    requires every > 0
  {
    step / every
  }

  /** The step of the `k`-th evaluation. */
  function StepOf(k: nat, every: nat): nat {
    (k + 1) * every
  }

  lemma NextStep(step: nat, steps: nat, every: nat)
    requires every > 0 && step < steps
    ensures (step + 1) % every == 0 ==>
              Evals(step + 1, every) == Evals(step, every) + 1 <= Evals(steps, every)
                  && step + 1 == StepOf(Evals(step, every), every)
    ensures (step + 1) % every != 0 ==> Evals(step + 1, every) == Evals(step, every)
  {
    NextQuotient(step, every);
    QuotientGrows(step + 1, steps, every);
  }

  lemma NextQuotient(step: nat, every: nat)
    requires every > 0
    ensures (step + 1) % every == 0 ==> (step + 1) / every == step / every + 1 && step + 1 == (step / every + 1) * every
    ensures (step + 1) % every != 0 ==> (step + 1) / every == step / every
  {
    StepQuotient(step / every, step % every, (step + 1) / every, (step + 1) % every, every);
  }

  lemma StepQuotient(q: nat, r: nat, p: nat, s: nat, every: nat)
    requires r < every && s < every && q * every + r + 1 == p * every + s
    ensures if s == 0 then p == q + 1 else p == q
  {
    assert (p - q) * every == p * every - q * every;
    assert p - q >= 2 ==> (p - q - 2) * every >= 0;
    assert p - q <= -1 ==> (p - q + 1) * every <= 0;
  }

  lemma QuotientGrows(a: nat, b: nat, every: nat)
    requires every > 0 && a <= b
    ensures a / every <= b / every
  {
    QuotientOrder(a / every, b / every, a % every, b % every, every);
  }

  lemma QuotientOrder(p: nat, q: nat, r: nat, s: nat, every: nat)
    requires r < every && s < every && p * every + r <= q * every + s
    ensures p <= q
  {
    assert (p - q) * every == p * every - q * every;
    assert p > q ==> (p - q - 1) * every >= 0;
  }

  function Trajectory(val: Stream, corr: nat -> Option<Float>, every: nat, n: nat): seq<Entry> {
    seq(n, k requires 0 <= k < n => Entry(StepOf(k, every), val(k), corr(k)))
  }

  function SpikeAt(val: Stream, every: nat, k: nat): Spike {
    Spike(StepOf(k, every), val(k), Best(val, k))
  }

  /** The spikes among the first `n` evaluations, in order. */
  function SpikeList(val: Stream, margin: real, every: nat, n: nat): seq<Spike> {
    if n == 0 then []
    else if Spikes(val, margin, n - 1) then SpikeList(val, margin, every, n - 1) + [SpikeAt(val, every, n - 1)]
    else SpikeList(val, margin, every, n - 1)
  }

  lemma StepIs(k: nat, every: nat)
    ensures StepOf(k, every) == k * every + every
  {
  }

  /** The trajectory has an entry for every whole interval of steps, with the loss of that evaluation. */
  lemma EntriesAre(val: Stream, corr: nat -> Option<Float>, every: nat, n: nat, k: nat)
    requires k < n
    ensures |Trajectory(val, corr, every, n)| == n
    ensures Trajectory(val, corr, every, n)[k] == Entry(k * every + every, val(k), corr(k))
  {
    StepIs(k, every);
  }

  ghost predicate IsSpike(val: Stream, margin: real, every: nat, n: nat, spike: Spike) {
    exists k: nat :: k < n && Spikes(val, margin, k) && spike == Spike(k * every + every, val(k), Best(val, k))
  }

  lemma OneMoreSpike(val: Stream, margin: real, every: nat, n: nat, spike: Spike)
    ensures IsSpike(val, margin, every, n + 1, spike) <==>
            || IsSpike(val, margin, every, n, spike)
            || (Spikes(val, margin, n) && spike == SpikeAt(val, every, n))
  {
    StepIs(n, every);
    hide Spikes, Best, StepOf;
  }

  /** The spikes listed are exactly the evaluations more than the margin above some earlier one, each with
      its step, its loss and the least loss before it. */
  lemma {:induction false} SpikesAreListed(val: Stream, margin: real, every: nat, n: nat, spike: Spike)
    ensures spike in SpikeList(val, margin, every, n) <==> IsSpike(val, margin, every, n, spike)
  {
    hide Spikes, SpikeAt;
    if n > 0 {
      SpikesAreListed(val, margin, every, n - 1, spike);
      OneMoreSpike(val, margin, every, n - 1, spike);
      hide IsSpike;
    }
  }

  ghost predicate AreBefore(spikes: seq<Spike>, step: int) {
    forall i :: 0 <= i < |spikes| ==> spikes[i].step <= step
  }

  ghost predicate AreInOrder(spikes: seq<Spike>) {
    forall i, j :: 0 <= i < j < |spikes| ==> spikes[i].step < spikes[j].step
  }

  /** One entry a spike, in the order of their steps. */
  lemma {:induction false} SpikesInOrder(val: Stream, margin: real, every: nat, n: nat)
    requires every > 0
    ensures AreBefore(SpikeList(val, margin, every, n), n * every) && AreInOrder(SpikeList(val, margin, every, n))
  {
    hide Spikes, Best, StepOf;
    if n > 0 {
      SpikesInOrder(val, margin, every, n - 1);
      StepIs(n - 1, every);
      assert n * every == (n - 1) * every + every;
    }
  }

  predicate IsCalm(val: Stream, margin: real, n: nat) {
    forall k: nat :: k < n ==> !Spikes(val, margin, k)
  }

  /** The final loss of a complete attempt. */
  function LastOf(val: Stream, n: nat): Float {
    if n == 0 then NaN else val(n - 1)
  }

  /** The attempt stops at its first spike if it is to, and runs to the end otherwise. */
  method ArAttempt(steps: nat, every: nat, margin: real, val: Stream, corr: nat -> Option<Float>, abortOnSpike: bool)
    returns (r: Attempt)
    requires every > 0
    ensures var n := |r.trajectory|;
            && r.trajectory == Trajectory(val, corr, every, n) && r.spikes == SpikeList(val, margin, every, n)
            && (r.aborted ==>
                  abortOnSpike && 0 < n <= Evals(steps, every)
                  && IsCalm(val, margin, n - 1) && Spikes(val, margin, n - 1))
            && (!r.aborted ==> n == Evals(steps, every) && r.best == Best(val, n)
                               && r.final == LastOf(val, n))
            && (!r.aborted && abortOnSpike ==> IsCalm(val, margin, n))
    ensures !r.aborted ==> r.final == if r.trajectory == [] then NaN else r.trajectory[|r.trajectory| - 1].val
  {
    assert Evals(0, every) == 0;
    hide Evals, StepOf;
    var best := PosInf;
    var trajectory: seq<Entry>, spikes: seq<Spike> := [], [];
    for step := 0 to steps
      invariant |trajectory| == Evals(step, every) && trajectory == Trajectory(val, corr, every, |trajectory|)
      invariant best == Best(val, |trajectory|) && spikes == SpikeList(val, margin, every, |trajectory|)
      invariant abortOnSpike ==> IsCalm(val, margin, |trajectory|)
    {
      NextStep(step, steps, every);
      if (step + 1) % every == 0 {
        var k := |trajectory|;
        var vl := val(k);
        trajectory := trajectory + [Entry(step + 1, vl, corr(k))];
        assert trajectory == Trajectory(val, corr, every, k + 1);
        if Less(Add(best, Fin(margin)), vl) {
          spikes := spikes + [Spike(step + 1, vl, best)];
          if abortOnSpike {
            return Attempt(true, spikes, trajectory, NaN, best);
          }
        }
        best := PyMin(best, vl);
      }
    }
    var final := if trajectory == [] then NaN else trajectory[|trajectory| - 1].val;
    r := Attempt(false, spikes, trajectory, final, best);
  }

  // ------------------------------------------------------------------ the restart

  /** The attempts of one cell: at most two, the second only after a spike and on half the learning rate,
      which makes its own stream.  The first is cut exactly at its first spike, the last is complete. */
  method TrainCell(steps: nat, every: nat, margin: real, first: Stream, second: Stream, corr: nat -> Option<Float>)
    returns (attempts: seq<Attempt>)
    requires every > 0
    ensures 1 <= |attempts| <= 2
    ensures |attempts| == 1 <==> IsCalm(first, margin, Evals(steps, every))
    ensures |attempts| == 2 ==>
              var n := |attempts[0].trajectory|;
              n > 0 && Spikes(first, margin, n - 1) && IsCalm(first, margin, n - 1)
    ensures var last, val := attempts[|attempts| - 1], if |attempts| == 2 then second else first;
            && !last.aborted && last.trajectory == Trajectory(val, corr, every, Evals(steps, every))
            && last.final == LastOf(val, Evals(steps, every))
    ensures var last := attempts[|attempts| - 1];
            last.final == if last.trajectory == [] then NaN else last.trajectory[|last.trajectory| - 1].val
  {
    hide Evals, StepOf, Spikes, Trajectory, SpikeList;
    var a := ArAttempt(steps, every, margin, first, corr, true);
    attempts := [a];
    if a.aborted {
      var b := ArAttempt(steps, every, margin, second, corr, false);
      attempts := attempts + [b];
      assert attempts[|attempts| - 1] == b;
    }
  }

  // ------------------------------------------------------------------ the decision

  datatype Branch = Detect | FullStop | Extension | Inconclusive

  /** What the decision reads of a finished cell. */
  datatype Cell = Cell(trajectory: seq<Entry>, finalVal: Float, lastAborted: bool, memoGap: Float)

  predicate AtLeast(x: Float, y: Float) {
    !x.NaN? && !y.NaN? && !Less(x, y)
  }

  /** The correlations of the entries that have one. */
  function Corrs(t: seq<Entry>): (c: seq<Float>)
    ensures |c| <= |t|
  {
    if t == [] then []
    else match t[|t| - 1].corr
      case None => Corrs(t[..|t| - 1])
      case Some(c) => Corrs(t[..|t| - 1]) + [c]
  }

  predicate Crosses(tf: seq<Float>, i: nat)
    requires i + 1 < |tf|
  {
    AtLeast(tf[i], DETECT_TF) && AtLeast(tf[i + 1], DETECT_TF)
  }

  ghost predicate HasCrossing(tf: seq<Float>) {
    exists i: nat :: i + 1 < |tf| && Crosses(tf, i)
  }

  predicate IsFirstCrossing(tf: seq<Float>, i: nat) {
    i + 1 < |tf| && Crosses(tf, i) && forall j: nat :: j < i ==> !Crosses(tf, j)
  }

  /** The step of the first of the first two consecutive crossings. */
  method CrossStep(t: seq<Entry>) returns (cross: Option<nat>)
    ensures cross.Some? <==> HasCrossing(Corrs(t))
    ensures cross.Some? ==> exists i: nat :: IsFirstCrossing(Corrs(t), i) && cross.value == t[i].step
  {
    var tf := Corrs(t);
    var i: nat := 0;
    while i + 1 < |tf|
      invariant forall j: nat :: j < i && j + 1 < |tf| ==> !Crosses(tf, j)
    {
      if Crosses(tf, i) {
        assert IsFirstCrossing(tf, i);
        return Some(t[i].step);
      }
      i := i + 1;
    }
    return None;
  }

  predicate IsFlat(tf: seq<Float>) {
    tf != [] && forall i :: 0 <= i < |tf| ==> Less(tf[i], FLAT_TF)
  }

  predicate AreClose(x: Float, y: Float) {
    x.Fin? && y.Fin? && -ARM_VAL_TOL < x.r - y.r < ARM_VAL_TOL
  }

  function Back(every: nat): nat
    requires every > 0
  {
    if CAP_SPAN / every >= 1 then CAP_SPAN / every else 1
  }

  predicate DescendsAtCap(t: seq<Entry>, every: nat)
    requires every > 0
  {
    |t| > Back(every) && Less(t[|t| - 1].val, Sub(t[|t| - 1 - Back(every)].val, DESC_NATS))
  }

  ghost predicate IsA(planted: Cell, noise: Cell) {
    && HasCrossing(Corrs(planted.trajectory))
    && Less(planted.finalVal, Sub(noise.finalVal, DETECT_VAL_MARGIN))
  }

  predicate IsB(planted: Cell, noise: Cell, subEpochHolds: bool) {
    && !(planted.lastAborted || noise.lastAborted)
    && IsFlat(Corrs(planted.trajectory)) && AreClose(planted.finalVal, noise.finalVal)
    && subEpochHolds && Less(planted.memoGap, MEMO_GAP) && Less(noise.memoGap, MEMO_GAP)
  }

  method Stage1Decision(planted: Cell, noise: Cell, subEpochHolds: bool, every: nat)
    returns (branch: Branch, cross: Option<nat>)
    requires every > 0
    ensures branch == Detect <==> IsA(planted, noise)
    ensures branch == FullStop <==> IsB(planted, noise, subEpochHolds)
    ensures branch == Extension <==>
              && (DescendsAtCap(planted.trajectory, every) || DescendsAtCap(noise.trajectory, every))
              && !IsA(planted, noise) && !IsB(planted, noise, subEpochHolds)
    ensures cross.Some? <==> HasCrossing(Corrs(planted.trajectory))
    ensures cross.Some? ==>
              exists i: nat :: IsFirstCrossing(Corrs(planted.trajectory), i)
                  && cross.value == planted.trajectory[i].step
  {
    var tf := Corrs(planted.trajectory);
    cross := CrossStep(planted.trajectory);
    var complete := !(planted.lastAborted || noise.lastAborted);
    var noMemo := subEpochHolds && Less(planted.memoGap, MEMO_GAP) && Less(noise.memoGap, MEMO_GAP);
    var a := cross.Some? && Less(planted.finalVal, Sub(noise.finalVal, DETECT_VAL_MARGIN));
    var b := complete && IsFlat(tf) && AreClose(planted.finalVal, noise.finalVal) && noMemo;
    var c := (DescendsAtCap(planted.trajectory, every) || DescendsAtCap(noise.trajectory, every)) && !a && !b;
    branch := if a then Detect else if b then FullStop else if c then Extension else Inconclusive;
    NeverBoth(planted, noise, subEpochHolds);
  }

  /** Detection in numbers: two probed correlations in a row at 0.3 or more, and a final loss below the
      noise cell's by more than 0.1.  A loss that is not a number never detects anything. */
  lemma DetectionIs(planted: Cell, noise: Cell)
    ensures planted.finalVal.Fin? && noise.finalVal.Fin? ==>
              (IsA(planted, noise) <==>
                 && HasCrossing(Corrs(planted.trajectory))
                 && noise.finalVal.r - planted.finalVal.r > 0.1)
    ensures planted.finalVal.NaN? || noise.finalVal.NaN? ==> !IsA(planted, noise)
    ensures forall tf: seq<Float>, i: nat :: i + 1 < |tf| && tf[i].Fin? && tf[i + 1].Fin? ==>
              (Crosses(tf, i) <==> tf[i].r >= 0.3 && tf[i + 1].r >= 0.3)
  {
  }

  /** A cell still descends at the cap exactly when its last loss is below the one before the span by more
      than 0.05 nats; with too few entries or a loss that is not a number it does not. */
  lemma DescentIs(t: seq<Entry>, every: nat)
    requires every > 0
    ensures |t| <= Back(every) ==> !DescendsAtCap(t, every)
    ensures |t| > Back(every) ==>
              var last, before := t[|t| - 1].val, t[|t| - 1 - Back(every)].val;
              && (last.Fin? && before.Fin? ==> (DescendsAtCap(t, every) <==> before.r - last.r > 0.05))
              && (last.NaN? || before.NaN? ==> !DescendsAtCap(t, every))
  {
  }

  /** The full stop in numbers: complete schedules, every probed correlation below 0.05, final losses
      within 0.1 of each other, the sub-epoch condition, and both gaps below 0.5. */
  lemma FullStopIs(planted: Cell, noise: Cell, subEpochHolds: bool)
    requires planted.memoGap.Fin? && noise.memoGap.Fin?
    ensures IsB(planted, noise, subEpochHolds) <==>
            && !planted.lastAborted && !noise.lastAborted && subEpochHolds
            && planted.memoGap.r < 0.5 && noise.memoGap.r < 0.5
            && planted.finalVal.Fin? && noise.finalVal.Fin? && -0.1 < planted.finalVal.r - noise.finalVal.r < 0.1
            && Corrs(planted.trajectory) != []
            && forall i :: 0 <= i < |Corrs(planted.trajectory)| ==> Less(Corrs(planted.trajectory)[i], Fin(0.05))
  {
  }

  /** The two verdicts exclude each other, so neither hides the other. */
  lemma NeverBoth(planted: Cell, noise: Cell, subEpochHolds: bool)
    ensures !(IsA(planted, noise) && IsB(planted, noise, subEpochHolds))
  {
    if IsFlat(Corrs(planted.trajectory)) {
      forall i: nat | i + 1 < |Corrs(planted.trajectory)|
        ensures !Crosses(Corrs(planted.trajectory), i)
      {
      }
    }
  }

  /** The clause about a complete schedule never decides anything: the last attempt of a trained cell is
      never an aborted one. */
  method DecideOnTrainedCells(steps: nat, every: nat, margin: real, planted1: Stream, planted2: Stream,
                              noise1: Stream, noise2: Stream, corr: nat -> Option<Float>, memoPlanted: Float,
                              memoNoise: Float, subEpochHolds: bool)
    returns (branch: Branch, planted: Cell, noise: Cell)
    requires every > 0
    ensures !planted.lastAborted && !noise.lastAborted
    ensures |planted.trajectory| == |noise.trajectory| == Evals(steps, every)
    ensures branch == FullStop <==>
              IsFlat(Corrs(planted.trajectory)) && AreClose(planted.finalVal, noise.finalVal) && subEpochHolds
              && Less(memoPlanted, MEMO_GAP) && Less(memoNoise, MEMO_GAP)
    ensures steps < every ==> branch == Inconclusive
  {
    assert steps < every ==> Evals(steps, every) == 0;
    hide Evals, IsCalm, Spikes, IsFlat, AreClose, IsA, DescendsAtCap;
    var p := TrainCell(steps, every, margin, planted1, planted2, corr);
    var n := TrainCell(steps, every, margin, noise1, noise2, _ => None);
    var lastP, lastN := p[|p| - 1], n[|n| - 1];
    planted := Cell(lastP.trajectory, lastP.final, lastP.aborted, memoPlanted);
    noise := Cell(lastN.trajectory, lastN.final, lastN.aborted, memoNoise);
    var cross;
    branch, cross := Stage1Decision(planted, noise, subEpochHolds, every);
    if steps < every {
      NothingWithoutEvaluations(planted, noise, subEpochHolds, every);
    }
  }

  lemma NothingWithoutEvaluations(planted: Cell, noise: Cell, subEpochHolds: bool, every: nat)
    requires every > 0 && planted.trajectory == [] && noise.trajectory == []
    ensures !IsA(planted, noise) && !IsB(planted, noise, subEpochHolds)
    ensures !DescendsAtCap(planted.trajectory, every) && !DescendsAtCap(noise.trajectory, every)
  {
  }

  /** When every entry is probed the reported step is that of the crossing itself. */
  lemma {:induction false} CorrsOfProbed(t: seq<Entry>, i: nat)
    requires (forall e :: e in t ==> e.corr.Some?) && i < |t|
    ensures |Corrs(t)| == |t| && t[i].corr == Some(Corrs(t)[i])
  {
    var t', last := t[..|t| - 1], t[|t| - 1];
    assert last in t;
    assert forall e :: e in t' ==> e in t;
    if i < |t| - 1 {
      CorrsOfProbed(t', i);
    } else if t' != [] {
      CorrsOfProbed(t', 0);
    }
  }

  /** The span that "the last 5,000 steps" really is: whole evaluations, never more than 5,000 steps
      unless one evaluation is, and exactly 5,000 only when the interval divides it. */
  lemma CapSpan(t: seq<Entry>, val: Stream, corr: nat -> Option<Float>, every: nat)
    requires every > 0 && t == Trajectory(val, corr, every, |t|) && |t| > Back(every)
    ensures var span := t[|t| - 1].step - t[|t| - 1 - Back(every)].step;
            && span == Back(every) * every
            && (every <= 5000 ==> 5000 - every < span <= 5000)
            && (every > 5000 ==> span == every)
            && (span == 5000 <==> 5000 % every == 0)
  {
    assert t[|t| - 1].step == StepOf(|t| - 1, every);
    assert t[|t| - 1 - Back(every)].step == StepOf(|t| - 1 - Back(every), every);
    SpanBounds(every);
    SpanOf(|t| - 1, Back(every), every);
    hide StepOf, Back, Trajectory;
  }

  lemma SpanOf(k: nat, b: nat, every: nat)
    requires b <= k
    ensures StepOf(k, every) - StepOf(k - b, every) == b * every
  {
    assert (k - b + 1) * every + b * every == (k + 1) * every;
  }

  lemma SpanBounds(every: nat)
    requires every > 0
    ensures every <= CAP_SPAN ==> CAP_SPAN - every < Back(every) * every <= CAP_SPAN
    ensures every > CAP_SPAN ==> Back(every) == 1
    ensures Back(every) * every == CAP_SPAN <==> CAP_SPAN % every == 0
  {
    var q, r := CAP_SPAN / every, CAP_SPAN % every;
    assert CAP_SPAN == q * every + r;
    assert q >= 1 <==> every <= CAP_SPAN by {
      assert q >= 1 ==> (q - 1) * every >= 0;
    }
  }
}
