/** Contiguous ranges of equal segment id, as the feature script and the library compute them. */
module Segments {
  type Range = (nat, nat)

  /** A non-empty range of one id that could not be longer on either side. */
  ghost predicate IsMaximal(ids: seq<int>, r: Range) {
    && r.0 < r.1 <= |ids|
    && (forall t :: r.0 <= t < r.1 ==> ids[t] == ids[r.0])
    && (0 < r.0 ==> ids[r.0] != ids[r.0 - 1])
    && (r.1 < |ids| ==> ids[r.1] != ids[r.1 - 1])
  }

  /** The bounds cut [0, n) into maximal ranges, in order. */
  ghost predicate IsSegmentation(ids: seq<int>, bounds: seq<Range>) {
    && (ids == [] <==> bounds == [])
    && (bounds != [] ==> bounds[0].0 == 0 && bounds[|bounds| - 1].1 == |ids|)
    && (forall i :: 0 <= i < |bounds| ==> IsMaximal(ids, bounds[i]))
    && (forall i :: 0 < i < |bounds| ==> bounds[i - 1].1 == bounds[i].0)
  }

  // ------------------------------------------------------------------ the script's expression

  /** `np.flatnonzero(np.diff(ids) != 0) + 1`, up to index `n`. */
  function Cuts(ids: seq<int>, n: nat): seq<nat>
    requires n <= |ids|
  {
    if n <= 1 then []
    else Cuts(ids, n - 1) + (if ids[n - 1] != ids[n - 2] then [n - 1] else [])
  }

  function Edges(ids: seq<int>): seq<nat> {
    [0] + Cuts(ids, |ids|) + [|ids|]
  }

  /** The script's `segment_bounds`. */
  function ScriptBounds(ids: seq<int>): seq<Range> {
    var e := Edges(ids);
    seq(|e| - 1, i requires 0 <= i < |e| - 1 => (e[i], e[i + 1]))
  }

  /** The edges around the `k`-th range. */
  function Before(cs: seq<nat>, k: nat): nat
    requires k <= |cs|
  {
    if k == 0 then 0 else cs[k - 1]
  }

  function After(cs: seq<nat>, k: nat, n: nat): nat
    requires k <= |cs|
  {
    if k == |cs| then n else cs[k]
  }

  /** The cuts below `n` are exactly the places where the id changes, in order: `k` numbers them. */
  lemma {:induction false} CutsAreChanges(ids: seq<int>, n: nat)
    requires n <= |ids|
    ensures forall k :: 0 <= k < |Cuts(ids, n)| ==>
              0 < Cuts(ids, n)[k] < n && ids[Cuts(ids, n)[k]] != ids[Cuts(ids, n)[k] - 1]
    ensures forall k :: 0 <= k <= |Cuts(ids, n)| ==>
              Before(Cuts(ids, n), k) < After(Cuts(ids, n), k, n) || n == 0
    ensures forall k, t :: 0 <= k <= |Cuts(ids, n)| && Before(Cuts(ids, n), k) < t < After(Cuts(ids, n), k, n) ==>
              ids[t] == ids[t - 1]
  {
    if n > 1 {
      CutsAreChanges(ids, n - 1);
      var cs, cs' := Cuts(ids, n - 1), Cuts(ids, n);
      forall k | 0 <= k <= |cs'|
        ensures Before(cs', k) < After(cs', k, n)
        ensures forall t :: Before(cs', k) < t < After(cs', k, n) ==> ids[t] == ids[t - 1]
      {
        if k <= |cs| {
          assert Before(cs', k) == Before(cs, k);
          assert After(cs, k, n - 1) == if k == |cs| then n - 1 else After(cs', k, n);
        }
      }
    }
  }

  lemma {:induction false} SameIdBetweenCuts(ids: seq<int>, a: nat, t: nat)
    requires a <= t < |ids| && forall c :: a < c <= t ==> ids[c] == ids[c - 1]
    ensures ids[t] == ids[a]
    decreases t
  {
    if a < t {
      SameIdBetweenCuts(ids, a, t - 1);
    }
  }

  lemma ScriptRangeIsMaximal(ids: seq<int>, i: nat)
    requires ids != [] && i < |ScriptBounds(ids)|
    ensures IsMaximal(ids, ScriptBounds(ids)[i])
  {
    CutsAreChanges(ids, |ids|);
    var cs, r := Cuts(ids, |ids|), ScriptBounds(ids)[i];
    assert r.0 == Before(cs, i) && r.1 == After(cs, i, |ids|);
    forall t | r.0 <= t < r.1
      ensures ids[t] == ids[r.0]
    {
      SameIdBetweenCuts(ids, r.0, t);
    }
  }

  /** The script's expression gives the maximal ranges of every non-empty lake, and one empty range
      for the empty one. */
  lemma ScriptBoundsAreMaximal(ids: seq<int>)
    ensures ids != [] ==> IsSegmentation(ids, ScriptBounds(ids))
    ensures ids == [] ==> ScriptBounds(ids) == [(0, 0)]
  {
    if ids != [] {
      forall i | 0 <= i < |ScriptBounds(ids)|
        ensures IsMaximal(ids, ScriptBounds(ids)[i])
      {
        ScriptRangeIsMaximal(ids, i);
      }
    }
  }

  // ------------------------------------------------------------------ the library's loop

  lemma RangeCloses(ids: seq<int>, start: nat, i: nat)
    requires start < i <= |ids| && (start > 0 ==> ids[start] != ids[start - 1])
    requires (i < |ids| ==> ids[i] != ids[i - 1]) && forall t :: start <= t < i ==> ids[t] == ids[start]
    ensures IsMaximal(ids, (start, i))
  {
  }

  method SegmentBounds(ids: seq<int>) returns (bounds: seq<Range>)
    ensures IsSegmentation(ids, bounds)
  {
    hide IsMaximal;
    bounds := [];
    if |ids| == 0 {
      return;
    }
    var start := 0;
    for i := 1 to |ids|
      invariant start < i && (bounds == [] ==> start == 0)
      invariant bounds != [] ==> bounds[0].0 == 0 && bounds[|bounds| - 1].1 == start
      invariant start > 0 ==> ids[start] != ids[start - 1]
      invariant forall k :: 0 <= k < |bounds| ==> IsMaximal(ids, bounds[k])
      invariant forall k :: 0 < k < |bounds| ==> bounds[k - 1].1 == bounds[k].0
      invariant forall t :: start <= t < i ==> ids[t] == ids[start]
    {
      if ids[i] != ids[i - 1] {
        RangeCloses(ids, start, i);
        bounds := bounds + [(start, i)];
        start := i;
      }
    }
    RangeCloses(ids, start, |ids|);
    bounds := bounds + [(start, |ids|)];
  }

  // ------------------------------------------------------------------ there is only one segmentation

  lemma MaximalFromStart(ids: seq<int>, r: Range, q: Range)
    requires IsMaximal(ids, r) && IsMaximal(ids, q) && r.0 == q.0
    ensures r == q
  {
  }

  lemma {:induction false} RangesAgree(ids: seq<int>, a: seq<Range>, b: seq<Range>, i: nat)
    requires IsSegmentation(ids, a) && IsSegmentation(ids, b) && i < |a| && i < |b|
    ensures a[i] == b[i]
  {
    if i > 0 {
      RangesAgree(ids, a, b, i - 1);
    }
    MaximalFromStart(ids, a[i], b[i]);
  }

  lemma NotShorter(ids: seq<int>, a: seq<Range>, b: seq<Range>)
    requires IsSegmentation(ids, a) && IsSegmentation(ids, b)
    ensures |a| >= |b|
  {
    forall i | 0 <= i < |b| - 1
      ensures b[i].1 < |ids|
    {
      assert b[i].1 == b[i + 1].0 && IsMaximal(ids, b[i + 1]);
    }
    if a != [] && |a| < |b| {
      RangesAgree(ids, a, b, |a| - 1);
    }
  }

  /** There is only one segmentation: the script and the library agree on every non-empty lake. */
  lemma SegmentationIsUnique(ids: seq<int>, a: seq<Range>, b: seq<Range>)
    requires IsSegmentation(ids, a) && IsSegmentation(ids, b)
    ensures a == b
  {
    NotShorter(ids, a, b);
    NotShorter(ids, b, a);
    forall i | 0 <= i < |a|
      ensures a[i] == b[i]
    {
      RangesAgree(ids, a, b, i);
    }
  }

  /** Every bar lies in a range. */
  lemma {:induction false} EveryBarHasARange(ids: seq<int>, bounds: seq<Range>, t: nat, n: nat) returns (i: nat)
    requires IsSegmentation(ids, bounds) && 0 < n <= |bounds| && t < bounds[n - 1].1
    ensures i < n && bounds[i].0 <= t < bounds[i].1
    decreases n
  {
    if bounds[n - 1].0 <= t {
      i := n - 1;
    } else {
      i := EveryBarHasARange(ids, bounds, t, n - 1);
    }
  }

  /** And in only one. */
  lemma {:induction false} RangesAreOrdered(ids: seq<int>, bounds: seq<Range>, i: nat, j: nat)
    requires IsSegmentation(ids, bounds) && i < j < |bounds|
    ensures bounds[i].1 <= bounds[j].0
    decreases j
  {
    if i + 1 < j {
      RangesAreOrdered(ids, bounds, i, j - 1);
      assert IsMaximal(ids, bounds[j - 1]);
    }
  }
}
