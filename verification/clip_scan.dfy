/** The run-length queries of the clip scan over one segment, its rows in the order of their opening
    times, against direct scans. */
module ClipScan {
  import opened Floats
  import opened Normalization
  import opened Options

  predicate IsHit(v: Float) {
    v == LOW
  }

  predicate AllHits(x: seq<Float>, a: nat, b: nat)
    requires b <= |x|
  {
    forall t :: a <= t < b ==> IsHit(x[t])
  }

  /** A run that could not be longer on either side. */
  predicate IsMaximalRun(x: seq<Float>, a: nat, b: nat) {
    && a < b <= |x| && AllHits(x, a, b)
    && (a > 0 ==> !IsHit(x[a - 1]))
    && (b < |x| ==> !IsHit(x[b]))
  }

  // ------------------------------------------------------------------ row numbers

  /** Hits among the first `n` rows. */
  function Hits(x: seq<Float>, n: nat): (h: nat)
    requires n <= |x|
    ensures h <= n
  {
    if n == 0 then 0 else Hits(x, n - 1) + (if IsHit(x[n - 1]) then 1 else 0)
  }

  /** Numbered over all rows. */
  function RnAll(t: nat): nat {
    t + 1
  }

  /** Numbered over the hits. */
  function RnHit(x: seq<Float>, t: nat): nat
    requires t < |x|
  {
    Hits(x, t + 1)
  }

  /** One group of the island query: the hits with one value of `rn_all - rn_hit`. */
  function Island(x: seq<Float>, key: int): set<nat> {
    set t: nat | t < |x| && IsHit(x[t]) && RnAll(t) - RnHit(x, t) == key
  }

  function Key(x: seq<Float>, t: nat): int
    requires t < |x|
  {
    RnAll(t) - RnHit(x, t)
  }

  // ------------------------------------------------------------------ islands are runs

  /** Between two row counts, all rows are hits exactly when the hits grow as fast as the rows. */
  lemma {:induction false} HitsBetween(x: seq<Float>, a: nat, b: nat)
    requires a <= b <= |x|
    ensures Hits(x, b) - Hits(x, a) <= b - a
    ensures Hits(x, b) - Hits(x, a) == b - a <==> AllHits(x, a, b)
    ensures Hits(x, b) >= Hits(x, a)
    decreases b
  {
    if a < b {
      HitsBetween(x, a, b - 1);
    }
  }

  /** Two hits fall into one group exactly when nothing but hits lies between them. */
  lemma SameIsland(x: seq<Float>, s: nat, t: nat)
    requires s <= t < |x| && IsHit(x[s]) && IsHit(x[t])
    ensures Key(x, s) == Key(x, t) <==> AllHits(x, s, t + 1)
  {
    HitsBetween(x, s + 1, t + 1);
  }

  lemma {:induction false} RunAround(x: seq<Float>, t: nat) returns (a: nat, b: nat)
    requires t < |x| && IsHit(x[t])
    ensures a <= t < b && IsMaximalRun(x, a, b)
  {
    a, b := t, t + 1;
    while a > 0 && IsHit(x[a - 1])
      invariant a <= t && AllHits(x, a, t + 1)
    {
      a := a - 1;
    }
    while b < |x| && IsHit(x[b])
      invariant t < b <= |x| && AllHits(x, a, b)
    {
      b := b + 1;
    }
  }

  /** The group of a hit is exactly the maximal run around it. */
  lemma IslandIsTheRun(x: seq<Float>, t: nat, a: nat, b: nat)
    requires a <= t < b && IsMaximalRun(x, a, b)
    ensures Island(x, Key(x, t)) == Interval(a, b)
    ensures |Island(x, Key(x, t))| == b - a
  {
    forall s: nat | s < |x| && IsHit(x[s])
      ensures Key(x, s) == Key(x, t) <==> a <= s < b
    {
      if s <= t {
        SameIsland(x, s, t);
      } else {
        SameIsland(x, t, s);
      }
    }
  }

  /** The rows from `a` to before `b`. */
  function Interval(a: nat, b: nat): (rows: set<nat>)
    requires a <= b
    ensures (forall t :: t in rows <==> a <= t < b) && |rows| == b - a
    decreases b
  {
    if a == b then {} else Interval(a, b - 1) + {b - 1}
  }

  // ------------------------------------------------------------------ the longest run

  /** What the query's first row reports: the size of a largest group; no row without a hit. */
  ghost predicate IsLargestIsland(x: seq<Float>, reported: Option<nat>) {
    match reported
    case None => forall t :: 0 <= t < |x| ==> !IsHit(x[t])
    case Some(run) =>
      && (exists t :: 0 <= t < |x| && IsHit(x[t]) && |Island(x, Key(x, t))| == run)
      && (forall t :: 0 <= t < |x| && IsHit(x[t]) ==> |Island(x, Key(x, t))| <= run)
  }

  ghost predicate IsLongest(x: seq<Float>, best: nat) {
    && (exists a: nat, b: nat :: a <= b <= |x| && AllHits(x, a, b) && b - a == best)
    && (forall a: nat, b: nat :: a <= b <= |x| && AllHits(x, a, b) ==> b - a <= best)
  }

  /** The direct scan. */
  method LongestRun(x: seq<Float>) returns (best: nat)
    ensures IsLongest(x, best)
  {
    best := 0;
    var run := 0;
    ghost var at: nat := 0;
    for i := 0 to |x|
      invariant run <= i && AllHits(x, i - run, i)
      invariant run < i ==> !IsHit(x[i - run - 1])
      invariant at + best <= i && AllHits(x, at, at + best)
      invariant run <= best
      invariant forall a: nat, b: nat :: a <= b <= i && AllHits(x, a, b) ==> b - a <= best
    {
      if IsHit(x[i]) {
        run := run + 1;
      } else {
        run := 0;
      }
      if run > best {
        best, at := run, i + 1 - run;
      }
      assert run < i + 1 ==> !IsHit(x[i - run]);
    }
  }

  lemma IslandIsARun(x: seq<Float>, t: nat) returns (a: nat, b: nat)
    requires t < |x| && IsHit(x[t])
    ensures a <= t < b <= |x| && AllHits(x, a, b) && |Island(x, Key(x, t))| == b - a
  {
    a, b := RunAround(x, t);
    IslandIsTheRun(x, t, a, b);
  }

  lemma FitsTheIsland(x: seq<Float>, a: nat, b: nat)
    requires a < b <= |x| && AllHits(x, a, b)
    ensures IsHit(x[a]) && |Island(x, Key(x, a))| >= b - a
  {
    assert IsHit(x[a]);
    var lo, hi := RunAround(x, a);
    IslandIsTheRun(x, a, lo, hi);
  }

  lemma LargestIsNoLonger(x: seq<Float>, run: nat, best: nat)
    requires IsLargestIsland(x, Some(run)) && IsLongest(x, best)
    ensures 0 < run <= best
  {
    hide Island;
    var t: nat :| t < |x| && IsHit(x[t]) && |Island(x, Key(x, t))| == run;
    var a, b := IslandIsARun(x, t);
  }

  lemma LargestIsNoShorter(x: seq<Float>, run: nat, best: nat)
    requires IsLargestIsland(x, Some(run)) && IsLongest(x, best)
    ensures best <= run
  {
    hide Island;
    var a: nat, b: nat :| a <= b <= |x| && AllHits(x, a, b) && b - a == best;
    if a < b {
      FitsTheIsland(x, a, b);
    }
  }

  /** The query and the scan agree on every segment. */
  lemma LargestIslandIsTheLongestRun(x: seq<Float>, reported: Option<nat>, best: nat)
    requires IsLargestIsland(x, reported) && IsLongest(x, best)
    ensures reported == if best == 0 then None else Some(best)
  {
    var a: nat, b: nat :| a <= b <= |x| && AllHits(x, a, b) && b - a == best;
    assert a < b ==> IsHit(x[a]);
    match reported
    case None =>
    case Some(run) =>
      LargestIsNoLonger(x, run, best);
      LargestIsNoShorter(x, run, best);
  }

  // ------------------------------------------------------------------ runs and counts

  /** The hits are one contiguous block. */
  ghost predicate IsOneBlock(x: seq<Float>) {
    exists a: nat, b: nat :: a <= b <= |x| && AllHits(x, a, b) && forall t :: 0 <= t < |x| && IsHit(x[t]) ==> a <= t < b
  }

  lemma {:induction false} NoHitsNoCount(x: seq<Float>, a: nat, b: nat)
    requires a <= b <= |x| && forall t :: a <= t < b ==> !IsHit(x[t])
    ensures Hits(x, a) == Hits(x, b)
    decreases b
  {
    if a < b {
      NoHitsNoCount(x, a, b - 1);
    }
  }

  lemma {:induction false} CountIsExact(x: seq<Float>, a: nat, b: nat)
    requires a <= b <= |x| && Hits(x, a) == Hits(x, b)
    ensures forall t :: a <= t < b ==> !IsHit(x[t])
    decreases b
  {
    if a < b {
      HitsBetween(x, a, b - 1);
      CountIsExact(x, a, b - 1);
    }
  }

  /** The invariant the script asserts: a run never exceeds the count, and reaches it exactly when the
      hits are one block. */
  lemma RunIsAtMostTheCount(x: seq<Float>, best: nat)
    requires IsLongest(x, best)
    ensures best <= Hits(x, |x|)
    ensures best == Hits(x, |x|) <==> IsOneBlock(x)
  {
    var a: nat, b: nat :| a <= b <= |x| && AllHits(x, a, b) && b - a == best;
    HitsBetween(x, 0, a);
    HitsBetween(x, a, b);
    HitsBetween(x, b, |x|);
    if best == Hits(x, |x|) {
      CountIsExact(x, 0, a);
      CountIsExact(x, b, |x|);
      assert AllHits(x, a, b) && forall t :: 0 <= t < |x| && IsHit(x[t]) ==> a <= t < b;
    }
    if IsOneBlock(x) {
      var c: nat, d: nat :| c <= d <= |x| && AllHits(x, c, d) && forall t :: 0 <= t < |x| && IsHit(x[t]) ==> c <= t < d;
      NoHitsNoCount(x, 0, c);
      NoHitsNoCount(x, d, |x|);
      HitsBetween(x, c, d);
    }
  }

  /** The query that numbered the filtered rows twice: every key is zero. */
  function FilteredTwice(x: seq<Float>, key: int): set<nat> {
    set t: nat | t < |x| && IsHit(x[t]) && RnHit(x, t) - RnHit(x, t) == key
  }

  /** It collapses the segment into one group, whose size is the count and not a run. */
  lemma FilteredTwiceCounts(x: seq<Float>, best: nat)
    requires IsLongest(x, best)
    ensures |FilteredTwice(x, 0)| == Hits(x, |x|)
    ensures forall key :: key != 0 ==> FilteredTwice(x, key) == {}
    ensures |FilteredTwice(x, 0)| == best <==> IsOneBlock(x)
  {
    HitsAreCounted(x, |x|);
    assert FilteredTwice(x, 0) == (set t: nat | t < |x| && IsHit(x[t]));
    RunIsAtMostTheCount(x, best);
  }

  lemma {:induction false} HitsAreCounted(x: seq<Float>, n: nat)
    requires n <= |x|
    ensures |set t: nat | t < n && IsHit(x[t])| == Hits(x, n)
  {
    var counted := set t: nat | t < n && IsHit(x[t]);
    if n == 0 {
      assert counted == {};
    } else {
      HitsAreCounted(x, n - 1);
      var before := set t: nat | t < n - 1 && IsHit(x[t]);
      assert counted == before + (if IsHit(x[n - 1]) then {n - 1} else {});
    }
  }

  // ------------------------------------------------------------------ the trailing query

  predicate Ascending(ts: seq<int>) {
    forall i, j :: 0 <= i < j < |ts| ==> ts[i] < ts[j]
  }

  /** `max(CASE WHEN x <> CLIP_LO THEN bar_open_ms END)` over the segment. */
  function LastOk(x: seq<Float>, ts: seq<int>): Option<int>
    requires |x| == |ts|
  {
    if x == [] then None
    else
      var rest := LastOk(x[..|x| - 1], ts[..|x| - 1]);
      var t := ts[|x| - 1];
      if IsHit(x[|x| - 1]) then rest
      else if rest.Some? && rest.value > t then rest
      else Some(t)
  }

  /** The rows the query keeps and counts. */
  function Trailing(x: seq<Float>, ts: seq<int>): set<nat>
    requires |x| == |ts|
  {
    set t: nat | t < |x| && (LastOk(x, ts) == None || ts[t] > LastOk(x, ts).value)
  }

  lemma {:induction false} LastOkIs(x: seq<Float>, ts: seq<int>)
    requires |x| == |ts| && Ascending(ts)
    ensures LastOk(x, ts) == None ==> AllHits(x, 0, |x|)
    ensures LastOk(x, ts).Some? ==>
              exists k :: 0 <= k < |x| && LastOk(x, ts).value == ts[k] && !IsHit(x[k]) && AllHits(x, k + 1, |x|)
  {
    if x != [] {
      var x', ts' := x[..|x| - 1], ts[..|x| - 1];
      LastOkIs(x', ts');
      assert AllHits(x', 0, |x'|) ==> AllHits(x, 0, |x'|);
      if LastOk(x', ts').Some? {
        var k :| 0 <= k < |x'| && LastOk(x', ts').value == ts'[k] && !IsHit(x'[k]) && AllHits(x', k + 1, |x'|);
        assert ts[k] == ts'[k] && x[k] == x'[k];
        assert AllHits(x, k + 1, |x'|) by {
          assert forall t :: k + 1 <= t < |x'| ==> x[t] == x'[t];
        }
      }
    }
  }

  /** The suffix of hits that a step further back would not be. */
  predicate IsTrailingRun(x: seq<Float>, k: nat) {
    k <= |x| && AllHits(x, k, |x|) && (k > 0 ==> !IsHit(x[k - 1]))
  }

  /** The query keeps exactly the maximal suffix of hits. */
  lemma TrailingIsTheSuffix(x: seq<Float>, ts: seq<int>, k: nat)
    requires |x| == |ts| && Ascending(ts) && IsTrailingRun(x, k)
    ensures Trailing(x, ts) == Interval(k, |x|)
    ensures |Trailing(x, ts)| == |x| - k
  {
    LastOkIs(x, ts);
    if LastOk(x, ts).Some? {
      var j :| 0 <= j < |x| && LastOk(x, ts).value == ts[j] && !IsHit(x[j]) && AllHits(x, j + 1, |x|);
      assert j == k - 1;
    }
  }

  lemma TrailingRunExists(x: seq<Float>) returns (k: nat)
    ensures IsTrailingRun(x, k)
  {
    k := |x|;
    while k > 0 && IsHit(x[k - 1])
      invariant k <= |x| && AllHits(x, k, |x|)
    {
      k := k - 1;
    }
  }

  function Max(a: nat, b: nat): nat {
    if a >= b then a else b
  }

  /** Completeness of the scan: a segment normalized under the old clip with not-a-number at bar `i`
      is reported with every bar from there on that is past the warm-up. */
  lemma PoisonedTailIsReported(sqrt: real -> real, alpha: real, warmBars: nat, f: seq<Float>, z: seq<Float>,
                               warm: seq<bool>, ts: seq<int>, i: nat)
    requires (forall v :: v > 0.0 ==> sqrt(v) > 0.0) && 0.0 < alpha < 1.0
    requires Emits(sqrt, alpha, warmBars, OldClip, f, z, warm)
    requires |ts| == |f| && Ascending(ts) && i < |f| && f[i].NaN?
    ensures |Trailing(z, ts)| >= |f| - Max(i, Max(warmBars, 1))
    ensures IsLive(i, warmBars) ==> |Trailing(z, ts)| >= |f| - i
  {
    var from := Max(i, Max(warmBars, 1));
    forall j | from <= j < |f|
      ensures IsHit(z[j])
    {
      NaNCoversTheTail(sqrt, alpha, warmBars, f, z, warm, i, j);
    }
    var k := TrailingRunExists(z);
    TrailingIsTheSuffix(z, ts, k);
    assert k > from ==> k - 1 >= from;
  }
}
