/** Which bars the horizon sweep has to tokenize, and why the restricted stream is enough for it. */
module NeededBars {
  import opened Segments
  import opened TokenStream

  const BAR_MS := 60000

  // ------------------------------------------------------------------ decisions

  /** `np.arange(lo, hi, step)`. */
  function Arange(lo: int, hi: int, step: nat): (g: seq<int>)
    requires step > 0
    decreases hi - lo
  {
    if lo >= hi then [] else [lo] + Arange(lo + step, hi, step)
  }

  /** The rebalance instants of one block for one horizon. */
  function Grid(block: (int, int), h: nat): seq<int>
    requires h > 0
  {
    Arange(block.0, block.1, h * BAR_MS)
  }

  predicate Ascending(ts: seq<int>) {
    forall i, j :: 0 <= i < j < |ts| ==> ts[i] < ts[j]
  }

  /** `np.searchsorted`: the first place whose stamp is not below the instant. */
  function SearchSorted(ts: seq<int>, g: int): (p: nat)
    ensures p <= |ts| && (p < |ts| ==> ts[p] >= g) && forall i :: 0 <= i < p ==> ts[i] < g
  {
    if ts == [] || ts[0] >= g then 0
    else
      var rest := SearchSorted(ts[1..], g);
      assert forall i :: 0 < i <= rest ==> ts[i] == ts[1..][i - 1] || i == rest;
      1 + rest
  }

  /** The bar exists at the instant, has the history, and its label bar is in range. */
  predicate IsDecision(ts: seq<int>, seqLen: nat, h: nat, g: int) {
    var pos := SearchSorted(ts, g);
    pos < |ts| && pos >= seqLen && pos + h < |ts| && ts[pos] == g
  }

  function Decisions(ts: seq<int>, grid: seq<int>, seqLen: nat, h: nat): (dec: seq<nat>)
  {
    if grid == [] then []
    else (if IsDecision(ts, seqLen, h, grid[0]) then [SearchSorted(ts, grid[0])] else [])
         + Decisions(ts, grid[1..], seqLen, h)
  }

  /** What a decision is: a bar with history and a label bar, whose stamp is on the grid. */
  lemma {:induction false} DecisionsAre(ts: seq<int>, grid: seq<int>, seqLen: nat, h: nat, pos: nat)
    requires Ascending(ts)
    ensures pos in Decisions(ts, grid, seqLen, h) <==> seqLen <= pos && pos + h < |ts| && ts[pos] in grid
  {
    if grid != [] {
      DecisionsAre(ts, grid[1..], seqLen, h, pos);
      var g, p := grid[0], SearchSorted(ts, grid[0]);
      assert pos < |ts| && ts[pos] == g ==> p == pos;
      assert forall y :: y in grid <==> y == g || y in grid[1..];
    }
  }

  /** The instants of a grid. */
  lemma {:induction false} ArangeHolds(lo: int, hi: int, step: nat, g: int)
    requires step > 0
    ensures g in Arange(lo, hi, step) <==> lo <= g < hi && (g - lo) % step == 0
    decreases hi - lo
  {
    if lo < hi {
      ArangeHolds(lo + step, hi, step, g);
      StepBack(g - lo, step);
    }
  }

  lemma StepBack(d: int, step: nat)
    requires step > 0
    ensures (d - step) % step == d % step
    ensures 0 < d < step ==> d % step != 0
    ensures d % step == 0 && d > 0 ==> d >= step
  {
    var q, k := d / step, (d - step) / step;
    var r, s := d % step, (d - step) % step;
    assert d == q * step + r && d - step == k * step + s;
    var m := q - 1 - k;
    assert s - r == m * step;
    assert m >= 1 ==> (m - 1) * step >= 0;
    assert m <= -1 ==> (m + 1) * step <= 0;
    if 0 < d < step {
    }
  }

  /** A decision of a block at a horizon: a bar with the history and the label bar in range, at a whole
      number of horizons of one-minute bars after the block's start and before its end. */
  lemma DecisionsOfBlock(ts: seq<int>, block: (int, int), seqLen: nat, h: nat, pos: nat)
    requires Ascending(ts) && h > 0
    ensures pos in Decisions(ts, Grid(block, h), seqLen, h) <==>
            && seqLen <= pos && pos + h < |ts|
            && block.0 <= ts[pos] < block.1 && (ts[pos] - block.0) % (h * 60000) == 0
  {
    DecisionsAre(ts, Grid(block, h), seqLen, h, pos);
    if pos < |ts| {
      ArangeHolds(block.0, block.1, h * BAR_MS, ts[pos]);
    }
  }

  lemma MultipleOfMultiple(d: nat, h: nat)
    requires h > 0 && d % (h * BAR_MS) == 0
    ensures d % BAR_MS == 0
  {
    var q := d / (h * BAR_MS);
    assert d == (q * h) * BAR_MS;
  }

  /** The one-bar grid is the densest: every decision of every horizon is one of its decisions. */
  lemma EveryHorizonIsCovered(ts: seq<int>, block: (int, int), seqLen: nat, h: nat, pos: nat)
    requires Ascending(ts) && h > 0
    requires pos in Decisions(ts, Grid(block, h), seqLen, h)
    ensures pos in Decisions(ts, Grid(block, 1), seqLen, 1)
  {
    DecisionsAre(ts, Grid(block, h), seqLen, h, pos);
    DecisionsAre(ts, Grid(block, 1), seqLen, 1, pos);
    ArangeHolds(block.0, block.1, h * BAR_MS, ts[pos]);
    ArangeHolds(block.0, block.1, BAR_MS, ts[pos]);
    MultipleOfMultiple(ts[pos] - block.0, h);
  }

  // ------------------------------------------------------------------ the mask

  /** The bar lies in the reach of the block: from a context before its first one-bar decision to its
      last. */
  ghost predicate InReach(ts: seq<int>, block: (int, int), seqLen: nat, t: nat) {
    var dec := Decisions(ts, Grid(block, 1), seqLen, 1);
    exists first, last :: first in dec && last in dec && first - seqLen < t <= last
  }

  ghost predicate IsNeededMask(ts: seq<int>, blocks: seq<(int, int)>, seqLen: nat, needed: seq<bool>) {
    && |needed| == |ts|
    && forall t :: 0 <= t < |ts| ==> (needed[t] <==> exists b :: b in blocks && InReach(ts, b, seqLen, t))
  }

  method Extremes(dec: seq<nat>) returns (least: nat, greatest: nat)
    requires dec != []
    ensures least in dec && greatest in dec && forall d :: d in dec ==> least <= d <= greatest
  {
    least, greatest := dec[0], dec[0];
    for i := 1 to |dec|
      invariant least in dec && greatest in dec
      invariant forall k :: 0 <= k < i ==> least <= dec[k] <= greatest
    {
      if dec[i] < least { least := dec[i]; }
      if dec[i] > greatest { greatest := dec[i]; }
    }
  }

  method NeededBarMask(ts: seq<int>, blocks: seq<(int, int)>, seqLen: nat) returns (needed: array<bool>)
    requires Ascending(ts)
    ensures IsNeededMask(ts, blocks, seqLen, needed[..])
  {
    needed := new bool[|ts|](_ => false);
    for k := 0 to |blocks|
      invariant forall t :: 0 <= t < |ts| ==>
                  (needed[t] <==> exists i :: 0 <= i < k && InReach(ts, blocks[i], seqLen, t))
    {
      ghost var before := needed[..];
      var dec := Decisions(ts, Grid(blocks[k], 1), seqLen, 1);
      if dec != [] {
        var least, greatest := Extremes(dec);
        DecisionsAre(ts, Grid(blocks[k], 1), seqLen, 1, least);
        DecisionsAre(ts, Grid(blocks[k], 1), seqLen, 1, greatest);
        var start := if least - seqLen + 1 > 0 then least - seqLen + 1 else 0;
        var t := start;
        while t < greatest + 1
          invariant start <= t && (start <= greatest + 1 ==> t <= greatest + 1)
          invariant forall i :: 0 <= i < |ts| ==> needed[i] == (before[i] || start <= i < t)
        {
          needed[t] := true;
          t := t + 1;
        }
        forall i | 0 <= i < |ts|
          ensures start <= i <= greatest <==> InReach(ts, blocks[k], seqLen, i)
        {
          assert least in dec && greatest in dec;
        }
      }
      assert forall t :: 0 <= t < |ts| ==> (needed[t] <==> before[t] || InReach(ts, blocks[k], seqLen, t));
    }
    forall t | 0 <= t < |ts|
      ensures needed[t] <==> exists b :: b in blocks && InReach(ts, b, seqLen, t)
    {
      if b :| b in blocks && InReach(ts, b, seqLen, t) {
        var i :| 0 <= i < |blocks| && blocks[i] == b;
      }
    }
  }

  // ------------------------------------------------------------------ exactness

  /** Every bar of every context of every decision, whatever the horizon, is needed. */
  lemma ContextIsNeeded(ts: seq<int>, blocks: seq<(int, int)>, seqLen: nat, needed: seq<bool>,
                        block: (int, int), h: nat, pos: nat, t: nat)
    requires Ascending(ts) && IsNeededMask(ts, blocks, seqLen, needed)
    requires block in blocks && h > 0 && pos in Decisions(ts, Grid(block, h), seqLen, h)
    requires pos - seqLen < t <= pos
    ensures t < |ts| && needed[t]
  {
    DecisionsAre(ts, Grid(block, h), seqLen, h, pos);
    EveryHorizonIsCovered(ts, block, seqLen, h, pos);
    assert InReach(ts, block, seqLen, t);
  }

  /** The chunks of a lake are determined by its segments and the window. */
  lemma {:induction false} ChunksAgree(ids: seq<int>, bounds: seq<Range>, window: nat, a: seq<Range>, b: seq<Range>,
      i: nat)
    requires window > 0 && IsSegmentation(ids, bounds)
    requires IsChunking(bounds, |ids|, window, a) && IsChunking(bounds, |ids|, window, b) && i < |a| && i < |b|
    ensures a[i] == b[i]
  {
    if i > 0 {
      ChunksAgree(ids, bounds, window, a, b, i - 1);
      assert a[i - 1].1 == a[i].0 && b[i - 1].1 == b[i].0;
    }
    SameStartSameChunk(ids, bounds, window, a[i], b[i]);
  }

  lemma SameStartSameChunk(ids: seq<int>, bounds: seq<Range>, window: nat, c: Range, d: Range)
    requires window > 0 && IsSegmentation(ids, bounds) && c.0 == d.0
    requires IsChunk(bounds, window, c) && IsChunk(bounds, window, d)
    ensures c == d
  {
    var s :| s in bounds && IsChunkOf(s, window, c);
    var r :| r in bounds && IsChunkOf(r, window, d);
    SameSegment(ids, bounds, s, r, c.0);
  }

  lemma SameSegment(ids: seq<int>, bounds: seq<Range>, s: Range, r: Range, t: nat)
    requires IsSegmentation(ids, bounds) && s in bounds && r in bounds && Covers(s, t) && Covers(r, t)
    ensures s == r
  {
    var i :| 0 <= i < |bounds| && bounds[i] == s;
    var j :| 0 <= j < |bounds| && bounds[j] == r;
    if i < j {
      RangesAreOrdered(ids, bounds, i, j);
    } else if j < i {
      RangesAreOrdered(ids, bounds, j, i);
    }
  }

  lemma ChunksAreUnique(ids: seq<int>, window: nat, a: seq<Range>, b: seq<Range>)
    requires window > 0 && AreChunks(ids, window, a) && AreChunks(ids, window, b)
    ensures a == b
  {
    var s :| IsSegmentation(ids, s) && IsChunking(s, |ids|, window, a);
    var r :| IsSegmentation(ids, r) && IsChunking(r, |ids|, window, b);
    SegmentationIsUnique(ids, s, r);
    ChunkingIsUnique(ids, s, window, a, b);
  }

  lemma ChunkingIsUnique(ids: seq<int>, bounds: seq<Range>, window: nat, a: seq<Range>, b: seq<Range>)
    requires window > 0 && IsSegmentation(ids, bounds)
    requires IsChunking(bounds, |ids|, window, a) && IsChunking(bounds, |ids|, window, b)
    ensures a == b
  {
    NoFewerChunks(ids, bounds, window, a, b);
    NoFewerChunks(ids, bounds, window, b, a);
    forall i | 0 <= i < |a|
      ensures a[i] == b[i]
    {
      ChunksAgree(ids, bounds, window, a, b, i);
    }
  }

  lemma NoFewerChunks(ids: seq<int>, bounds: seq<Range>, window: nat, a: seq<Range>, b: seq<Range>)
    requires window > 0 && IsSegmentation(ids, bounds)
    requires IsChunking(bounds, |ids|, window, a) && IsChunking(bounds, |ids|, window, b)
    ensures |a| >= |b|
  {
    EndsAtTheEnd(bounds, |ids|, window, a);
    EndsAtTheEnd(bounds, |ids|, window, b);
    hide IsChunking, IsSegmentation;
    if a != [] && |a| < |b| {
      ChunksAgree(ids, bounds, window, a, b, |a| - 1);
      ShortOfTheEnd(bounds, |ids|, window, b, |a| - 1);
    }
  }

  lemma EndsAtTheEnd(bounds: seq<Range>, n: nat, window: nat, cs: seq<Range>)
    requires window > 0 && IsChunking(bounds, n, window, cs)
    ensures cs == [] <==> n == 0
    ensures cs != [] ==> cs[|cs| - 1].1 == n
  {
    hide IsChunk;
  }

  lemma ShortOfTheEnd(bounds: seq<Range>, n: nat, window: nat, cs: seq<Range>, i: nat)
    requires window > 0 && IsChunking(bounds, n, window, cs) && i + 1 < |cs|
    ensures cs[i].1 < n
  {
    ChunksAreTidy(bounds, n, window, cs);
    assert cs[i + 1] in cs && cs[i].1 == cs[i + 1].0;
  }

  /** Bar `t`'s chunk. */
  lemma ChunkOfBar(ids: seq<int>, window: nat, cs: seq<Range>, t: nat) returns (c: Range)
    requires window > 0 && AreChunks(ids, window, cs) && t < |ids|
    ensures c in cs && Covers(c, t)
  {
    var bounds :| IsSegmentation(ids, bounds) && IsChunking(bounds, |ids|, window, cs);
    c := EveryBarHasAChunk(bounds, |ids|, window, cs, t, |cs|);
  }

  /** The restricted stream refines the full one: every bar lies in a chunk, where it has the full
      stream's tokens if somebody needs a bar of that chunk, and a hole if nobody does. */
  lemma RestrictedRefinesFull(enc: Encoder, x: seq<Bar>, ids: seq<int>, window: nat, needed: seq<bool>,
                              bc: seq<int>, bf: seq<int>, rc: seq<int>, rf: seq<int>, t: nat)
    returns (c: Range)
    requires window > 0 && |ids| == |x| && t < |x|
    requires IsFullTokenization(enc, x, ids, window, bc, bf)
    requires IsNeededTokenization(enc, x, ids, window, needed, rc, rf)
    ensures |bc| == |bf| == |rc| == |rf| == |needed| == |x| && Covers(c, t) && c.1 <= |x| && KeepsShape(enc)
    ensures Holds(enc, x, c, bc, bf)
    ensures if IsKept(needed, c) then rc[t] == bc[t] && rf[t] == bf[t] else rc[t] == -1 && rf[t] == -1
  {
    var a :| AreChunks(ids, window, a) && IsFullStream(enc, x, a, bc, bf);
    var b :| AreChunks(ids, window, b) && IsRestrictedStream(enc, x, b, needed, rc, rf);
    hide AreChunks, IsKept;
    ChunksAreUnique(ids, window, a, b);
    c := ChunkOfBar(ids, window, a, t);
    OnChunk(enc, x, needed, bc, bf, c, t);
    if IsKept(needed, c) {
      OnChunk(enc, x, needed, rc, rf, c, t);
    }
    hide Holds;
  }

  /** What a stream that holds a chunk has at a bar of it: the tokens that the encoder gives the bar when it
      is shown the chunk and nothing else.  A chunk is kept exactly when one of its bars is needed. */
  lemma OnChunk(enc: Encoder, x: seq<Bar>, needed: seq<bool>, bc: seq<int>, bf: seq<int>, c: Range, t: nat)
    requires KeepsShape(enc) && c.0 <= t < c.1 <= |x| == |bc| == |bf| == |needed| && Holds(enc, x, c, bc, bf)
    ensures var (coarse, fine) := enc(x[c.0..c.1]);
            |coarse| == |fine| == c.1 - c.0 && bc[t] == coarse[t - c.0] && bf[t] == fine[t - c.0]
    ensures IsKept(needed, c) <==> exists k :: c.0 <= k < c.1 && needed[k]
  {
  }

  ghost predicate GivesIds(enc: Encoder)
    requires KeepsShape(enc)
  {
    forall w, i :: 0 <= i < |w| ==> enc(w).0[i] >= 0 && enc(w).1[i] >= 0
  }

  lemma HeldAreIds(enc: Encoder, x: seq<Bar>, c: Range, bc: seq<int>, bf: seq<int>, t: nat)
    requires KeepsShape(enc) && GivesIds(enc) && c.0 <= t < c.1 <= |x| && |bc| == |bf| == |x|
              && Holds(enc, x, c, bc, bf)
    ensures bc[t] >= 0 && bf[t] >= 0
  {
    var w := x[c.0..c.1];
    assert enc(w).0[t - c.0] >= 0 && enc(w).1[t - c.0] >= 0;
  }

  /** The promise: every token a reader of any horizon looks at is the full stream's, and never a
      hole. */
  lemma ReadersSeeTheFullStream(enc: Encoder, x: seq<Bar>, ids: seq<int>, ts: seq<int>, window: nat, needed: seq<bool>,
                                bc: seq<int>, bf: seq<int>, rc: seq<int>, rf: seq<int>,
                                blocks: seq<(int, int)>, seqLen: nat, block: (int, int), h: nat, pos: nat, t: nat)
    requires window > 0 && |ids| == |x| && KeepsShape(enc) && GivesIds(enc)
    requires IsFullTokenization(enc, x, ids, window, bc, bf)
    requires IsNeededTokenization(enc, x, ids, window, needed, rc, rf)
    requires Ascending(ts) && |ts| == |x| && IsNeededMask(ts, blocks, seqLen, needed)
    requires block in blocks && h > 0 && pos in Decisions(ts, Grid(block, h), seqLen, h)
    requires pos - seqLen < t <= pos
    ensures t < |x| == |rc| == |rf| == |bc| == |bf| && rc[t] == bc[t] != HOLE && rf[t] == bf[t] != HOLE
  {
    hide IsFullTokenization, IsNeededTokenization, Decisions, Grid;
    ContextIsNeeded(ts, blocks, seqLen, needed, block, h, pos, t);
    var c := RestrictedRefinesFull(enc, x, ids, window, needed, bc, bf, rc, rf, t);
    assert IsKept(needed, c);
    HeldAreIds(enc, x, c, bc, bf, t);
  }
}
