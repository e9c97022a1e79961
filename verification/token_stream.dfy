/** The frozen-tokenizer stream: chunks that never cross a segment, encoded one by one, in full or
    restricted to the chunks somebody reads.  The encoder is an arbitrary shape-keeping function. */
module TokenStream {
  import opened Segments

  /** What the encoder is given of one bar: its features and its mask. */
  type Bar = seq<real>

  type Encoder = seq<Bar> -> (seq<int>, seq<int>)

  const HOLE := -1

  /** An encoder gives one coarse and one fine id per bar. */
  ghost predicate KeepsShape(enc: Encoder) {
    forall w :: |enc(w).0| == |w| && |enc(w).1| == |w|
  }

  // ------------------------------------------------------------------ chunks

  function Min(a: nat, b: nat): nat {
    if a <= b then a else b
  }

  /** A whole number of windows. */
  predicate IsWhole(d: nat, window: nat)
    requires window > 0
  {
    d == 0 || (d >= window && IsWhole(d - window, window))
  }

  lemma {:induction false} WholeIsMultiple(d: nat, window: nat)
    requires window > 0
    ensures IsWhole(d, window) <==> d % window == 0
    decreases d
  {
    if d >= window {
      WholeIsMultiple(d - window, window);
      OneWindowLess(d, window);
    }
  }

  lemma OneWindowLess(d: nat, window: nat)
    requires 0 < window <= d
    ensures (d - window) % window == d % window
  {
    var q, k := d / window, (d - window) / window;
    SameRemainder(q - 1 - k, d % window, (d - window) % window, window);
  }

  lemma SameRemainder(m: int, r: nat, s: nat, window: nat)
    requires r < window && s < window && m * window == s - r
    ensures r == s
  {
    assert m >= 1 ==> (m - 1) * window >= 0;
    assert m <= -1 ==> (m + 1) * window <= 0;
  }

  /** A chunk starts a whole number of windows into its segment, and is a window long unless the
      segment ends first. */
  ghost predicate IsChunkOf(seg: Range, window: nat, c: Range)
    requires window > 0
  {
    && seg.0 <= c.0 < c.1 && IsWhole(c.0 - seg.0, window)
    && c.1 == Min(c.0 + window, seg.1)
  }

  ghost predicate IsChunk(bounds: seq<Range>, window: nat, c: Range)
    requires window > 0
  {
    exists seg :: seg in bounds && IsChunkOf(seg, window, c)
  }

  /** Chunks that cut [a, b) in order, each inside one segment. */
  ghost predicate IsChain(bounds: seq<Range>, window: nat, cs: seq<Range>, a: nat, b: nat)
    requires window > 0
  {
    && (cs == [] <==> a == b)
    && (cs != [] ==> cs[0].0 == a && cs[|cs| - 1].1 == b)
    && (forall i :: 0 < i < |cs| ==> cs[i - 1].1 == cs[i].0)
    && (forall i :: 0 <= i < |cs| ==> IsChunk(bounds, window, cs[i]))
  }

  /** The chunks cut the lake. */
  ghost predicate IsChunking(bounds: seq<Range>, n: nat, window: nat, cs: seq<Range>)
    requires window > 0
  {
    IsChain(bounds, window, cs, 0, n)
  }

  /** The chunks of a lake: they cut it along its segments. */
  ghost predicate AreChunks(ids: seq<int>, window: nat, cs: seq<Range>)
    requires window > 0
  {
    exists bounds :: IsSegmentation(ids, bounds) && IsChunking(bounds, |ids|, window, cs)
  }

  method ChunkRanges(ids: seq<int>, window: nat) returns (cs: seq<Range>)
    requires window > 0
    ensures AreChunks(ids, window, cs)
  {
    cs := [];
    var segs := SegmentBounds(ids);
    ghost var bounds := segs;
    ghost var upTo := 0;
    for k := 0 to |segs|
      invariant upTo == (if k == 0 then 0 else segs[k - 1].1)
      invariant k == 0 <==> upTo == 0
      invariant IsChain(bounds, window, cs, 0, upTo)
    {
      assert IsMaximal(ids, segs[k]);
      var seg := segs[k];
      assert seg.0 == upTo;
      cs := ChunkSegment(bounds, seg, window, cs);
      upTo := seg.1;
    }
  }

  /** The inner loop: one segment's chunks. */
  method ChunkSegment(ghost bounds: seq<Range>, seg: Range, window: nat, before: seq<Range>) returns (cs: seq<Range>)
    requires window > 0 && seg in bounds && seg.0 < seg.1
    requires IsChain(bounds, window, before, 0, seg.0)
    ensures IsChain(bounds, window, cs, 0, seg.1)
  {
    cs := before;
    var start := seg.0;
    while start < seg.1
      invariant seg.0 <= start && IsWhole(start - seg.0, window)
      invariant IsChain(bounds, window, cs, 0, Min(start, seg.1))
    {
      var c := (start, Min(start + window, seg.1));
      assert seg in bounds && IsChunkOf(seg, window, c);
      cs := cs + [c];
      assert IsWhole(start + window - seg.0, window);
      start := start + window;
    }
  }

  ghost predicate Covers(c: Range, t: nat) {
    c.0 <= t < c.1
  }

  ghost predicate Disjoint(cs: seq<Range>) {
    forall c, d :: c in cs && d in cs && c != d ==> c.1 <= d.0 || d.1 <= c.0
  }

  /** Non-empty ranges of at most a window, inside the lake, apart from each other. */
  ghost predicate Tidy(cs: seq<Range>, n: nat, window: nat) {
    Disjoint(cs) && forall c :: c in cs ==> c.0 < c.1 <= n && c.1 - c.0 <= window
  }

  lemma {:induction false} ChunksAreOrdered(bounds: seq<Range>, n: nat, window: nat, cs: seq<Range>, i: nat, j: nat)
    requires window > 0 && IsChunking(bounds, n, window, cs) && i < j < |cs|
    ensures cs[i].1 <= cs[j].0
    decreases j
  {
    if i + 1 < j {
      ChunksAreOrdered(bounds, n, window, cs, i, j - 1);
    }
  }

  lemma ChunksOfLakeAreTidy(ids: seq<int>, window: nat, cs: seq<Range>)
    requires window > 0 && AreChunks(ids, window, cs)
    ensures Tidy(cs, |ids|, window)
  {
    var bounds :| IsSegmentation(ids, bounds) && IsChunking(bounds, |ids|, window, cs);
    ChunksAreTidy(bounds, |ids|, window, cs);
  }

  lemma ChunksAreTidy(bounds: seq<Range>, n: nat, window: nat, cs: seq<Range>)
    requires window > 0 && IsChunking(bounds, n, window, cs)
    ensures Tidy(cs, n, window)
  {
    forall c, d | c in cs && d in cs && c != d
      ensures c.1 <= d.0 || d.1 <= c.0
    {
      ChunksAreApart(bounds, n, window, cs, c, d);
    }
    forall c | c in cs
      ensures c.0 < c.1 <= n && c.1 - c.0 <= window
    {
      ChunkIsInside(bounds, n, window, cs, c);
    }
  }

  lemma ChunksAreApart(bounds: seq<Range>, n: nat, window: nat, cs: seq<Range>, c: Range, d: Range)
    requires window > 0 && IsChunking(bounds, n, window, cs) && c in cs && d in cs && c != d
    ensures c.1 <= d.0 || d.1 <= c.0
  {
    hide IsChunking;
    var i :| 0 <= i < |cs| && cs[i] == c;
    var j :| 0 <= j < |cs| && cs[j] == d;
    if i < j {
      ChunksAreOrdered(bounds, n, window, cs, i, j);
    } else {
      ChunksAreOrdered(bounds, n, window, cs, j, i);
    }
  }

  lemma ChunkIsInside(bounds: seq<Range>, n: nat, window: nat, cs: seq<Range>, c: Range)
    requires window > 0 && IsChunking(bounds, n, window, cs) && c in cs
    ensures c.0 < c.1 <= n && c.1 - c.0 <= window
  {
    var i :| 0 <= i < |cs| && cs[i] == c;
    if i < |cs| - 1 {
      ChunksAreOrdered(bounds, n, window, cs, i, |cs| - 1);
    }
  }

  /** What a chunk of a lake is: it lies in one maximal range of one id, starts a multiple of the window
      into it, and ends a window later or with the range. */
  lemma ChunkOfLakeIs(ids: seq<int>, window: nat, cs: seq<Range>, c: Range) returns (seg: Range)
    requires window > 0 && AreChunks(ids, window, cs) && c in cs
    ensures IsMaximal(ids, seg) && seg.0 <= c.0 < c.1 <= seg.1 && (c.0 - seg.0) % window == 0
    ensures c.1 == c.0 + window || (c.1 == seg.1 && c.1 < c.0 + window)
  {
    hide IsMaximal, IsWhole, IsChunkOf;
    var bounds :| IsSegmentation(ids, bounds) && IsChunking(bounds, |ids|, window, cs);
    var i :| 0 <= i < |cs| && cs[i] == c;
    assert IsChunk(bounds, window, cs[i]);
    seg :| seg in bounds && IsChunkOf(seg, window, c);
    var k :| 0 <= k < |bounds| && bounds[k] == seg;
    ChunkOfIs(seg, window, c);
  }

  lemma ChunkOfIs(seg: Range, window: nat, c: Range)
    requires window > 0 && IsChunkOf(seg, window, c)
    ensures seg.0 <= c.0 < c.1 <= seg.1 && (c.0 - seg.0) % window == 0
    ensures c.1 == c.0 + window || (c.1 == seg.1 && c.1 < c.0 + window)
  {
    WholeIsMultiple(c.0 - seg.0, window);
  }

  /** Every bar lies in a chunk. */
  lemma {:induction false} EveryBarHasAChunk(bounds: seq<Range>, n: nat, window: nat, cs: seq<Range>, t: nat, k: nat)
    returns (c: Range)
    requires window > 0 && IsChunking(bounds, n, window, cs) && 0 < k <= |cs| && t < cs[k - 1].1
    ensures c in cs && Covers(c, t)
    decreases k
  {
    if cs[k - 1].0 <= t {
      c := cs[k - 1];
    } else {
      c := EveryBarHasAChunk(bounds, n, window, cs, t, k - 1);
    }
  }

  // ------------------------------------------------------------------ encoding chunks

  /** The arrays hold the encoder's tokens on the chunk. */
  ghost predicate Holds(enc: Encoder, x: seq<Bar>, c: Range, bc: seq<int>, bf: seq<int>)
    requires c.0 <= c.1 <= |x| && KeepsShape(enc) && |bc| == |bf| == |x|
  {
    forall t :: c.0 <= t < c.1 ==>
      bc[t] == enc(x[c.0..c.1]).0[t - c.0] && bf[t] == enc(x[c.0..c.1]).1[t - c.0]
  }

  /** Written on the chunks `done`, untouched everywhere else. */
  ghost predicate WrittenOn(enc: Encoder, x: seq<Bar>, done: seq<Range>, bc0: seq<int>, bf0: seq<int>, bc: seq<int>,
      bf: seq<int>)
    requires KeepsShape(enc) && |bc| == |bf| == |x| == |bc0| == |bf0|
    requires forall c :: c in done ==> c.0 <= c.1 <= |x|
  {
    && (forall c :: c in done ==> Holds(enc, x, c, bc, bf))
    && (forall t :: 0 <= t < |x| && (forall c :: c in done ==> !Covers(c, t)) ==> bc[t] == bc0[t] && bf[t] == bf0[t])
  }

  method WriteChunk(enc: Encoder, x: seq<Bar>, c: Range, bc: array<int>, bf: array<int>)
    requires KeepsShape(enc) && c.0 <= c.1 <= |x| == bc.Length == bf.Length && bc != bf
    modifies bc, bf
    ensures Holds(enc, x, c, bc[..], bf[..])
    ensures forall t :: 0 <= t < |x| && !Covers(c, t) ==> bc[t] == old(bc[t]) && bf[t] == old(bf[t])
  {
    var (cidx, fidx) := enc(x[c.0..c.1]);
    var t := c.0;
    while t < c.1
      invariant c.0 <= t <= c.1
      invariant forall k :: c.0 <= k < t ==> bc[k] == cidx[k - c.0] && bf[k] == fidx[k - c.0]
      invariant forall k :: 0 <= k < |x| && !(c.0 <= k < t) ==> bc[k] == old(bc[k]) && bf[k] == old(bf[k])
    {
      bc[t], bf[t] := cidx[t - c.0], fidx[t - c.0];
      t := t + 1;
    }
  }

  /** Writing one more chunk of a tidy family. */
  lemma WriteOneMore(enc: Encoder, x: seq<Bar>, all: seq<Range>, done: seq<Range>, c: Range,
                     bc0: seq<int>, bf0: seq<int>, bc: seq<int>, bf: seq<int>, bc': seq<int>, bf': seq<int>)
    requires KeepsShape(enc) && |bc| == |bf| == |x| == |bc0| == |bf0| == |bc'| == |bf'|
    requires Disjoint(all) && (forall d :: d in all ==> d.0 <= d.1 <= |x|) && c in all
    requires forall d :: d in done ==> d in all
    requires WrittenOn(enc, x, done, bc0, bf0, bc, bf)
    requires Holds(enc, x, c, bc', bf')
    requires forall t :: 0 <= t < |x| && !Covers(c, t) ==> bc'[t] == bc[t] && bf'[t] == bf[t]
    ensures WrittenOn(enc, x, done + [c], bc0, bf0, bc', bf')
  {
    forall d | d in done + [c]
      ensures Holds(enc, x, d, bc', bf')
    {
      if d != c {
        assert d in done;
        forall t | d.0 <= t < d.1
          ensures bc'[t] == bc[t] && bf'[t] == bf[t]
        {
          assert !Covers(c, t);
        }
      }
    }
    forall t | 0 <= t < |x| && forall d :: d in done + [c] ==> !Covers(d, t)
      ensures bc'[t] == bc0[t] && bf'[t] == bf0[t]
    {
      assert c in done + [c];
      assert forall d :: d in done ==> d in done + [c];
    }
  }

  /** The two write loops: full windows in batches, then the short segment tails one by one. */
  method WriteChunks(enc: Encoder, x: seq<Bar>, ranges: seq<Range>, window: nat, batch: nat, bc: array<int>,
      bf: array<int>)
    requires KeepsShape(enc) && batch > 0 && |x| == bc.Length == bf.Length && bc != bf
    requires Tidy(ranges, |x|, window)
    modifies bc, bf
    ensures WrittenOn(enc, x, ranges, old(bc[..]), old(bf[..]), bc[..], bf[..])
  {
    var full := OfLength(ranges, window, true);
    var tail := OfLength(ranges, window, false);
    ghost var done: seq<Range> := [];
    ghost var bc0, bf0 := bc[..], bf[..];
    var i := 0;
    while i < |full|
      invariant 0 <= i && done == full[..Min(i, |full|)]
      invariant WrittenOn(enc, x, done, bc0, bf0, bc[..], bf[..])
    {
      var upTo := Min(i + batch, |full|);
      var j := i;
      while j < upTo
        invariant i <= j <= upTo && done == full[..j]
        invariant WrittenOn(enc, x, done, bc0, bf0, bc[..], bf[..])
      {
        done := WriteNext(enc, x, ranges, done, full[j], bc0, bf0, bc, bf);
        j := j + 1;
      }
      i := i + batch;
    }
    for k := 0 to |tail|
      invariant done == full + tail[..k]
      invariant WrittenOn(enc, x, done, bc0, bf0, bc[..], bf[..])
    {
      done := WriteNext(enc, x, ranges, done, tail[k], bc0, bf0, bc, bf);
    }
    assert forall c :: c in ranges <==> c in done;
  }

  method WriteNext(enc: Encoder, x: seq<Bar>, ghost all: seq<Range>, ghost done: seq<Range>, c: Range,
                   ghost bc0: seq<int>, ghost bf0: seq<int>, bc: array<int>, bf: array<int>)
    returns (ghost done': seq<Range>)
    requires KeepsShape(enc) && |x| == bc.Length == bf.Length == |bc0| == |bf0| && bc != bf
    requires Disjoint(all) && (forall d :: d in all ==> d.0 <= d.1 <= |x|) && c in all
    requires forall d :: d in done ==> d in all
    requires WrittenOn(enc, x, done, bc0, bf0, bc[..], bf[..])
    modifies bc, bf
    ensures done' == done + [c] && WrittenOn(enc, x, done', bc0, bf0, bc[..], bf[..])
  {
    ghost var bc1, bf1 := bc[..], bf[..];
    WriteChunk(enc, x, c, bc, bf);
    WriteOneMore(enc, x, all, done, c, bc0, bf0, bc1, bf1, bc[..], bf[..]);
    done' := done + [c];
  }

  /** `[(a, b) for a, b in ranges if b - a == window]`, or `< window`. */
  function OfLength(ranges: seq<Range>, window: nat, full: bool): (r: seq<Range>)
    requires forall c :: c in ranges ==> c.0 <= c.1
    ensures forall c :: c in r <==> c in ranges && (if full then c.1 - c.0 == window else c.1 - c.0 < window)
  {
    if ranges == [] then []
    else
      var c, rest := ranges[0], OfLength(ranges[1..], window, full);
      if (if full then c.1 - c.0 == window else c.1 - c.0 < window) then [c] + rest else rest
  }

  // ------------------------------------------------------------------ the two tokenizers

  /** A stream that is complete: every chunk encoded. */
  ghost predicate IsFullStream(enc: Encoder, x: seq<Bar>, cs: seq<Range>, bc: seq<int>, bf: seq<int>) {
    && KeepsShape(enc) && |bc| == |bf| == |x|
    && forall c :: c in cs ==> c.0 <= c.1 <= |x| && Holds(enc, x, c, bc, bf)
  }

  /** Some bar of the chunk is needed: `needed[a:b].any()`. */
  predicate IsKept(needed: seq<bool>, c: Range)
    requires c.0 <= c.1 <= |needed|
  {
    exists t :: c.0 <= t < c.1 && needed[t]
  }

  /** A stream that has the chunks somebody needs and holes elsewhere. */
  ghost predicate IsRestrictedStream(enc: Encoder, x: seq<Bar>, cs: seq<Range>, needed: seq<bool>, bc: seq<int>,
      bf: seq<int>) {
    && KeepsShape(enc) && |bc| == |bf| == |x| == |needed|
    && forall c :: c in cs ==>
         && c.0 <= c.1 <= |x|
         && (IsKept(needed, c) ==> Holds(enc, x, c, bc, bf))
         && (!IsKept(needed, c) ==> forall t :: c.0 <= t < c.1 ==> bc[t] == HOLE && bf[t] == HOLE)
  }

  /** The tokens of the whole lake, along its chunks. */
  ghost predicate IsFullTokenization(enc: Encoder, x: seq<Bar>, ids: seq<int>, window: nat, bc: seq<int>, bf: seq<int>)
    requires window > 0
  {
    exists cs :: AreChunks(ids, window, cs) && IsFullStream(enc, x, cs, bc, bf)
  }

  /** The tokens of the chunks somebody needs. */
  ghost predicate IsNeededTokenization(enc: Encoder, x: seq<Bar>, ids: seq<int>, window: nat, needed: seq<bool>,
      bc: seq<int>, bf: seq<int>)
    requires window > 0
  {
    exists cs :: AreChunks(ids, window, cs) && IsRestrictedStream(enc, x, cs, needed, bc, bf)
  }

  method TokenizeFeatures(enc: Encoder, x: seq<Bar>, ids: seq<int>, window: nat, batch: nat)
    returns (bc: array<int>, bf: array<int>)
    requires KeepsShape(enc) && window > 0 && batch > 0 && |ids| == |x|
    ensures IsFullTokenization(enc, x, ids, window, bc[..], bf[..])
  {
    bc, bf := new int[|x|], new int[|x|];
    var ranges := ChunkRanges(ids, window);
    ChunksOfLakeAreTidy(ids, window, ranges);
    WriteChunks(enc, x, ranges, window, batch, bc, bf);
    assert IsFullStream(enc, x, ranges, bc[..], bf[..]);
  }

  function Kept(ranges: seq<Range>, needed: seq<bool>): (r: seq<Range>)
    requires forall c :: c in ranges ==> c.0 <= c.1 <= |needed|
    ensures forall c :: c in r <==> c in ranges && IsKept(needed, c)
  {
    if ranges == [] then []
    else
      var rest := Kept(ranges[1..], needed);
      if IsKept(needed, ranges[0]) then [ranges[0]] + rest else rest
  }

  method OfHoles(n: nat) returns (a: array<int>)
    ensures fresh(a) && a.Length == n && forall t :: 0 <= t < n ==> a[..][t] == HOLE
  {
    a := new int[n](_ => HOLE);
  }

  method TokenizeNeeded(enc: Encoder, x: seq<Bar>, ids: seq<int>, needed: seq<bool>, window: nat, batch: nat)
    returns (bc: array<int>, bf: array<int>)
    requires KeepsShape(enc) && window > 0 && batch > 0 && |ids| == |x| == |needed|
    ensures IsNeededTokenization(enc, x, ids, window, needed, bc[..], bf[..])
  {
    bc := OfHoles(|x|);
    bf := OfHoles(|x|);
    var ranges := ChunkRanges(ids, window);
    ChunksOfLakeAreTidy(ids, window, ranges);
    ghost var holes := bc[..];
    assert bf[..] == holes;
    KeptIsTidy(ranges, needed, window);
    hide AreChunks, Tidy, WrittenOn, IsRestrictedStream, Kept, KeepsShape, IsNeededTokenization, Disjoint;
    WriteChunks(enc, x, Kept(ranges, needed), window, batch, bc, bf);
    RestrictedIsWritten(enc, x, ranges, needed, holes, bc[..], bf[..]);
    ChunksMakeIt(enc, x, ids, window, ranges, needed, bc[..], bf[..]);
  }

  lemma KeptIsTidy(cs: seq<Range>, needed: seq<bool>, window: nat)
    requires Tidy(cs, |needed|, window)
    ensures Tidy(Kept(cs, needed), |needed|, window)
    ensures Disjoint(cs) && forall c :: c in cs ==> c.0 <= c.1 <= |needed|
    ensures forall c :: c in Kept(cs, needed) ==> c.0 <= c.1 <= |needed|
  {
  }

  lemma ChunksMakeIt(enc: Encoder, x: seq<Bar>, ids: seq<int>, window: nat, cs: seq<Range>, needed: seq<bool>,
                     bc: seq<int>, bf: seq<int>)
    requires window > 0 && AreChunks(ids, window, cs) && IsRestrictedStream(enc, x, cs, needed, bc, bf)
    ensures IsNeededTokenization(enc, x, ids, window, needed, bc, bf)
  {
  }

  lemma RestrictedIsWritten(enc: Encoder, x: seq<Bar>, cs: seq<Range>, needed: seq<bool>, holes: seq<int>,
      bc: seq<int>, bf: seq<int>)
    requires KeepsShape(enc) && |bc| == |bf| == |x| == |needed| == |holes|
    requires Disjoint(cs) && (forall d :: d in cs ==> d.0 <= d.1 <= |x|)
    requires WrittenOn(enc, x, Kept(cs, needed), holes, holes, bc, bf)
    requires forall t :: 0 <= t < |x| ==> holes[t] == HOLE
    ensures IsRestrictedStream(enc, x, cs, needed, bc, bf)
  {
    forall c | c in cs && !IsKept(needed, c)
      ensures forall t :: c.0 <= t < c.1 ==> bc[t] == HOLE && bf[t] == HOLE
    {
      HolesStay(enc, x, cs, needed, c, holes, bc, bf);
    }
  }

  /** Nothing is written on a chunk that nobody needs. */
  lemma HolesStay(enc: Encoder, x: seq<Bar>, cs: seq<Range>, needed: seq<bool>, c: Range,
                  holes: seq<int>, bc: seq<int>, bf: seq<int>)
    requires KeepsShape(enc) && |bc| == |bf| == |x| == |needed| == |holes|
    requires Disjoint(cs) && (forall d :: d in cs ==> d.0 <= d.1 <= |x|) && c in cs && !IsKept(needed, c)
    requires WrittenOn(enc, x, Kept(cs, needed), holes, holes, bc, bf)
    requires forall t :: 0 <= t < |x| ==> holes[t] == HOLE
    ensures forall t :: c.0 <= t < c.1 ==> bc[t] == HOLE && bf[t] == HOLE
  {
    var kept := Kept(cs, needed);
    forall t | c.0 <= t < c.1
      ensures bc[t] == HOLE && bf[t] == HOLE
    {
      forall d | d in kept
        ensures !Covers(d, t)
      {
        assert d in cs && d != c;
      }
      assert bc[t] == holes[t] && bf[t] == holes[t];
    }
  }
}
