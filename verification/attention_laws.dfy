/** What attention and the forward pass are, said without masks, caches or running sums: every head is
    the weighted average of the values up to its bar, and a fill is a tower of such layers. */
module AttentionLaws {
  import opened Transformer
  import opened PrefillTheorems

  // ------------------------------------------------------------------ the weighted average

  function Total(ws: seq<real>): real {
    if ws == [] then 0.0 else Total(ws[..|ws| - 1]) + ws[|ws| - 1]
  }

  function Tug(w: real, r: real, v: real): real {
    w * (r - v)
  }

  /** How the values pull away from `r`, each with its weight.  With a total weight other than zero the
      weighted average is the one number that is pulled nowhere. */
  function Pull(ws: seq<real>, vs: seq<real>, r: real): real
    requires |ws| == |vs|
  {
    if ws == [] then 0.0
    else Pull(ws[..|ws| - 1], vs[..|vs| - 1], r) + Tug(ws[|ws| - 1], r, vs[|vs| - 1])
  }

  function Dot(ws: seq<real>, vs: seq<real>): real
    requires |ws| == |vs|
  {
    if ws == [] then 0.0 else Dot(ws[..|ws| - 1], vs[..|vs| - 1]) + ws[|ws| - 1] * vs[|vs| - 1]
  }

  lemma {:induction false} PullIs(ws: seq<real>, vs: seq<real>, r: real)
    requires |ws| == |vs|
    ensures Pull(ws, vs, r) == r * Total(ws) - Dot(ws, vs)
  {
    if ws != [] {
      var n := |ws| - 1;
      PullIs(ws[..n], vs[..n], r);
      Spread(r, Total(ws[..n]), ws[n], vs[n]);
    }
  }

  lemma Spread(r: real, t: real, w: real, v: real)
    ensures r * (t + w) == r * t + (w * (r - v) + w * v)
  {
  }

  /** Weights of one sign keep the average among the values. */
  lemma AverageStaysInRange(ws: seq<real>, vs: seq<real>, r: real, lo: real, hi: real)
    requires |ws| == |vs| && Total(ws) > 0.0 && Pull(ws, vs, r) == 0.0
    requires forall j :: 0 <= j < |ws| ==> ws[j] >= 0.0 && lo <= vs[j] <= hi
    ensures lo <= r <= hi
  {
    hide Pull, Total, Dot;
    PullHasASign(ws, vs, lo, hi);
    PullIs(ws, vs, r);
    PullIs(ws, vs, lo);
    PullIs(ws, vs, hi);
    Cancels(r, lo, Total(ws));
    Cancels(hi, r, Total(ws));
  }

  lemma Cancels(x: real, y: real, t: real)
    requires t > 0.0 && x * t >= y * t
    ensures x >= y
  {
    assert (x - y) * t >= 0.0;
  }

  lemma {:induction false} PullHasASign(ws: seq<real>, vs: seq<real>, lo: real, hi: real)
    requires |ws| == |vs| && forall j :: 0 <= j < |ws| ==> ws[j] >= 0.0 && lo <= vs[j] <= hi
    ensures Pull(ws, vs, lo) <= 0.0 <= Pull(ws, vs, hi)
  {
    if ws != [] {
      var n := |ws| - 1;
      PullHasASign(ws[..n], vs[..n], lo, hi);
      TugHasASign(ws[n], lo, vs[n], hi);
      hide Tug;
    }
  }

  lemma TugHasASign(w: real, lo: real, v: real, hi: real)
    requires w >= 0.0 && lo <= v <= hi
    ensures Tug(w, lo, v) <= 0.0 <= Tug(w, hi, v)
  {
    Opposite(w, v - lo);
    NonNegative(w, v - lo);
    NonNegative(w, hi - v);
    assert lo - v == -(v - lo);
  }

  lemma Opposite(w: real, d: real)
    ensures w * (-d) == -(w * d)
  {
  }

  lemma NonNegative(w: real, d: real)
    requires w >= 0.0 && d >= 0.0
    ensures w * d >= 0.0
  {
  }

  // ------------------------------------------------------------------ one head

  /** The weights of a query for the keys it sees. */
  function Weights(a: Attention, q: Vec, keys: seq<Vec>): seq<real> {
    seq(|keys|, j requires 0 <= j < |keys| => a.weight(q, keys[j]))
  }

  /** `v` is, number by number, the average of the values, weighted by the query's weights. */
  ghost predicate IsHead(a: Attention, q: Vec, keys: seq<Vec>, values: seq<Vec>, v: Vec)
    requires |keys| == |values|
  {
    && |v| == a.dHead
    && (Total(Weights(a, q, keys)) != 0.0 && (forall j :: 0 <= j < |values| ==> |values[j]| == a.dHead) ==>
          forall c :: 0 <= c < a.dHead ==> Pull(Weights(a, q, keys), Column(values, c), v[c]) == 0.0)
  }

  function Column(values: seq<Vec>, c: nat): seq<real>
    requires forall j :: 0 <= j < |values| ==> c < |values[j]|
  {
    seq(|values|, j requires 0 <= j < |values| => values[j][c])
  }

  /** A head's vectors in the columns of a cache. */
  function OfHead(cols: seq<Col>, h: nat): seq<Vec>
    requires forall j :: 0 <= j < |cols| ==> h < |cols[j]|
  {
    seq(|cols|, j requires 0 <= j < |cols| => cols[j][h])
  }

  lemma {:induction false} MassIsTotal(a: Attention, q: Vec, ks: seq<Col>, h: nat, seen: nat, n: nat)
    requires n <= seen <= |ks| && forall j :: 0 <= j < |ks| ==> h < |ks[j]|
    ensures Mass(a, q, ks, h, seen, n) == Total(Weights(a, q, OfHead(ks[..n], h)))
  {
    if n > 0 {
      MassIsTotal(a, q, ks, h, seen, n - 1);
      var ws := Weights(a, q, OfHead(ks[..n], h));
      assert ws[..n - 1] == Weights(a, q, OfHead(ks[..n - 1], h));
    }
  }

  lemma {:induction false} MixedIsDot(a: Attention, q: Vec, kv: Cache, h: nat, seen: nat, c: nat, n: nat)
    requires n <= seen <= |kv.k| == |kv.v|
    requires forall j :: 0 <= j < |kv.k| ==> h < |kv.k[j]| && h < |kv.v[j]|
    requires forall j :: 0 <= j < |kv.v| ==> c < |kv.v[j][h]|
    ensures Mixed(a, q, kv, h, seen, c, n) == Dot(Weights(a, q, OfHead(kv.k[..n], h)), Column(OfHead(kv.v[..n], h), c))
  {
    if n > 0 {
      MixedIsDot(a, q, kv, h, seen, c, n - 1);
      var ws, vs := Weights(a, q, OfHead(kv.k[..n], h)), Column(OfHead(kv.v[..n], h), c);
      assert ws[..n - 1] == Weights(a, q, OfHead(kv.k[..n - 1], h));
      assert vs[..n - 1] == Column(OfHead(kv.v[..n - 1], h), c);
    }
  }

  /** Scaled dot-product attention is the weighted average of the visible columns. */
  lemma SdpaIsTheAverage(a: Attention, q: Vec, kv: Cache, h: nat, seen: nat)
    requires seen <= |kv.k| == |kv.v| && forall j :: 0 <= j < |kv.k| ==> h < |kv.k[j]| && h < |kv.v[j]|
    ensures IsHead(a, q, OfHead(kv.k[..seen], h), OfHead(kv.v[..seen], h), Sdpa(a, q, kv, h, seen))
  {
    hide Mass, Mixed, Pull, Dot, Total;
    var keys, values := OfHead(kv.k[..seen], h), OfHead(kv.v[..seen], h);
    var ws, v := Weights(a, q, keys), Sdpa(a, q, kv, h, seen);
    var kv' := Cache(kv.k[..seen], kv.v[..seen]);
    SdpaOfPrefix(a, q, kv, h, seen);
    MassIsTotal(a, q, kv'.k, h, seen, seen);
    assert kv'.k[..seen] == kv'.k && kv'.v[..seen] == kv'.v;
    if Total(ws) != 0.0 && forall j :: 0 <= j < |values| ==> |values[j]| == a.dHead {
      forall c | 0 <= c < a.dHead
        ensures Pull(ws, Column(values, c), v[c]) == 0.0
      {
        assert forall j :: 0 <= j < seen ==> kv'.v[j][h] == values[j];
        MixedIsDot(a, q, kv', h, seen, c, seen);
        PullIs(ws, Column(values, c), v[c]);
        Quotient(Dot(ws, Column(values, c)), Total(ws));
      }
    }
  }

  lemma Quotient(x: real, t: real)
    requires t != 0.0
    ensures (x / t) * t == x
  {
  }

  // ------------------------------------------------------------------ one bar

  /** The output of attention at a bar whose heads see the given columns. */
  ghost predicate IsAttended(a: Attention, x: Vec, pos: nat, ks: seq<Col>, vs: seq<Col>, y: Vec)
    requires |ks| == |vs| && forall j :: 0 <= j < |ks| ==> |ks[j]| == |vs[j]| == a.heads
  {
    exists heads: seq<Vec> ::
      && |heads| == a.heads && y == a.out(heads)
      && forall h: nat :: h < a.heads ==> IsHead(a, a.rope(a.query(x, h), pos), OfHead(ks, h), OfHead(vs, h), heads[h])
  }

  lemma AttendIsAttended(a: Attention, x: Vec, pos: nat, kv: Cache, seen: nat)
    requires seen <= |kv.k| == |kv.v| && forall j :: 0 <= j < |kv.k| ==> |kv.k[j]| == |kv.v[j]| == a.heads
    ensures IsAttended(a, x, pos, kv.k[..seen], kv.v[..seen], Attend(a, x, pos, kv, seen))
  {
    hide Sdpa, IsHead;
    var heads := seq(a.heads, h requires 0 <= h => Sdpa(a, a.rope(a.query(x, h), pos), kv, h, seen));
    forall h: nat | h < a.heads
      ensures IsHead(a, a.rope(a.query(x, h), pos), OfHead(kv.k[..seen], h), OfHead(kv.v[..seen], h), heads[h])
    {
      SdpaIsTheAverage(a, a.rope(a.query(x, h), pos), kv, h, seen);
    }
    assert |heads| == a.heads && Attend(a, x, pos, kv, seen) == a.out(heads);
  }

  /** The columns of the given bars: keys rotated to their place, values as they are. */
  ghost predicate AreColumns(a: Attention, ns: seq<Vec>, ks: seq<Col>, vs: seq<Col>) {
    && |ks| == |vs| == |ns|
    && forall j :: 0 <= j < |ns| ==>
         && |ks[j]| == |vs[j]| == a.heads
         && forall h :: 0 <= h < a.heads ==> ks[j][h] == a.rope(a.key(ns[j], h), j) && vs[j][h] == a.value(ns[j], h)
  }

  lemma CacheHoldsColumns(a: Attention, ns: seq<Vec>)
    ensures AreColumns(a, ns, CacheOf(a, ns).k, CacheOf(a, ns).v)
  {
  }

  /** Causal attention: bar by bar, over the columns up to the bar itself. */
  ghost predicate IsCausalAttention(a: Attention, ns: seq<Vec>, ys: seq<Vec>) {
    && |ys| == |ns|
    && exists ks, vs :: AreColumns(a, ns, ks, vs) && forall p :: 0 <= p < |ns| ==>
         IsAttended(a, ns[p], p, ks[..p + 1], vs[..p + 1], ys[p])
  }

  lemma AttendAllIsCausalAttention(a: Attention, ns: seq<Vec>)
    ensures IsCausalAttention(a, ns, AttendAll(a, ns))
  {
    var kv := CacheOf(a, ns);
    CacheHoldsColumns(a, ns);
    forall p | 0 <= p < |ns|
      ensures IsAttended(a, ns[p], p, kv.k[..p + 1], kv.v[..p + 1], AttendAll(a, ns)[p])
    {
      hide Attend, IsAttended, CacheOf;
      AttendIsAttended(a, ns[p], p, kv, p + 1);
    }
    hide IsAttended, AreColumns, CacheOf;
    assert AreColumns(a, ns, kv.k, kv.v);
  }

  // ------------------------------------------------------------------ the tower

  /** Number by number. */
  ghost predicate IsSum(z: Vec, x: Vec, y: Vec) {
    |x| == |y| ==> |z| == |x| && forall i :: 0 <= i < |x| ==> z[i] == x[i] + y[i]
  }

  ghost predicate AreNormed(norm: Vec -> Vec, xs: seq<Vec>, ns: seq<Vec>) {
    |ns| == |xs| && forall p :: 0 <= p < |xs| ==> ns[p] == norm(xs[p])
  }

  /** What is added goes on top of the input, the feed-forward of the normed sum on top of that. */
  ghost predicate IsResidual(b: Block, x: Vec, added: Vec, y: Vec) {
    exists mid :: IsSum(mid, x, added) && IsSum(y, mid, b.ffn(b.norm2(mid)))
  }

  ghost predicate AreResiduals(b: Block, xs: seq<Vec>, added: seq<Vec>, ys: seq<Vec>) {
    |added| == |xs| == |ys| && forall p :: 0 <= p < |xs| ==> IsResidual(b, xs[p], added[p], ys[p])
  }

  /** A block adds attention of the normed bars, then the feed-forward of the normed sum. */
  ghost predicate IsLayer(b: Block, xs: seq<Vec>, ys: seq<Vec>) {
    exists ns, added ::
      AreNormed(b.norm1, xs, ns) && IsCausalAttention(b.attn, ns, added) && AreResiduals(b, xs, added, ys)
  }

  lemma ResidualsAre(b: Block, x: Vec, added: Vec)
    ensures IsResidual(b, x, added, Residuals(b, x, added))
  {
    var mid := Plus(x, added);
    assert IsSum(mid, x, added) && IsSum(Residuals(b, x, added), mid, b.ffn(b.norm2(mid)));
  }

  lemma BlockIsALayer(b: Block, xs: seq<Vec>)
    ensures IsLayer(b, xs, BlockAll(b, xs))
  {
    var ns := Normed(b.norm1, xs);
    var added, ys := AttendAll(b.attn, ns), BlockAll(b, xs);
    AttendAllIsCausalAttention(b.attn, ns);
    hide AttendAll, IsCausalAttention, IsResidual, Residuals;
    forall p | 0 <= p < |xs|
      ensures IsResidual(b, xs[p], added[p], ys[p])
    {
      ResidualsAre(b, xs[p], added[p]);
    }
    assert AreNormed(b.norm1, xs, ns) && AreResiduals(b, xs, added, ys);
  }

  /** The inputs of all layers and the output of the last, from the embedded bars up. */
  ghost predicate IsTower(bs: seq<Block>, xs: seq<Vec>, layers: seq<seq<Vec>>) {
    && |layers| == |bs| + 1 && layers[0] == xs
    && forall l :: 0 <= l < |bs| ==> IsLayer(bs[l], layers[l], layers[l + 1])
  }

  /** The caches hold the columns of every layer's normed input. */
  ghost predicate CachesFollow(bs: seq<Block>, layers: seq<seq<Vec>>, cs: seq<Cache>)
    requires |layers| == |bs| + 1
  {
    && |cs| == |bs|
    && forall l :: 0 <= l < |bs| ==> HoldsLayer(bs[l], layers[l], cs[l])
  }

  ghost predicate HoldsLayer(b: Block, xs: seq<Vec>, c: Cache) {
    exists ns :: AreNormed(b.norm1, xs, ns) && AreColumns(b.attn, ns, c.k, c.v)
  }

  lemma {:induction false} TrunkIsATower(bs: seq<Block>, xs: seq<Vec>) returns (layers: seq<seq<Vec>>)
    ensures IsTower(bs, xs, layers) && CachesFollow(bs, layers, CachesAll(bs, xs))
    ensures layers[|bs|] == TrunkAll(bs, xs)
    decreases |bs|
  {
    hide IsLayer, HoldsLayer, BlockAll, CacheOf;
    if bs == [] {
      layers := [xs];
    } else {
      var rest := TrunkIsATower(bs[1..], BlockAll(bs[0], xs));
      layers := [xs] + rest;
      BlockIsALayer(bs[0], xs);
      FirstCacheHolds(bs[0], xs);
      forall l | 0 < l < |bs|
        ensures IsLayer(bs[l], layers[l], layers[l + 1]) && HoldsLayer(bs[l], layers[l], CachesAll(bs, xs)[l])
      {
        assert bs[l] == bs[1..][l - 1] && layers[l] == rest[l - 1] && layers[l + 1] == rest[l];
      }
    }
  }

  lemma FirstCacheHolds(b: Block, xs: seq<Vec>)
    ensures HoldsLayer(b, xs, CacheOf(b.attn, Normed(b.norm1, xs)))
  {
    CacheHoldsColumns(b.attn, Normed(b.norm1, xs));
    assert AreNormed(b.norm1, xs, Normed(b.norm1, xs));
  }

  /** The heads of the model over one final column. */
  ghost predicate IsOutput(m: Model, x: Vec, o: Output) {
    && o.h == m.normFinal(x)
    && o.logitsC == m.coarseHead(o.h)
    && o.coarseCond == m.argmax(o.logitsC)
    && o.logitsF == m.fineHead(o.h, o.coarseCond)
  }

  ghost predicate AreEmbedded(m: Model, ts: seq<Token>, xs: seq<Vec>) {
    && |xs| == |ts|
    && forall p :: 0 <= p < |ts| ==> IsSum(xs[p], m.tokenEmbed(ts[p].coarse, ts[p].fine), m.temporal(ts[p].ts))
  }

  /** What a context fill is: a tower over the embedded bars, its columns in the caches, and the heads of
      the last bar. */
  ghost predicate IsFill(m: Model, ts: seq<Token>, cs: seq<Cache>, o: Output)
    requires ts != []
  {
    exists layers: seq<seq<Vec>> ::
      && |layers| == |m.blocks| + 1 && AreEmbedded(m, ts, layers[0]) && IsTower(m.blocks, layers[0], layers)
      && CachesFollow(m.blocks, layers, cs)
      && |layers[|m.blocks|]| == |ts| && IsOutput(m, layers[|m.blocks|][|ts| - 1], o)
  }

  lemma ForwardIsAFill(m: Model, ts: seq<Token>)
    requires ts != []
    ensures IsFill(m, ts, CachesAll(m.blocks, EmbedAll(m, ts)), Forward(m, ts)[|ts| - 1])
  {
    var layers := TrunkIsATower(m.blocks, EmbedAll(m, ts));
    TowerStarts(m.blocks, EmbedAll(m, ts), layers);
    LastIsOutput(m, ts);
    hide IsTower, CachesFollow, TrunkAll, CachesAll, Forward, EmbedAll, AreEmbedded, IsOutput;
    assert IsOutput(m, layers[|m.blocks|][|ts| - 1], Forward(m, ts)[|ts| - 1]);
  }

  lemma LastIsOutput(m: Model, ts: seq<Token>)
    requires ts != []
    ensures AreEmbedded(m, ts, EmbedAll(m, ts))
    ensures IsOutput(m, TrunkAll(m.blocks, EmbedAll(m, ts))[|ts| - 1], Forward(m, ts)[|ts| - 1])
  {
  }

  lemma TowerStarts(bs: seq<Block>, xs: seq<Vec>, layers: seq<seq<Vec>>)
    requires IsTower(bs, xs, layers)
    ensures |layers| == |bs| + 1 && layers[0] == xs
  {
  }
}
