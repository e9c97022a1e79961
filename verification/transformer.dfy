/** The causal transformer the two context fills run, in exact arithmetic and for one row of the
    batch.  Weights are function-valued fields: projections, rotary embedding, norms, feed-forward,
    embeddings and heads are arbitrary.  Attention itself is written out, because the whole question
    is what its mask and its cache do. */
module Transformer {
  type Vec = seq<real>

  /** One bar's keys (or values): a vector for every head. */
  type Col = seq<Vec>

  datatype Attention = Attention(
    heads: nat,
    dHead: nat,
    query: (Vec, nat) -> Vec,
    key: (Vec, nat) -> Vec,
    value: (Vec, nat) -> Vec,
    rope: (Vec, nat) -> Vec,
    /** The unnormalised softmax weight of a key for a query. */
    weight: (Vec, Vec) -> real,
    out: seq<Vec> -> Vec)

  datatype Block = Block(norm1: Vec -> Vec, attn: Attention, norm2: Vec -> Vec, ffn: Vec -> Vec)

  datatype Token = Token(coarse: int, fine: int, ts: int)

  datatype Model = Model(
    tokenEmbed: (int, int) -> Vec,
    temporal: int -> Vec,
    blocks: seq<Block>,
    normFinal: Vec -> Vec,
    coarseHead: Vec -> Vec,
    argmax: Vec -> int,
    fineHead: (Vec, int) -> Vec)

  datatype Output = Output(h: Vec, logitsC: Vec, logitsF: Vec, coarseCond: int)

  /** A layer's cache: the rotated keys and the values, one column per bar seen. */
  datatype Cache = Cache(k: seq<Col>, v: seq<Col>)

  const EMPTY_CACHE := Cache([], [])

  function Plus(a: Vec, b: Vec): Vec {
    seq(if |a| <= |b| then |a| else |b|, i requires 0 <= i < |a| && i < |b| => a[i] + b[i])
  }

  // ------------------------------------------------------------------ attention

  function KeyCol(a: Attention, x: Vec, pos: nat): Col {
    seq(a.heads, h requires 0 <= h => a.rope(a.key(x, h), pos))
  }

  function ValueCol(a: Attention, x: Vec): Col {
    seq(a.heads, h requires 0 <= h => a.value(x, h))
  }

  function Part(c: seq<Vec>, h: nat): Vec {
    if h < |c| then c[h] else []
  }

  function Component(v: Vec, c: nat): real {
    if c < |v| then v[c] else 0.0
  }

  /** The weight of column `j`: zero where the mask hides it. */
  function MaskedWeight(a: Attention, q: Vec, ks: seq<Col>, h: nat, seen: nat, j: nat): real
    requires j < |ks|
  {
    if j < seen then a.weight(q, Part(ks[j], h)) else 0.0
  }

  function Mass(a: Attention, q: Vec, ks: seq<Col>, h: nat, seen: nat, n: nat): real
    requires n <= |ks|
  {
    if n == 0 then 0.0 else Mass(a, q, ks, h, seen, n - 1) + MaskedWeight(a, q, ks, h, seen, n - 1)
  }

  function Mixed(a: Attention, q: Vec, kv: Cache, h: nat, seen: nat, c: nat, n: nat): real
    requires n <= |kv.k| == |kv.v|
  {
    if n == 0 then 0.0
    else Mixed(a, q, kv, h, seen, c, n - 1)
         + MaskedWeight(a, q, kv.k, h, seen, n - 1) * Component(Part(kv.v[n - 1], h), c)
  }

  /** Scaled dot-product attention of one query over all columns of `kv`, with those from `seen` on
      masked out; `seen == |kv.k|` is attention without a mask. */
  function Sdpa(a: Attention, q: Vec, kv: Cache, h: nat, seen: nat): Vec
    requires |kv.k| == |kv.v|
  {
    var mass := Mass(a, q, kv.k, h, seen, |kv.k|);
    seq(a.dHead, c requires 0 <= c =>
      if mass == 0.0 then 0.0 else Mixed(a, q, kv, h, seen, c, |kv.k|) / mass)
  }

  /** All heads of the bar at `pos`, over `kv` masked from `seen` on. */
  function Attend(a: Attention, x: Vec, pos: nat, kv: Cache, seen: nat): Vec
    requires |kv.k| == |kv.v|
  {
    a.out(seq(a.heads, h requires 0 <= h => Sdpa(a, a.rope(a.query(x, h), pos), kv, h, seen)))
  }

  // ------------------------------------------------------------------ one pass over the whole context

  function Normed(norm: Vec -> Vec, xs: seq<Vec>): seq<Vec> {
    seq(|xs|, p requires 0 <= p < |xs| => norm(xs[p]))
  }

  /** What the batched pass writes into a layer's cache. */
  function CacheOf(a: Attention, xs: seq<Vec>): (kv: Cache)
    ensures |kv.k| == |kv.v| == |xs|
  {
    Cache(seq(|xs|, p requires 0 <= p < |xs| => KeyCol(a, xs[p], p)),
          seq(|xs|, p requires 0 <= p < |xs| => ValueCol(a, xs[p])))
  }

  /** Causal attention of every bar at once: bar `p` is masked from column `p + 1` on. */
  function AttendAll(a: Attention, xs: seq<Vec>): (ys: seq<Vec>)
    ensures |ys| == |xs|
  {
    seq(|xs|, p requires 0 <= p < |xs| => Attend(a, xs[p], p, CacheOf(a, xs), p + 1))
  }

  /** The two residual steps of a block, given what attention adds. */
  function Residuals(b: Block, x: Vec, attended: Vec): Vec {
    var h := Plus(x, attended);
    Plus(h, b.ffn(b.norm2(h)))
  }

  function BlockAll(b: Block, xs: seq<Vec>): (ys: seq<Vec>)
    ensures |ys| == |xs|
  {
    var attended := AttendAll(b.attn, Normed(b.norm1, xs));
    seq(|xs|, p requires 0 <= p < |xs| => Residuals(b, xs[p], attended[p]))
  }

  function TrunkAll(bs: seq<Block>, xs: seq<Vec>): (ys: seq<Vec>)
    ensures |ys| == |xs|
    decreases |bs|
  {
    if bs == [] then xs else TrunkAll(bs[1..], BlockAll(bs[0], xs))
  }

  /** A cache for every block, keys and values in step. */
  ghost predicate Aligned(bs: seq<Block>, cs: seq<Cache>) {
    |cs| == |bs| && forall l :: 0 <= l < |cs| ==> |cs[l].k| == |cs[l].v|
  }

  function CachesAll(bs: seq<Block>, xs: seq<Vec>): (cs: seq<Cache>)
    ensures Aligned(bs, cs)
    decreases |bs|
  {
    if bs == [] then []
    else [CacheOf(bs[0].attn, Normed(bs[0].norm1, xs))] + CachesAll(bs[1..], BlockAll(bs[0], xs))
  }

  function Embed(m: Model, t: Token): Vec {
    Plus(m.tokenEmbed(t.coarse, t.fine), m.temporal(t.ts))
  }

  function EmbedAll(m: Model, ts: seq<Token>): (xs: seq<Vec>)
    ensures |xs| == |ts|
  {
    seq(|ts|, p requires 0 <= p < |ts| => Embed(m, ts[p]))
  }

  function Heads(m: Model, x: Vec): Output {
    var h := m.normFinal(x);
    var logitsC := m.coarseHead(h);
    var coarse := m.argmax(logitsC);
    Output(h, logitsC, m.fineHead(h, coarse), coarse)
  }

  /** The parallel forward, read at every bar. */
  function Forward(m: Model, ts: seq<Token>): (os: seq<Output>)
    ensures |os| == |ts|
  {
    var ys := TrunkAll(m.blocks, EmbedAll(m, ts));
    seq(|ts|, p requires 0 <= p < |ts| => Heads(m, ys[p]))
  }

  // ------------------------------------------------------------------ one bar at a time

  function Grown(a: Attention, x: Vec, pos: nat, kv: Cache): Cache {
    Cache(kv.k + [KeyCol(a, x, pos)], kv.v + [ValueCol(a, x)])
  }

  function BlockStep(b: Block, x: Vec, pos: nat, kv: Cache): (Vec, Cache)
    requires |kv.k| == |kv.v|
  {
    var n := b.norm1(x);
    var kv' := Grown(b.attn, n, pos, kv);
    (Residuals(b, x, Attend(b.attn, n, pos, kv', |kv'.k|)), kv')
  }

  function TrunkStep(bs: seq<Block>, x: Vec, pos: nat, cs: seq<Cache>): (r: (Vec, seq<Cache>))
    requires Aligned(bs, cs)
    ensures Aligned(bs, r.1)
    decreases |bs|
  {
    if bs == [] then (x, [])
    else
      var (y, c) := BlockStep(bs[0], x, pos, cs[0]);
      var (z, rest) := TrunkStep(bs[1..], y, pos, cs[1..]);
      (z, [c] + rest)
  }

  function Step(m: Model, t: Token, pos: nat, cs: seq<Cache>): (r: (Output, seq<Cache>))
    requires Aligned(m.blocks, cs)
    ensures Aligned(m.blocks, r.1)
  {
    var (x, cs') := TrunkStep(m.blocks, Embed(m, t), pos, cs);
    (Heads(m, x), cs')
  }

  /** Feeding `ts` bar by bar, the first of them at position `from`. */
  function StepLoop(m: Model, ts: seq<Token>, from: nat, cs: seq<Cache>): (r: (seq<Output>, seq<Cache>))
    requires Aligned(m.blocks, cs)
    ensures |r.0| == |ts| && Aligned(m.blocks, r.1)
    decreases |ts|
  {
    if ts == [] then ([], cs)
    else
      var (o, cs') := Step(m, ts[0], from, cs);
      var (os, cs'') := StepLoop(m, ts[1..], from + 1, cs');
      ([o] + os, cs'')
  }

  function EmptyCaches(m: Model): (cs: seq<Cache>)
    ensures Aligned(m.blocks, cs)
  {
    seq(|m.blocks|, _ => EMPTY_CACHE)
  }
}
