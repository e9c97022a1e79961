/** The two context fills as they run: caches are objects that attention updates in place. */
module ContextFill {
  import opened Options
  import opened Transformer
  import opened PrefillTheorems
  import opened AttentionLaws

  class KvCache {
    var k: Option<seq<Col>>
    var v: Option<seq<Col>>

    constructor ()
      ensures Valid() && State() == EMPTY_CACHE
    {
      k, v := None, None;
    }

    ghost predicate Valid()
      reads this
    {
      (k.Some? <==> v.Some?) && (k.Some? ==> |k.value| == |v.value|)
    }

    function State(): (c: Cache)
      reads this
      requires Valid()
      ensures |c.k| == |c.v|
    {
      if k.None? then EMPTY_CACHE else Cache(k.value, v.value)
    }
  }

  ghost predicate Distinct(cs: seq<KvCache>) {
    forall i, j :: 0 <= i < j < |cs| ==> cs[i] != cs[j]
  }

  /** The caches hold exactly `s`, layer by layer. */
  ghost predicate Hold(cs: seq<KvCache>, s: seq<Cache>)
    reads cs
  {
    |s| == |cs| && forall l :: 0 <= l < |cs| ==> cs[l].Valid() && cs[l].State() == s[l]
  }

  method InitCaches(m: Model) returns (cs: seq<KvCache>)
    ensures Distinct(cs) && Hold(cs, EmptyCaches(m))
    ensures forall l :: 0 <= l < |cs| ==> fresh(cs[l])
  {
    cs := [];
    while |cs| < |m.blocks|
      invariant |cs| <= |m.blocks| && Distinct(cs)
      invariant forall l :: 0 <= l < |cs| ==> fresh(cs[l]) && cs[l].Valid() && cs[l].State() == EMPTY_CACHE
    {
      var c := new KvCache();
      cs := cs + [c];
    }
  }

  // ------------------------------------------------------------------ one bar at a time

  method AttentionStep(a: Attention, x: Vec, cache: KvCache, pos: nat) returns (y: Vec)
    requires cache.Valid()
    modifies cache
    ensures cache.Valid() && cache.State() == Grown(a, x, pos, old(cache.State()))
    ensures y == Attend(a, x, pos, cache.State(), |cache.State().k|)
    ensures AreWhole(a, cache.State()) ==> IsAttended(a, x, pos, cache.State().k, cache.State().v, y)
  {
    var k, v := KeyCol(a, x, pos), ValueCol(a, x);
    if cache.k.None? {
      cache.k, cache.v := Some([k]), Some([v]);
    } else {
      cache.k, cache.v := Some(cache.k.value + [k]), Some(cache.v.value + [v]);
    }
    y := Attend(a, x, pos, cache.State(), |cache.State().k|);
    if AreWhole(a, cache.State()) {
      WholeIsAttended(a, x, pos, cache.State());
    }
  }

  /** Every column has a key and a value for every head. */
  ghost predicate AreWhole(a: Attention, kv: Cache) {
    |kv.k| == |kv.v| && forall j :: 0 <= j < |kv.k| ==> |kv.k[j]| == |kv.v[j]| == a.heads
  }

  lemma WholeIsAttended(a: Attention, x: Vec, pos: nat, kv: Cache)
    requires AreWhole(a, kv)
    ensures IsAttended(a, x, pos, kv.k, kv.v, Attend(a, x, pos, kv, |kv.k|))
  {
    AttendIsAttended(a, x, pos, kv, |kv.k|);
    assert kv.k[..|kv.k|] == kv.k && kv.v[..|kv.v|] == kv.v;
  }

  method RunBlock(b: Block, x: Vec, cache: KvCache, pos: nat) returns (y: Vec)
    requires cache.Valid()
    modifies cache
    ensures cache.Valid() && (y, cache.State()) == BlockStep(b, x, pos, old(cache.State()))
  {
    var attended := AttentionStep(b.attn, b.norm1(x), cache, pos);
    var h := Plus(x, attended);
    y := Plus(h, b.ffn(b.norm2(h)));
  }

  lemma TrunkStepFrom(bs: seq<Block>, x: Vec, pos: nat, cs: seq<Cache>, l: nat, y: Vec, c: Cache, done: seq<Cache>)
    requires Aligned(bs, cs) && l < |bs| && (y, c) == BlockStep(bs[l], x, pos, cs[l])
    ensures var (z, rest) := TrunkStep(bs[l + 1..], y, pos, cs[l + 1..]);
            && TrunkStep(bs[l..], x, pos, cs[l..]) == (z, [c] + rest)
            && done + ([c] + rest) == (done + [c]) + rest
  {
    assert bs[l..][1..] == bs[l + 1..] && cs[l..][1..] == cs[l + 1..];
  }

  method RunTrunk(bs: seq<Block>, x0: Vec, caches: seq<KvCache>, pos: nat, ghost cs: seq<Cache>) returns (x: Vec)
    requires Distinct(caches) && Hold(caches, cs) && Aligned(bs, cs)
    modifies caches
    ensures Hold(caches, TrunkStep(bs, x0, pos, cs).1) && x == TrunkStep(bs, x0, pos, cs).0
  {
    x := x0;
    ghost var done: seq<Cache> := [];
    assert bs[0..] == bs && cs[0..] == cs;
    assert done + TrunkStep(bs, x, pos, cs).1 == TrunkStep(bs, x, pos, cs).1;
    var l := 0;
    while l < |bs|
      invariant l <= |bs| && |done| == l
      invariant forall j :: 0 <= j < |bs| ==> caches[j].Valid() && caches[j].State() == if j < l then done[j] else cs[j]
      invariant var (z, rest) := TrunkStep(bs[l..], x, pos, cs[l..]);
                TrunkStep(bs, x0, pos, cs) == (z, done + rest)
    {
      ghost var x1 := x;
      x := RunBlock(bs[l], x, caches[l], pos);
      TrunkStepFrom(bs, x1, pos, cs, l, x, caches[l].State(), done);
      done := done + [caches[l].State()];
      l := l + 1;
    }
    assert done + [] == done;
  }

  method RunStep(m: Model, t: Token, caches: seq<KvCache>, pos: nat, ghost cs: seq<Cache>) returns (o: Output)
    requires Distinct(caches) && Hold(caches, cs) && Aligned(m.blocks, cs)
    modifies caches
    ensures Hold(caches, Step(m, t, pos, cs).1) && o == Step(m, t, pos, cs).0
  {
    var x := RunTrunk(m.blocks, Embed(m, t), caches, pos, cs);
    o := Heads(m, x);
  }

  function LastOf(m: Model, ts: seq<Token>): Option<Output> {
    if ts == [] then None else Some(Forward(m, ts)[|ts| - 1])
  }

  lemma OneMoreBar(m: Model, ts: seq<Token>, p: nat)
    requires p < |ts|
    ensures var (o, cs) := Step(m, ts[p], p, CachesAll(m.blocks, EmbedAll(m, ts[..p])));
            Some(o) == LastOf(m, ts[..p + 1]) && cs == CachesAll(m.blocks, EmbedAll(m, ts[..p + 1]))
  {
    StepIsForward(m, ts[..p], ts[p]);
    assert ts[..p] + [ts[p]] == ts[..p + 1];
  }

  lemma NoBarYet(m: Model, ts: seq<Token>)
    ensures EmptyCaches(m) == CachesAll(m.blocks, EmbedAll(m, ts[..0]))
  {
    EmptyContext(m);
    assert EmbedAll(m, ts[..0]) == [];
  }

  /** `_fill_context`: one call of the model per bar.  It ends with what the batched pass computes;
      with no bar at all there is no output. */
  method FillContext(m: Model, ts: seq<Token>) returns (caches: seq<KvCache>, out: Option<Output>)
    ensures Distinct(caches) && Hold(caches, CachesAll(m.blocks, EmbedAll(m, ts)))
    ensures forall l :: 0 <= l < |caches| ==> fresh(caches[l])
    ensures out == LastOf(m, ts)
    ensures ts != [] ==> out.Some? && IsFill(m, ts, CachesAll(m.blocks, EmbedAll(m, ts)), out.value)
  {
    hide IsFill;
    if ts != [] {
      ForwardIsAFill(m, ts);
    }
    caches := InitCaches(m);
    ghost var cs := EmptyCaches(m);
    NoBarYet(m, ts);
    out := None;
    for p := 0 to |ts|
      invariant Distinct(caches) && Hold(caches, cs) && Aligned(m.blocks, cs)
      invariant forall l :: 0 <= l < |caches| ==> fresh(caches[l])
      invariant cs == CachesAll(m.blocks, EmbedAll(m, ts[..p]))
      invariant out == LastOf(m, ts[..p])
    {
      var o := RunStep(m, ts[p], caches, p, cs);
      OneMoreBar(m, ts, p);
      cs := Step(m, ts[p], p, cs).1;
      out := Some(o);
    }
    assert ts[..|ts|] == ts;
  }

  // ------------------------------------------------------------------ one pass

  method AttentionPrefill(a: Attention, xs: seq<Vec>, cache: KvCache) returns (ys: seq<Vec>)
    modifies cache
    ensures cache.Valid() && cache.State() == CacheOf(a, xs)
    ensures ys == AttendAll(a, xs)
    ensures AreColumns(a, xs, cache.State().k, cache.State().v) && IsCausalAttention(a, xs, ys)
  {
    AttendAllIsCausalAttention(a, xs);
    CacheHoldsColumns(a, xs);
    var kv := CacheOf(a, xs);
    cache.k, cache.v := Some(kv.k), Some(kv.v);
    ys := AttendAll(a, xs);
  }

  method BlockPrefill(b: Block, xs: seq<Vec>, cache: KvCache) returns (ys: seq<Vec>)
    modifies cache
    ensures cache.Valid() && cache.State() == CacheOf(b.attn, Normed(b.norm1, xs))
    ensures ys == BlockAll(b, xs)
  {
    var attended := AttentionPrefill(b.attn, Normed(b.norm1, xs), cache);
    ys := seq(|xs|, p requires 0 <= p < |xs| && |attended| == |xs| => Residuals(b, xs[p], attended[p]));
  }

  /** The pass has reached layer `l`: `done` are the caches so far, `xs` the columns between. */
  ghost predicate Reached(m: Model, ts: seq<Token>, l: nat, done: seq<Cache>, xs: seq<Vec>)
    requires l <= |m.blocks|
  {
    && |done| == l && |xs| == |ts|
    && TrunkAll(m.blocks, EmbedAll(m, ts)) == TrunkAll(m.blocks[l..], xs)
    && CachesAll(m.blocks, EmbedAll(m, ts)) == done + CachesAll(m.blocks[l..], xs)
  }

  lemma ReachedFirst(m: Model, ts: seq<Token>)
    ensures Reached(m, ts, 0, [], EmbedAll(m, ts))
  {
    var cs := CachesAll(m.blocks, EmbedAll(m, ts));
    assert m.blocks[0..] == m.blocks && [] + cs == cs;
  }

  lemma ReachedNext(m: Model, ts: seq<Token>, l: nat, done: seq<Cache>, xs: seq<Vec>)
    requires l < |m.blocks| && Reached(m, ts, l, done, xs)
    ensures var b := m.blocks[l];
            Reached(m, ts, l + 1, done + [CacheOf(b.attn, Normed(b.norm1, xs))], BlockAll(b, xs))
  {
    assert m.blocks[l..][1..] == m.blocks[l + 1..];
  }

  lemma ReachedLast(m: Model, ts: seq<Token>, done: seq<Cache>, xs: seq<Vec>)
    requires Reached(m, ts, |m.blocks|, done, xs) && ts != []
    ensures done == CachesAll(m.blocks, EmbedAll(m, ts))
    ensures Heads(m, xs[|xs| - 1]) == Forward(m, ts)[|ts| - 1]
  {
    assert done + [] == done;
  }

  /** `batched_fill`: one pass per block over the whole context, then the last position's heads. */
  method BatchedFill(m: Model, ts: seq<Token>) returns (caches: seq<KvCache>, out: Output)
    requires ts != []
    ensures Distinct(caches) && Hold(caches, CachesAll(m.blocks, EmbedAll(m, ts)))
    ensures forall l :: 0 <= l < |caches| ==> fresh(caches[l])
    ensures out == Forward(m, ts)[|ts| - 1]
    ensures IsFill(m, ts, CachesAll(m.blocks, EmbedAll(m, ts)), out)
  {
    hide IsFill;
    ForwardIsAFill(m, ts);
    caches := InitCaches(m);
    var xs := EmbedAll(m, ts);
    ghost var done: seq<Cache> := [];
    ReachedFirst(m, ts);
    var l := 0;
    while l < |m.blocks|
      invariant l <= |m.blocks| == |caches| && Distinct(caches) && Reached(m, ts, l, done, xs)
      invariant forall j :: 0 <= j < |caches| ==> fresh(caches[j]) && caches[j].Valid()
      invariant forall j :: 0 <= j < l ==> caches[j].State() == done[j]
    {
      ReachedNext(m, ts, l, done, xs);
      xs := BlockPrefill(m.blocks[l], xs, caches[l]);
      done := done + [caches[l].State()];
      l := l + 1;
    }
    ReachedLast(m, ts, done, xs);
    out := Heads(m, xs[|xs| - 1]);
  }
}
