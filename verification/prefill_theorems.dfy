/** The batched context fill computes what the bar-by-bar fill computes. */
module PrefillTheorems {
  import opened Transformer

  // ------------------------------------------------------------------ the mask is a prefix

  lemma {:induction false} MassOfPrefix(a: Attention, q: Vec, ks: seq<Col>, h: nat, seen: nat, n: nat)
    requires seen <= n <= |ks|
    ensures Mass(a, q, ks, h, seen, n) == Mass(a, q, ks[..seen], h, seen, seen)
  {
    if n > seen {
      MassOfPrefix(a, q, ks, h, seen, n - 1);
    } else {
      MassAgrees(a, q, ks, ks[..seen], h, seen, seen);
    }
  }

  lemma {:induction false} MassAgrees(a: Attention, q: Vec, ks: seq<Col>, ks': seq<Col>, h: nat, seen: nat, n: nat)
    requires n <= |ks| && n <= |ks'| && ks[..n] == ks'[..n]
    ensures Mass(a, q, ks, h, seen, n) == Mass(a, q, ks', h, seen, n)
  {
    if n > 0 {
      assert ks[..n][n - 1] == ks'[..n][n - 1];
      assert ks[..n][..n - 1] == ks[..n - 1] && ks'[..n][..n - 1] == ks'[..n - 1];
      MassAgrees(a, q, ks, ks', h, seen, n - 1);
    }
  }

  lemma {:induction false} MixedOfPrefix(a: Attention, q: Vec, kv: Cache, h: nat, seen: nat, c: nat, n: nat)
    requires seen <= n <= |kv.k| == |kv.v|
    ensures Mixed(a, q, kv, h, seen, c, n) == Mixed(a, q, Cache(kv.k[..seen], kv.v[..seen]), h, seen, c, seen)
  {
    if n > seen {
      MixedOfPrefix(a, q, kv, h, seen, c, n - 1);
    } else {
      MixedAgrees(a, q, kv, Cache(kv.k[..seen], kv.v[..seen]), h, seen, c, seen);
    }
  }

  lemma {:induction false} MixedAgrees(a: Attention, q: Vec, kv: Cache, kv': Cache, h: nat, seen: nat, c: nat, n: nat)
    requires n <= |kv.k| == |kv.v| && n <= |kv'.k| == |kv'.v|
    requires kv.k[..n] == kv'.k[..n] && kv.v[..n] == kv'.v[..n]
    ensures Mixed(a, q, kv, h, seen, c, n) == Mixed(a, q, kv', h, seen, c, n)
  {
    if n > 0 {
      assert kv.k[..n][n - 1] == kv'.k[..n][n - 1] && kv.v[..n][n - 1] == kv'.v[..n][n - 1];
      assert kv.k[..n][..n - 1] == kv.k[..n - 1] && kv'.k[..n][..n - 1] == kv'.k[..n - 1];
      assert kv.v[..n][..n - 1] == kv.v[..n - 1] && kv'.v[..n][..n - 1] == kv'.v[..n - 1];
      MixedAgrees(a, q, kv, kv', h, seen, c, n - 1);
    }
  }

  lemma SdpaOfPrefix(a: Attention, q: Vec, kv: Cache, h: nat, seen: nat)
    requires seen <= |kv.k| == |kv.v|
    ensures Sdpa(a, q, kv, h, seen) == Sdpa(a, q, Cache(kv.k[..seen], kv.v[..seen]), h, seen)
  {
    MassOfPrefix(a, q, kv.k, h, seen, |kv.k|);
    forall c: nat
      ensures Mixed(a, q, kv, h, seen, c, |kv.k|) == Mixed(a, q, Cache(kv.k[..seen], kv.v[..seen]), h, seen, c, seen)
    {
      MixedOfPrefix(a, q, kv, h, seen, c, |kv.k|);
    }
  }

  /** A masked column contributes nothing: attending with a causal mask over all columns is
      attending without one over the columns up to the bar itself. */
  lemma MaskIsPrefix(a: Attention, x: Vec, pos: nat, kv: Cache, seen: nat)
    requires seen <= |kv.k| == |kv.v|
    ensures Attend(a, x, pos, kv, seen) == Attend(a, x, pos, Cache(kv.k[..seen], kv.v[..seen]), seen)
  {
    var kv' := Cache(kv.k[..seen], kv.v[..seen]);
    forall h: nat
      ensures Sdpa(a, a.rope(a.query(x, h), pos), kv, h, seen) == Sdpa(a, a.rope(a.query(x, h), pos), kv', h, seen)
    {
      SdpaOfPrefix(a, a.rope(a.query(x, h), pos), kv, h, seen);
    }
    assert seq(a.heads, h requires 0 <= h => Sdpa(a, a.rope(a.query(x, h), pos), kv, h, seen))
        == seq(a.heads, h requires 0 <= h => Sdpa(a, a.rope(a.query(x, h), pos), kv', h, seen));
  }

  // ------------------------------------------------------------------ one block

  lemma CacheOfSnoc(a: Attention, xs: seq<Vec>, x: Vec)
    ensures CacheOf(a, xs + [x]) == Grown(a, x, |xs|, CacheOf(a, xs))
  {
  }

  lemma CacheOfPrefix(a: Attention, xs: seq<Vec>, n: nat)
    requires n <= |xs|
    ensures CacheOf(a, xs).k[..n] == CacheOf(a, xs[..n]).k && CacheOf(a, xs).v[..n] == CacheOf(a, xs[..n]).v
  {
  }

  lemma NormedPrefix(norm: Vec -> Vec, xs: seq<Vec>, n: nat)
    requires n <= |xs|
    ensures Normed(norm, xs)[..n] == Normed(norm, xs[..n])
  {
  }

  lemma AttentionIsCausal(a: Attention, ns: seq<Vec>, n: nat)
    requires n <= |ns|
    ensures AttendAll(a, ns)[..n] == AttendAll(a, ns[..n])
  {
    hide Attend, CacheOf;
    forall p | 0 <= p < n
      ensures AttendAll(a, ns)[p] == AttendAll(a, ns[..n])[p]
    {
      MaskIsPrefix(a, ns[p], p, CacheOf(a, ns), p + 1);
      MaskIsPrefix(a, ns[p], p, CacheOf(a, ns[..n]), p + 1);
      CacheOfPrefix(a, ns, p + 1);
      CacheOfPrefix(a, ns[..n], p + 1);
      assert ns[..n][..p + 1] == ns[..p + 1];
    }
  }

  /** A block is causal: its first `n` columns read nothing past the first `n` inputs. */
  lemma BlockIsCausal(b: Block, xs: seq<Vec>, n: nat)
    requires n <= |xs|
    ensures BlockAll(b, xs)[..n] == BlockAll(b, xs[..n])
  {
    var ns := Normed(b.norm1, xs);
    NormedPrefix(b.norm1, xs, n);
    AttentionIsCausal(b.attn, ns, n);
    hide AttendAll, Normed, Residuals;
    assert forall p :: 0 <= p < n ==> AttendAll(b.attn, ns)[p] == AttendAll(b.attn, ns)[..n][p];
  }

  /** One step of a block on the cache of the bars before is the block's last column. */
  lemma BlockStepIsLast(b: Block, xs: seq<Vec>, x: Vec)
    ensures BlockStep(b, x, |xs|, CacheOf(b.attn, Normed(b.norm1, xs)))
         == (BlockAll(b, xs + [x])[|xs|], CacheOf(b.attn, Normed(b.norm1, xs + [x])))
  {
    var ns := Normed(b.norm1, xs);
    assert Normed(b.norm1, xs + [x]) == ns + [b.norm1(x)];
    CacheOfSnoc(b.attn, ns, b.norm1(x));
  }

  lemma BlockAllSnoc(b: Block, xs: seq<Vec>, x: Vec)
    ensures BlockAll(b, xs + [x]) == BlockAll(b, xs) + [BlockAll(b, xs + [x])[|xs|]]
  {
    BlockIsCausal(b, xs + [x], |xs|);
    assert (xs + [x])[..|xs|] == xs;
  }

  // ------------------------------------------------------------------ the trunk

  lemma {:induction false} TrunkStepIsLast(bs: seq<Block>, xs: seq<Vec>, x: Vec)
    ensures TrunkStep(bs, x, |xs|, CachesAll(bs, xs)) == (TrunkAll(bs, xs + [x])[|xs|], CachesAll(bs, xs + [x]))
    decreases |bs|
  {
    if bs != [] {
      var b, rest := bs[0], bs[1..];
      var ys := BlockAll(b, xs);
      var y := BlockAll(b, xs + [x])[|xs|];
      BlockStepIsLast(b, xs, x);
      BlockAllSnoc(b, xs, x);
      assert CachesAll(bs, xs)[1..] == CachesAll(rest, ys);
      TrunkStepIsLast(rest, ys, y);
    }
  }

  lemma {:induction false} TrunkIsCausal(bs: seq<Block>, xs: seq<Vec>, n: nat)
    requires n <= |xs|
    ensures TrunkAll(bs, xs)[..n] == TrunkAll(bs, xs[..n])
    decreases |bs|
  {
    if bs != [] {
      BlockIsCausal(bs[0], xs, n);
      TrunkIsCausal(bs[1..], BlockAll(bs[0], xs), n);
    }
  }

  // ------------------------------------------------------------------ the model

  lemma EmptyContext(m: Model)
    ensures EmptyCaches(m) == CachesAll(m.blocks, [])
  {
    EmptyCachesFrom(m.blocks);
  }

  lemma {:induction false} EmptyCachesFrom(bs: seq<Block>)
    ensures CachesAll(bs, []) == seq(|bs|, _ => EMPTY_CACHE)
    decreases |bs|
  {
    if bs != [] {
      EmptyCachesFrom(bs[1..]);
      assert BlockAll(bs[0], []) == [];
      assert CacheOf(bs[0].attn, Normed(bs[0].norm1, [])) == EMPTY_CACHE;
    }
  }

  lemma EmbedAppend(m: Model, ts: seq<Token>, us: seq<Token>)
    ensures EmbedAll(m, ts + us) == EmbedAll(m, ts) + EmbedAll(m, us)
  {
  }

  /** One step after a fill of `ts` is the last bar of a parallel forward over `ts` and the bar. */
  lemma StepIsForward(m: Model, ts: seq<Token>, t: Token)
    ensures Step(m, t, |ts|, CachesAll(m.blocks, EmbedAll(m, ts)))
         == (Forward(m, ts + [t])[|ts|], CachesAll(m.blocks, EmbedAll(m, ts + [t])))
  {
    EmbedAppend(m, ts, [t]);
    assert EmbedAll(m, [t]) == [Embed(m, t)];
    TrunkStepIsLast(m.blocks, EmbedAll(m, ts), Embed(m, t));
  }

  lemma ForwardIsCausal(m: Model, ts: seq<Token>, n: nat)
    requires n <= |ts|
    ensures Forward(m, ts)[..n] == Forward(m, ts[..n])
  {
    TrunkIsCausal(m.blocks, EmbedAll(m, ts), n);
    assert EmbedAll(m, ts)[..n] == EmbedAll(m, ts[..n]);
    var ys := TrunkAll(m.blocks, EmbedAll(m, ts));
    assert forall p :: 0 <= p < n ==> ys[p] == ys[..n][p];
  }

  /** Stepping through `us` after ANY fill of `ts` gives, bar by bar, the parallel forward over the
      whole of `ts + us`, and leaves the caches a batched fill of `ts + us` would leave. */
  lemma {:induction false} SteppingIsForward(m: Model, ts: seq<Token>, us: seq<Token>)
    ensures StepLoop(m, us, |ts|, CachesAll(m.blocks, EmbedAll(m, ts)))
         == (Forward(m, ts + us)[|ts|..], CachesAll(m.blocks, EmbedAll(m, ts + us)))
    decreases |us|
  {
    if us == [] {
      assert ts + us == ts;
    } else {
      var ts', os := ts + [us[0]], Forward(m, ts + us);
      assert ts' + us[1..] == ts + us;
      StepIsForward(m, ts, us[0]);
      SteppingIsForward(m, ts', us[1..]);
      ForwardIsCausal(m, ts + us, |ts'|);
      assert (ts + us)[..|ts'|] == ts';
      assert os[|ts|] == os[..|ts'|][|ts|];
      Uncons(os, |ts|);
      var cs, cs' := CachesAll(m.blocks, EmbedAll(m, ts)), CachesAll(m.blocks, EmbedAll(m, ts'));
      assert Step(m, us[0], |ts|, cs) == (os[|ts|], cs');
      assert StepLoop(m, us[1..], |ts| + 1, cs').0 == os[|ts| + 1..];
      assert StepLoop(m, us, |ts|, cs).0 == [os[|ts|]] + os[|ts| + 1..];
    }
  }

  lemma Uncons(os: seq<Output>, n: nat)
    requires n < |os|
    ensures os[n..] == [os[n]] + os[n + 1..]
  {
  }

  /** For any model and any context of at least one bar: the step loop from empty caches and the
      single batched pass leave the same keys and values in every layer, and the same final hidden
      state, coarse choice and logits; and the hidden states agree at every bar on the way. */
  lemma FillsAgree(m: Model, ts: seq<Token>)
    ensures StepLoop(m, ts, 0, EmptyCaches(m)) == (Forward(m, ts), CachesAll(m.blocks, EmbedAll(m, ts)))
  {
    EmptyContext(m);
    assert EmbedAll(m, []) == [];
    assert [] + ts == ts;
    SteppingIsForward(m, [], ts);
    assert Forward(m, ts)[0..] == Forward(m, ts);
  }

  /** So a rollout does not care how its context was filled: generating after a batched fill gives
      the parallel forward over context and generated bars together. */
  lemma RolloutAfterEitherFill(m: Model, ts: seq<Token>, us: seq<Token>)
    ensures StepLoop(m, us, |ts|, StepLoop(m, ts, 0, EmptyCaches(m)).1).0 == Forward(m, ts + us)[|ts|..]
    ensures StepLoop(m, us, |ts|, CachesAll(m.blocks, EmbedAll(m, ts))).0 == Forward(m, ts + us)[|ts|..]
  {
    FillsAgree(m, ts);
    SteppingIsForward(m, ts, us);
  }
}
