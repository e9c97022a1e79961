/** Rollouts after a context fill: the cached chain against the chain that runs the whole model again
    for every bar. */
module Rollout {
  import opened Transformer
  import opened PrefillTheorems
  import opened AttentionLaws
  import opened ContextFill

  const BAR_MS := 60000

  /** How the next bar's two tokens are chosen at step `k`: by argmax, or by a draw. */
  type Pick = (Output, nat) -> (int, int)

  /** What a step contributes: the decoded return of the chosen tokens, or of their expectation. */
  type Read = (Output, (int, int)) -> real

  function Chosen(m: Model, ctx: seq<Token>, k: nat, pick: Pick): (int, int)
    requires ctx != []
  {
    pick(Forward(m, ctx)[|ctx| - 1], k)
  }

  function Extended(m: Model, ctx: seq<Token>, k: nat, tsDec: int, pick: Pick): seq<Token>
    requires ctx != []
  {
    var (c, f) := Chosen(m, ctx, k, pick);
    ctx + [Token(c, f, tsDec + k * BAR_MS)]
  }

  /** The sum over steps `k` to `h`, each from a parallel forward over everything so far.  The first
      step is the entry bar and contributes nothing. */
  function Recomputed(m: Model, ctx: seq<Token>, k: nat, h: nat, tsDec: int, pick: Pick, read: Read): real
    requires ctx != []
    decreases h + 1 - k
  {
    if k > h then 0.0
    else
      var here := if k >= 2 then read(Forward(m, ctx)[|ctx| - 1], Chosen(m, ctx, k, pick)) else 0.0;
      here + Recomputed(m, Extended(m, ctx, k, tsDec, pick), k + 1, h, tsDec, pick, read)
  }

  /** The contexts of a rollout, from step `k` on: each is the one before and the bar chosen from its last
      output, a minute later. */
  ghost predicate IsChain(m: Model, contexts: seq<seq<Token>>, k: nat, tsDec: int, pick: Pick) {
    forall j :: 0 <= j < |contexts| ==>
      && contexts[j] != []
      && var chosen := pick(Forward(m, contexts[j])[|contexts[j]| - 1], k + j);
         (j + 1 < |contexts| ==>
            contexts[j + 1] == contexts[j] + [Token(chosen.0, chosen.1, tsDec + (k + j) * 60000)])
  }

  /** What each step contributes: nothing at the entry bar, what is read at every later one. */
  ghost predicate AreTerms(m: Model, contexts: seq<seq<Token>>, terms: seq<real>, k: nat, pick: Pick, read: Read) {
    && |terms| == |contexts|
    && forall j :: 0 <= j < |contexts| ==>
      && contexts[j] != []
      && var out := Forward(m, contexts[j])[|contexts[j]| - 1];
         terms[j] == if k + j == 1 then 0.0 else read(out, pick(out, k + j))
  }

  lemma {:induction false} TotalCons(x: real, rest: seq<real>)
    ensures Total([x] + rest) == x + Total(rest)
  {
    if rest == [] {
      assert Total([x] + rest) == Total([]) + x by {
        assert ([x] + rest)[..0] == [] && [x] + rest == [x];
      }
    } else {
      var n := |rest| - 1;
      TotalCons(x, rest[..n]);
      assert ([x] + rest)[..n + 1] == [x] + rest[..n];
    }
  }

  lemma ChainCons(m: Model, ctx: seq<Token>, rest: seq<seq<Token>>, k: nat, tsDec: int, pick: Pick)
    requires ctx != [] && IsChain(m, rest, k + 1, tsDec, pick)
    requires rest != [] ==> rest[0] == Extended(m, ctx, k, tsDec, pick)
    ensures IsChain(m, [ctx] + rest, k, tsDec, pick)
  {
    hide Forward;
    var contexts := [ctx] + rest;
    forall j | 0 <= j < |contexts|
      ensures contexts[j] != []
      ensures var chosen := pick(Forward(m, contexts[j])[|contexts[j]| - 1], k + j);
              (j + 1 < |contexts| ==>
                 contexts[j + 1] == contexts[j] + [Token(chosen.0, chosen.1, tsDec + (k + j) * 60000)])
    {
      if j > 0 {
        assert contexts[j] == rest[j - 1] && k + 1 + (j - 1) == k + j;
      }
    }
  }

  lemma TermsCons(m: Model, ctx: seq<Token>, rest: seq<seq<Token>>, later: seq<real>, here: real, k: nat, pick: Pick,
                  read: Read)
    requires ctx != [] && AreTerms(m, rest, later, k + 1, pick, read) && k >= 1
    requires var out := Forward(m, ctx)[|ctx| - 1]; here == if k == 1 then 0.0 else read(out, pick(out, k))
    ensures AreTerms(m, [ctx] + rest, [here] + later, k, pick, read)
  {
    hide Forward;
    var contexts, terms := [ctx] + rest, [here] + later;
    forall j | 0 <= j < |contexts|
      ensures contexts[j] != []
      ensures var out := Forward(m, contexts[j])[|contexts[j]| - 1];
              terms[j] == if k + j == 1 then 0.0 else read(out, pick(out, k + j))
    {
      if j > 0 {
        assert contexts[j] == rest[j - 1] && terms[j] == later[j - 1] && k + 1 + (j - 1) == k + j;
      }
    }
  }

  lemma RecomputedStep(m: Model, ctx: seq<Token>, k: nat, h: nat, tsDec: int, pick: Pick, read: Read)
    requires ctx != [] && 1 <= k <= h
    ensures var out := Forward(m, ctx)[|ctx| - 1];
            && Extended(m, ctx, k, tsDec, pick) != []
            && Recomputed(m, ctx, k, h, tsDec, pick, read)
               == (if k == 1 then 0.0 else read(out, pick(out, k)))
                  + Recomputed(m, Extended(m, ctx, k, tsDec, pick), k + 1, h, tsDec, pick, read)
  {
    hide Forward;
  }

  lemma {:induction false} RecomputedIsASum(m: Model, ctx: seq<Token>, k: nat, h: nat, tsDec: int, pick: Pick,
                                            read: Read)
    returns (contexts: seq<seq<Token>>, terms: seq<real>)
    requires ctx != [] && 1 <= k <= h + 1
    ensures |contexts| == |terms| == h + 1 - k && (k <= h ==> contexts[0] == ctx)
    ensures IsChain(m, contexts, k, tsDec, pick) && AreTerms(m, contexts, terms, k, pick, read)
    ensures Recomputed(m, ctx, k, h, tsDec, pick, read) == Total(terms)
    decreases h + 1 - k
  {
    hide *;
    if k > h {
      contexts, terms := [], [];
      NothingToRead(m, ctx, k, h, tsDec, pick, read);
    } else {
      RecomputedStep(m, ctx, k, h, tsDec, pick, read);
      var rest, later := RecomputedIsASum(m, Extended(m, ctx, k, tsDec, pick), k + 1, h, tsDec, pick, read);
      var out := Forward(m, ctx)[|ctx| - 1];
      var here := if k == 1 then 0.0 else read(out, pick(out, k));
      contexts, terms := [ctx] + rest, [here] + later;
      ChainCons(m, ctx, rest, k, tsDec, pick);
      TermsCons(m, ctx, rest, later, here, k, pick, read);
      TotalCons(here, later);
    }
  }

  lemma NothingToRead(m: Model, ctx: seq<Token>, k: nat, h: nat, tsDec: int, pick: Pick, read: Read)
    requires ctx != [] && k > h
    ensures IsChain(m, [], k, tsDec, pick) && AreTerms(m, [], [], k, pick, read)
    ensures Recomputed(m, ctx, k, h, tsDec, pick, read) == Total([])
  {
  }

  /** A rollout of `h` steps is the sum of what its steps from the second on contribute, each read from the
      parallel forward over the context and all bars chosen before. */
  lemma RolloutIsASum(m: Model, ts: seq<Token>, h: nat, tsDec: int, pick: Pick, read: Read)
    returns (contexts: seq<seq<Token>>, terms: seq<real>)
    requires ts != []
    ensures |contexts| == |terms| == h && (h > 0 ==> contexts[0] == ts && terms[0] == 0.0)
    ensures IsChain(m, contexts, 1, tsDec, pick) && AreTerms(m, contexts, terms, 1, pick, read)
    ensures Recomputed(m, ts, 1, h, tsDec, pick, read) == Total(terms)
  {
    contexts, terms := RecomputedIsASum(m, ts, 1, h, tsDec, pick, read);
  }

  /** One rollout: a context fill, then a cached step per bar. */
  method Roll(m: Model, ts: seq<Token>, h: nat, tsDec: int, pick: Pick, read: Read) returns (cum: real)
    requires ts != []
    ensures cum == Recomputed(m, ts, 1, h, tsDec, pick, read)
  {
    hide Forward, Step, CachesAll, EmbedAll, Hold;
    var caches, first := FillContext(m, ts);
    var out := first.value;
    ghost var ctx := ts;
    cum := 0.0;
    var k := 1;
    while k <= h
      invariant 1 <= k && (k <= h + 1) && ctx != [] && (k <= h ==> |ctx| == |ts| - 1 + k)
      invariant Distinct(caches) && forall l :: 0 <= l < |caches| ==> fresh(caches[l])
      invariant k <= h ==> Hold(caches, CachesAll(m.blocks, EmbedAll(m, ctx))) && out == Forward(m, ctx)[|ctx| - 1]
      invariant cum + Recomputed(m, ctx, k, h, tsDec, pick, read) == Recomputed(m, ts, 1, h, tsDec, pick, read)
    {
      var chosen := pick(out, k);
      if k >= 2 {
        cum := cum + read(out, chosen);
      }
      ghost var ctx' := Extended(m, ctx, k, tsDec, pick);
      if k < h {
        var t := Token(chosen.0, chosen.1, tsDec + k * BAR_MS);
        StepIsForward(m, ctx, t);
        out := RunStep(m, t, caches, |ts| - 1 + k, CachesAll(m.blocks, EmbedAll(m, ctx)));
      }
      ctx := ctx';
      k := k + 1;
    }
  }

  /** The sums of that many independent rollouts of `h` steps, each from a fresh fill and with its own draws. */
  ghost predicate AreRolls(m: Model, ts: seq<Token>, h: nat, tsDec: int, picks: nat -> Pick, read: Read,
                           sums: seq<real>)
    requires ts != []
  {
    forall s :: 0 <= s < |sums| ==> sums[s] == Recomputed(m, ts, 1, h, tsDec, picks(s), read)
  }

  /** The sampled mean: the mean of the sums, a fresh fill and a fresh chain of draws for every sample. */
  method SampledMean(m: Model, ts: seq<Token>, h: nat, tsDec: int, picks: nat -> Pick, read: Read, samples: nat)
    returns (mu: real, ghost sums: seq<real>)
    requires ts != [] && samples > 0
    ensures |sums| == samples && AreRolls(m, ts, h, tsDec, picks, read, sums)
    ensures mu * samples as real == Total(sums)
  {
    hide Recomputed;
    var acc := 0.0;
    sums := [];
    for s := 0 to samples
      invariant |sums| == s && AreRolls(m, ts, h, tsDec, picks, read, sums) && acc == Total(sums)
    {
      var cum := Roll(m, ts, h, tsDec, picks(s), read);
      acc := acc + cum;
      sums := sums + [cum];
      assert sums[..s] + [cum] == sums && sums[..|sums| - 1] == sums[..s];
    }
    mu := acc / samples as real;
    Quotient(acc, samples as real);
  }
}
