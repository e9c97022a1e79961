/** One ingest run: downloads in any order, a causal sweep per coverage class before the first build of
    the class, one failure isolated to its symbol, a fatal one ending the run, and the exit gate. */
module IngestRun {
  import opened Options
  import opened IngestBooks
  import opened IngestLog
  import opened IngestCauses

  datatype Raised = Nothing | Transient | Fatal

  datatype Knobs = Knobs(cap: int, floor: int, concurrency: nat)

  datatype Verdict = Ok | Wait | Abort

  /** The governor's decision when nothing is evictable, which is so whenever it is asked: a symbol's raw
      is evicted in the event that records it. */
  function Admit(k: Knobs, cache: int, incoming: nat, free: int): Verdict {
    if cache + incoming <= k.cap && free - incoming >= k.floor then Ok
    else if incoming > k.cap || free + cache - incoming < k.floor then Abort
    else Wait
  }

  /** Refused for good exactly when not even an emptied cache would do; told to wait when it would. */
  lemma AbortMeansNever(k: Knobs, cache: nat, incoming: nat, free: int)
    ensures Admit(k, cache, incoming, free) == Ok <==> cache + incoming <= k.cap && free - incoming >= k.floor
    ensures Admit(k, cache, incoming, free) == Abort <==> Admit(k, 0, incoming, free + cache) != Ok
  {
  }

  /** The submit loop: books, abort, looks at the disk. */
  function SubmittedAll(k: Knobs, w: World, b: Books, looks: nat): (Books, bool, nat)
    decreases |b.todo|
  {
    if b.todo == [] || |b.inflight| >= k.concurrency then (b, false, looks)
    else
      var est := w.est(b.todo[0]);
      match Admit(k, b.cache, est, w.free(looks))
      case Abort => (b, true, looks + 1)
      case Wait => (b, false, looks + 1)
      case Ok => SubmittedAll(k, w, Submitted(b, est), looks + 1)
  }

  lemma SubmittedStep(k: Knobs, w: World, b: Books, looks: nat)
    ensures b.todo == [] || |b.inflight| >= k.concurrency ==> SubmittedAll(k, w, b, looks) == (b, false, looks)
    ensures b.todo != [] && |b.inflight| < k.concurrency ==>
              match Admit(k, b.cache, w.est(b.todo[0]), w.free(looks))
              case Abort => SubmittedAll(k, w, b, looks) == (b, true, looks + 1)
              case Wait => SubmittedAll(k, w, b, looks) == (b, false, looks + 1)
              case Ok =>
                && b.cache + w.est(b.todo[0]) <= k.cap
                && SubmittedAll(k, w, b, looks) == SubmittedAll(k, w, Submitted(b, w.est(b.todo[0])), looks + 1)
  {
  }

  /** Only symbols with a month to download fail or are built in this run. */
  ghost predicate HadMonths(plan: Plan, b: Books, before: set<Name>) {
    && (forall s :: s in b.failed ==> MonthsOf(plan, s) != {})
    && (forall s :: s in b.built ==> s in before || MonthsOf(plan, s) != {})
  }

  // ------------------------------------------------------------------ the first list of downloads

  ghost predicate IsPlan(plan: Plan, order: seq<Name>) {
    && (forall i, j :: 0 <= i < j < |order| ==> order[i] != order[j])
    && (forall s :: s in order <==> s in plan)
    && (forall s, i, j :: s in plan && 0 <= i < j < |plan[s]| ==> plan[s][i] != plan[s][j])
  }

  function MonthKeys(s: Name, months: seq<Month>): (r: seq<Key>)
    ensures forall k :: k in r <==> k.0 == s && k.1 in months
  {
    if months == [] then [] else [(s, months[0])] + MonthKeys(s, months[1..])
  }

  /** `[(s, m) for s in pending for m in plan[s]]`. */
  function TodoOf(plan: Plan, order: seq<Name>, built: set<Name>): (r: seq<Key>)
    requires forall s :: s in order ==> s in plan
    ensures forall k :: k in r <==> k.0 in order && k.0 !in built && k.1 in plan[k.0]
  {
    if order == [] then []
    else (if order[0] in built then [] else MonthKeys(order[0], plan[order[0]])) + TodoOf(plan, order[1..], built)
  }

  predicate AllDistinct(s: seq<Key>) {
    forall i, j :: 0 <= i < j < |s| ==> s[i] != s[j]
  }

  lemma {:induction false} MonthKeysAreDistinct(s: Name, months: seq<Month>)
    requires forall i, j :: 0 <= i < j < |months| ==> months[i] != months[j]
    ensures AllDistinct(MonthKeys(s, months))
  {
    if months != [] {
      MonthKeysAreDistinct(s, months[1..]);
      var rest := MonthKeys(s, months[1..]);
      forall j | 0 <= j < |rest|
        ensures rest[j] != (s, months[0])
      {
        assert rest[j] in rest;
      }
    }
  }

  lemma JoinDistinct(a: seq<Key>, b: seq<Key>)
    requires AllDistinct(a) && AllDistinct(b) && forall k :: k in a ==> k !in b
    ensures AllDistinct(a + b)
  {
    forall i, j | 0 <= i < |a| && 0 <= j < |b|
      ensures a[i] != b[j]
    {
      assert a[i] in a && b[j] in b;
    }
  }

  lemma {:induction false} TodoIsDistinct(plan: Plan, order: seq<Name>, built: set<Name>)
    requires (forall s :: s in order ==> s in plan)
    requires forall i, j :: 0 <= i < j < |order| ==> order[i] != order[j]
    requires forall s, i, j :: s in plan && 0 <= i < j < |plan[s]| ==> plan[s][i] != plan[s][j]
    ensures AllDistinct(TodoOf(plan, order, built))
  {
    if order != [] {
      TodoIsDistinct(plan, order[1..], built);
      MonthKeysAreDistinct(order[0], plan[order[0]]);
      var first := if order[0] in built then [] else MonthKeys(order[0], plan[order[0]]);
      assert order[0] !in order[1..];
      JoinDistinct(first, TodoOf(plan, order[1..], built));
    }
  }

  lemma FirstBooks(plan: Plan, order: seq<Name>, built: set<Name>)
    requires IsPlan(plan, order)
    ensures var b := Books(TodoOf(plan, order, built), map[], map[], map[], 0, {}, built);
            IsOrderly(plan, b) && IsCaughtUp(plan, b) && IsBalanced(b, 0)
  {
    TodoIsDistinct(plan, order, built);
    var b := Books(TodoOf(plan, order, built), map[], map[], map[], 0, {}, built);
    assert AllDistinct(b.todo);
    assert forall k :: k in b.todo ==> IsWaiting(plan, b, k);
  }

  // ------------------------------------------------------------------ what arrives

  lemma NotBuildable(plan: Plan, w: World, k: Key)
    requires k.1 in MonthsOf(plan, k.0) && w.download(k).Fails?
    ensures !IsBuildable(plan, w, k.0)
  {
    assert (k.0, k.1) == k;
  }

  lemma ArrivedIsStaged(w: World, b: Books, k: Key, bytes: nat, est: nat)
    requires HaveArrived(w, b) && w.download(k).Arrives?
    ensures HaveArrived(w, Received(b, k, bytes, est))
  {
    forall s, m | m in Staged(Received(b, k, bytes, est), s)
      ensures w.download((s, m)).Arrives?
    {
      ReceivedStages(b, k, bytes, est, s);
      assert s == k.0 && m == k.1 ==> (s, m) == k;
    }
  }

  lemma StagedHasArrived(plan: Plan, w: World, b: Books, s: Name)
    requires HaveArrived(w, b) && s in b.staged && b.staged[s] == MonthsOf(plan, s)
    ensures IsBuildable(plan, w, s) <==> w.hasStream(s) && w.build(s).Some?
  {
    assert Staged(b, s) == MonthsOf(plan, s);
  }

  lemma LateExplains(plan: Plan, w: World, listing: Listing, sweeps: map<Kind, Sweep>, log: seq<Event>, k: Key)
    requires IsExplained(plan, w, listing, log) && SweepsMatch(sweeps, log)
    ensures IsExplained(plan, w, listing, log + LateOf(k)) && SweepsMatch(sweeps, log + LateOf(k))
  {
    hide IsExplained, SweepsMatch;
    QuietExplains(plan, w, listing, sweeps, log, RawFetched(k.0, k.1));
    QuietExplains(plan, w, listing, sweeps, log + [RawFetched(k.0, k.1)], RawDropped(k.0, {k.1}));
    assert log + LateOf(k) == log + [RawFetched(k.0, k.1)] + [RawDropped(k.0, {k.1})];
  }

  lemma FinalizesWellIs(w: World, listing: Listing, swept: set<Kind>, s: Name)
    ensures FinalizesWell(w, listing, swept, s) ==> w.hasStream(s) && w.build(s).Some?
  {
  }

  /** No symbol was delisted. */
  const NO_DELISTINGS := Listing(map[], 0)

  /** Every green sweep is on the log. */
  ghost predicate AreLogged(sweeps: map<Kind, Sweep>, log: seq<Event>) {
    forall l :: l in sweeps && IsGreen(sweeps[l]) ==> SweptGreen(log, l)
  }

  ghost predicate AreGreen(sweeps: map<Kind, Sweep>) {
    forall l :: l in sweeps ==> IsGreen(sweeps[l])
  }

  lemma OneMoreSweep(sweeps: map<Kind, Sweep>, log: seq<Event>, kind: Kind, w: Sweep)
    requires AreLogged(sweeps, log) && AreGreen(sweeps) && log != [] && log[|log| - 1] == Swept(kind, w)
    ensures AreLogged(sweeps[kind := w], log)
    ensures AreGreen(sweeps[kind := w]) <==> IsGreen(w)
  {
    assert Swept(kind, w) in log;
    assert sweeps[kind := w][kind] == w;
  }

  // ------------------------------------------------------------------ the run

  class Orchestrator {
    const plan: Plan
    const listing: Listing
    const before: set<Name>
    const knobs: Knobs
    const world: World
    var books: Books
    var sweeps: map<Kind, Sweep>
    var aborted: bool
    var log: seq<Event>
    var looks: nat

    constructor (plan: Plan, order: seq<Name>, listing: Listing, knobs: Knobs, world: World, built: set<Name>)
      requires IsPlan(plan, order)
      ensures this.plan == plan && this.listing == listing && this.knobs == knobs && this.world == world
      ensures before == built && books == Books(TodoOf(plan, order, built), map[], map[], map[], 0, {}, built)
      ensures sweeps == map[] && log == [] && looks == 0 && IsRunning() && KeepsAccounts()
    {
      this.before := built;
      this.plan, this.listing, this.knobs, this.world := plan, listing, knobs, world;
      books := Books(TodoOf(plan, order, built), map[], map[], map[], 0, {}, built);
      sweeps, aborted, log, looks := map[], false, [], 0;
      FirstBooks(plan, order, built);
    }

    /** Every sweep recorded so far is on the log. */
    ghost predicate SweepsAreLogged()
      reads this`sweeps, this`log
    {
      AreLogged(sweeps, log)
    }

    ghost predicate HasOnlyGreenSweeps()
      reads this`sweeps
    {
      AreGreen(sweeps)
    }

    /** The log is in order and agrees with the books, in a run that was aborted too. */
    ghost predicate KeepsAccounts()
      reads this`books, this`sweeps, this`log
    {
      && IsGated(log, listing) && SweepsAreLogged() && AgreesWith(log, books, before)
      && books.failed !! books.built && before <= books.built && HadMonths(plan, books, before)
      && HasCauses()
    }

    /** Every record and every failure on the log is explained by what the outside decided. */
    ghost predicate HasCauses()
      reads this`books, this`sweeps, this`log
    {
      IsExplained(plan, world, listing, log) && SweepsMatch(sweeps, log) && HaveArrived(world, books)
    }

    /** What holds between events, until a fatal one. */
    ghost predicate IsRunning()
      reads this`books, this`sweeps, this`aborted
    {
      IsOrderly(plan, books) && IsCaughtUp(plan, books) && IsBalanced(books, 0) && HasOnlyGreenSweeps() && !aborted
    }

    method Log(e: Event)
      requires IsGated(log, listing) && MayHappen(log, listing, e) && SweepsAreLogged()
      requires IsExplained(plan, world, listing, log + [e])
      modifies this`log
      ensures log == old(log) + [e] && IsGated(log, listing) && SweepsAreLogged()
      ensures IsExplained(plan, world, listing, log)
    {
      LogOneMore(log, listing, e);
      SweepsStayLogged(log + [e]);
      log := log + [e];
    }

    lemma SweepsStayLogged(log': seq<Event>)
      requires SweepsAreLogged() && log <= log'
      ensures AreLogged(sweeps, log')
    {
      forall l | l in sweeps && IsGreen(sweeps[l])
        ensures SweptGreen(log', l)
      {
        StillGreen(log, log', l);
      }
    }

    /** One sweep: recorded, and fatal unless green. */
    method RunSweep(kind: Kind, s: Name) returns (raised: Raised)
      requires kind !in sweeps && IsGated(log, listing) && SweepsAreLogged() && HasOnlyGreenSweeps()
      requires IsExplained(plan, world, listing, log) && SweepsMatch(sweeps, log)
      modifies this`sweeps, this`log
      ensures IsGated(log, listing) && SweepsAreLogged()
      ensures IsExplained(plan, world, listing, log) && SweepsMatch(sweeps, log)
      ensures match SweepOf(world, s)
              case None => raised == Transient && sweeps == old(sweeps) && log == old(log)
              case Some(w) =>
                && sweeps == old(sweeps)[kind := w] && log == old(log) + [Swept(kind, w)]
                && raised == if IsGreen(w) then Nothing else Fatal
      ensures HasOnlyGreenSweeps() <==> !raised.Fatal?
    {
      hide IsGated, IsExplained, SweepsMatch, IsGreen, AreLogged, AreGreen, SweptGreen;
      match world.sweep(s)
      case None =>
        raised := Transient;
      case Some(r) =>
        var w := Sweep(s, r.passed, r.coverage, r.checks);
        SweepExplains(plan, world, listing, sweeps, log, kind, w);
        Log(Swept(kind, w));
        OneMoreSweep(sweeps, log, kind, w);
        sweeps := sweeps[kind := w];
        raised := if IsGreen(w) then Nothing else Fatal;
    }

    /** Stream, sweep if the class has none yet, build.  It succeeds exactly when there is a stream, its
        class is swept already or swept green now, and the build does not raise; it is fatal exactly when
        the sweep it runs is not green. */
    method Finalize(s: Name) returns (raised: Raised)
      requires IsGated(log, listing) && SweepsAreLogged() && HasOnlyGreenSweeps()
      requires IsExplained(plan, world, listing, log) && SweepsMatch(sweeps, log)
      modifies this`sweeps, this`log
      ensures IsGated(log, listing) && SweepsAreLogged() && OnlyBuilds(old(log), log)
      ensures IsExplained(plan, world, listing, log) && SweepsMatch(sweeps, log)
      ensures raised.Nothing? ==> LakeWritten(s) in log && ClassOf(listing, s) in sweeps
      ensures raised.Nothing? <==> FinalizesWell(world, listing, old(sweeps).Keys, s)
      ensures raised.Fatal? <==> SweepsRed(world, listing, old(sweeps).Keys, s)
      ensures raised.Transient? ==>
                !world.hasStream(s) || world.build(s).None?
                || (world.sweep(s).None? && ClassOf(listing, s) !in sweeps && sweeps == old(sweeps))
      ensures forall l :: l in sweeps ==> l in old(sweeps) || l == ClassOf(listing, s)
      ensures HasOnlyGreenSweeps() <==> !raised.Fatal?
    {
      hide IsExplained, SweepsMatch;
      if !world.hasStream(s) {
        return Transient;
      }
      var kind := ClassOf(listing, s);
      if kind !in sweeps {
        raised := RunSweep(kind, s);
        if !raised.Nothing? {
          return;
        }
      }
      if world.build(s).None? {
        return Transient;
      }
      QuietExplains(plan, world, listing, sweeps, log, LakeWritten(s));
      Log(LakeWritten(s));
      raised := Nothing;
    }

    /** What the governor said of the next month when it was last asked. */
    ghost predicate IsDecided(verdict: Verdict)
      requires books.todo != []
      reads this`books, this`looks
    {
      looks > 0 && Admit(knobs, books.cache, world.est(books.todo[0]), world.free(looks - 1)) == verdict
    }

    /** Submit downloads while the governor admits them.  It stops when nothing is left to submit, when as
        many are in flight as may be, or when the governor says wait; an abort is the governor's. */
    method SubmitMore()
      requires IsRunning() && KeepsAccounts()
      modifies this`books, this`aborted, this`looks
      ensures (books, aborted, looks) == SubmittedAll(knobs, world, old(books), old(looks))
      ensures KeepsAccounts() && (!aborted ==> IsRunning())
      ensures IsOrderly(plan, books) && IsCaughtUp(plan, books) && IsBalanced(books, 0)
      ensures |books.todo| + |books.inflight| == old(|books.todo| + |books.inflight|)
      ensures books.cache != old(books.cache) ==> books.cache <= knobs.cap
      ensures aborted ==> books.todo != [] && IsDecided(Abort)
      ensures !aborted && books.todo != [] && |books.inflight| < knobs.concurrency ==> IsDecided(Wait)
    {
      hide IsOrderly, IsCaughtUp, IsBalanced, HasOnlyGreenSweeps, IsGated, SweptGreen, AgreesWith, HadMonths,
          SweepsAreLogged, IsExplained, SweepsMatch, HaveArrived, SubmittedAll, Admit;
      SubmittedStep(knobs, world, books, looks);
      while books.todo != [] && |books.inflight| < knobs.concurrency
        invariant IsRunning() && KeepsAccounts()
        invariant SubmittedAll(knobs, world, books, looks) == SubmittedAll(knobs, world, old(books), old(looks))
        invariant books.todo == [] || |books.inflight| >= knobs.concurrency ==>
                    SubmittedAll(knobs, world, books, looks) == (books, false, looks)
        invariant |books.todo| + |books.inflight| == old(|books.todo| + |books.inflight|)
        invariant books.cache != old(books.cache) ==> books.cache <= knobs.cap
        decreases |books.todo|
      {
        SubmittedStep(knobs, world, books, looks);
        var est := world.est(books.todo[0]);
        var verdict := Admit(knobs, books.cache, est, world.free(looks));
        looks := looks + 1;
        if verdict == Abort {
          aborted := true;
          return;
        }
        if verdict == Wait {
          return;
        }
        SubmittedKeeps(plan, books, est);
        ghost var b := books;
        books := Submitted(books, est);
        AccountsOfKeys(b);
        SubmittedStep(knobs, world, books, looks);
      }
    }

    /** One download has ended. */
    method Consume(k: Key)
      requires IsRunning() && k in books.inflight && KeepsAccounts()
      modifies this`books, this`aborted, this`sweeps, this`log
      ensures KeepsAccounts() && (!aborted ==> IsRunning()) && (aborted ==> !HasOnlyGreenSweeps())
      ensures books.inflight == old(books.inflight) - {k} && |books.todo| <= old(|books.todo|)
      ensures forall l :: l in sweeps ==> l in old(sweeps) || l == ClassOf(listing, k.0)
      ensures world.download(k).Fails? ==>
                && books == Failed(Popped(old(books), k), k.0, old(books).inflight[k])
                && log == old(log) + FailureOf(old(books), k.0) && sweeps == old(sweeps) && !aborted
      ensures world.download(k).Arrives? && k.0 in old(books).failed ==>
                && books == Dropped(Popped(old(books), k), old(books).inflight[k])
                && log == old(log) + LateOf(k) && sweeps == old(sweeps) && !aborted
      ensures world.download(k).Arrives? && k.0 !in old(books).failed ==> old(log) + [RawFetched(k.0, k.1)] <= log
      ensures world.download(k).Arrives? && k.0 !in old(books).failed
                && Staged(old(books), k.0) + {k.1} != MonthsOf(plan, k.0) ==>
                && books == Received(Popped(old(books), k), k, world.download(k).bytes, old(books).inflight[k])
                && log == old(log) + [RawFetched(k.0, k.1)] && sweeps == old(sweeps) && !aborted
    {
      hide IsOrderly, IsOrderlyBut, IsCaughtUp, IsBalanced, IsGated, SweptGreen, HasOnlyGreenSweeps, AreLogged,
          AgreesWith, HadMonths, MonthsOf, SweepsAreLogged, IsExplained, SweepsMatch, HaveArrived;
      ghost var b := books;
      PoppedKeeps(plan, books, k);
      PoppedMonth(plan, books, k);
      var est, s := books.inflight[k], k.0;
      books := Popped(books, k);
      AccountsOfKeys(b);
      assert Staged(books, s) == Staged(b, s);
      match world.download(k)
      case Fails =>
        DownloadFailedKeeps(plan, books, k, est);
        assert FailureOf(books, s) == FailureOf(b, s);
        NotBuildable(plan, world, k);
        Fail(s, est);
      case Arrives(bytes) =>
        Arrive(k, est, bytes);
    }

    /** Its download has arrived: late, one of several months, or the last one. */
    method Arrive(k: Key, est: nat, bytes: nat)
      requires IsOrderlyBut(plan, books, k) && IsCaughtUp(plan, books) && IsBalanced(books, est)
      requires HasOnlyGreenSweeps() && !aborted && KeepsAccounts() && world.download(k).Arrives?
      modifies this`books, this`aborted, this`sweeps, this`log
      ensures KeepsAccounts() && (!aborted ==> IsRunning()) && (aborted ==> !HasOnlyGreenSweeps())
      ensures books.inflight == old(books).inflight && |books.todo| <= old(|books.todo|)
      ensures forall l :: l in sweeps ==> l in old(sweeps) || l == ClassOf(listing, k.0)
      ensures k.0 in old(books).failed ==>
                books == Dropped(old(books), est) && log == old(log) + LateOf(k) && sweeps == old(sweeps) && !aborted
      ensures k.0 !in old(books).failed ==> old(log) + [RawFetched(k.0, k.1)] <= log
      ensures k.0 !in old(books).failed && Staged(old(books), k.0) + {k.1} != MonthsOf(plan, k.0) ==>
                && books == Received(old(books), k, bytes, est)
                && log == old(log) + [RawFetched(k.0, k.1)] && sweeps == old(sweeps) && !aborted
    {
      var s := k.0;
      assert MonthsOf(plan, s) != {} && s !in books.built;
      hide IsOrderly, IsOrderlyBut, IsCaughtUp, IsCaughtUpBut, IsBalanced, IsGated, SweptGreen, HasOnlyGreenSweeps,
          AgreesWith, HadMonths, SweepsAreLogged, HasCauses, MonthsOf, Received, Dropped, LateOf;
      if s in books.failed {
        DropLate(k, est);
      } else {
        Stage(k, est, bytes);
        if books.staged[s] == MonthsOf(plan, s) {
          Complete(s);
        }
      }
    }

    /** A month of a symbol in good standing: its reservation becomes real bytes, its month is staged. */
    method Stage(k: Key, est: nat, bytes: nat)
      requires IsOrderlyBut(plan, books, k) && IsCaughtUp(plan, books) && IsBalanced(books, est)
      requires KeepsAccounts() && k.0 !in books.failed && k.0 !in books.built && world.download(k).Arrives?
      modifies this`books, this`log
      ensures books == Received(old(books), k, bytes, est) && log == old(log) + [RawFetched(k.0, k.1)]
                && KeepsAccounts()
      ensures IsOrderly(plan, books) && IsBalanced(books, 0) && IsCaughtUpBut(plan, books, k.0)
      ensures k.0 in books.staged && books.staged[k.0] == Staged(old(books), k.0) + {k.1}
      ensures books.staged[k.0] != MonthsOf(plan, k.0) ==> IsCaughtUp(plan, books)
    {
      hide IsOrderly, IsOrderlyBut, IsCaughtUp, IsCaughtUpBut, IsBalanced, IsGated, SweptGreen, AgreesWith, HadMonths;
      ReceivedKeeps(plan, books, k, bytes, est);
      ReceivedStages(books, k, bytes, est, k.0);
      FetchedAgrees(log, books, before, k, bytes, est);
      MonthsStayHad(books, Received(books, k, bytes, est));
      QuietExplains(plan, world, listing, sweeps, log, RawFetched(k.0, k.1));
      ArrivedIsStaged(world, books, k, bytes, est);
      hide IsExplained, SweepsMatch, HaveArrived;
      Log(RawFetched(k.0, k.1));
      books := Received(books, k, bytes, est);
    }

    /** A late download of a failed symbol: its reservation is released and its file deleted. */
    method DropLate(k: Key, est: nat)
      requires IsOrderlyBut(plan, books, k) && IsCaughtUp(plan, books) && IsBalanced(books, est)
      requires HasOnlyGreenSweeps() && !aborted && KeepsAccounts() && k.0 in books.failed && k.0 !in books.built
      modifies this`books, this`log
      ensures KeepsAccounts() && IsRunning() && books == Dropped(old(books), est) && log == old(log) + LateOf(k)
    {
      hide IsOrderly, IsOrderlyBut, IsCaughtUp, IsBalanced, IsGated, SweptGreen, HasOnlyGreenSweeps, AreLogged,
          AgreesWith, HadMonths;
      DroppedKeeps(plan, books, k, est);
      LateIsGated(log, listing, books, before, k);
      LateMonthAgrees(log, books, before, k, est);
      MonthsStayHad(books, Dropped(books, est));
      SweepsStayLogged(log + LateOf(k));
      LateExplains(plan, world, listing, sweeps, log, k);
      hide IsExplained, SweepsMatch;
      log := log + LateOf(k);
      books := Dropped(books, est);
    }

    lemma MonthsStayHad(b: Books, b': Books)
      requires HadMonths(plan, b, before) && b'.built == b.built && b'.failed == b.failed
      ensures HadMonths(plan, b', before)
    {
    }

    /** The handler of a failure: the symbol is marked, its raw deleted, its downloads given up. */
    method Fail(s: Name, liveEst: nat)
      requires KeepsAccounts() && s !in books.built && MonthsOf(plan, s) != {}
      requires !IsBuildable(plan, world, s) || (world.sweep(s).None? && ClassOf(listing, s) !in sweeps)
      modifies this`books, this`log
      ensures KeepsAccounts() && books == Failed(old(books), s, liveEst) && log == old(log) + FailureOf(old(books), s)
    {
      hide IsGated, SweptGreen, AgreesWith, MonthsOf, FailureOf;
      FailureIsGated(log, listing, books, before, s);
      FailureAgrees(log, books, before, s, liveEst);
      assert log <= log + FailureOf(books, s);
      SweepsStayLogged(log + FailureOf(books, s));
      FailureExplains(plan, world, listing, sweeps, log, books, s);
      hide IsExplained, SweepsMatch, IsBuildable;
      log := log + FailureOf(books, s);
      books := Failed(books, s, liveEst);
    }

    /** The last month of a symbol is staged. */
    method Complete(s: Name)
      requires IsOrderly(plan, books) && IsBalanced(books, 0) && s in books.staged && s !in books.built
      requires s !in books.failed && books.staged[s] == MonthsOf(plan, s) != {}
      requires IsCaughtUpBut(plan, books, s) && KeepsAccounts() && HasOnlyGreenSweeps() && !aborted
      modifies this`books, this`aborted, this`sweeps, this`log
      ensures KeepsAccounts() && (!aborted ==> IsRunning()) && (aborted ==> !HasOnlyGreenSweeps())
      ensures books.inflight == old(books.inflight) && |books.todo| <= old(|books.todo|) && old(log) <= log
      ensures forall l :: l in sweeps ==> l in old(sweeps) || l == ClassOf(listing, s)
      ensures aborted ==> books == old(books) && OnlyBuilds(old(log), log)
      ensures !aborted ==> books == Recorded(old(books), s) || books == Failed(old(books), s, 0)
      ensures s in books.built ==> LedgerRecorded(s) in log && RawEvicted(s) in log
      ensures s in books.built <==> FinalizesWell(world, listing, old(sweeps).Keys, s)
      ensures aborted <==> SweepsRed(world, listing, old(sweeps).Keys, s)
    {
      StagedHasArrived(plan, world, books, s);
      hide IsOrderly, IsCaughtUp, IsCaughtUpBut, IsBalanced, IsGated, SweptGreen, HasOnlyGreenSweeps, AreLogged,
          AgreesWith, SweepsAreLogged, IsExplained, SweepsMatch, HaveArrived, IsBuildable, HadMonths, MonthsOf,
          FinalizesWell, SweepsRed;
      ghost var log0 := log;
      FinalizesWellIs(world, listing, sweeps.Keys, s);
      var raised := Finalize(s);
      BuildsAgree(log0, log, books, before);
      Settle(s, raised);
    }

    /** How the build went decides: recorded, failed, or the end of the run. */
    method Settle(s: Name, raised: Raised)
      requires IsOrderly(plan, books) && IsBalanced(books, 0) && s in books.staged && s !in books.built
      requires s !in books.failed && books.staged[s] == MonthsOf(plan, s) != {}
      requires IsCaughtUpBut(plan, books, s) && KeepsAccounts() && !aborted
      requires HasOnlyGreenSweeps() <==> !raised.Fatal?
      requires raised.Nothing? ==>
                 LakeWritten(s) in log && IsBuildable(plan, world, s) && ClassOf(listing, s) in sweeps
      requires raised.Transient? ==>
                 !IsBuildable(plan, world, s) || (world.sweep(s).None? && ClassOf(listing, s) !in sweeps)
      modifies this`books, this`aborted, this`log
      ensures KeepsAccounts() && (!aborted ==> IsRunning()) && (aborted <==> raised.Fatal?)
      ensures books.inflight == old(books.inflight) && |books.todo| <= old(|books.todo|) && old(log) <= log
      ensures aborted ==> books == old(books) && log == old(log)
      ensures !aborted ==> books == Recorded(old(books), s) || books == Failed(old(books), s, 0)
      ensures s in books.built <==> raised.Nothing?
      ensures s in books.built ==> LedgerRecorded(s) in log && RawEvicted(s) in log
    {
      hide IsOrderly, IsCaughtUp, IsCaughtUpBut, IsBalanced, IsGated, SweptGreen, HasOnlyGreenSweeps, AreLogged,
          AgreesWith, SweepsAreLogged, HasCauses, IsBuildable, HadMonths, MonthsOf;
      match raised
      case Fatal =>
        aborted := true;
      case Transient =>
        BuildFailedKeeps(plan, books, s);
        Fail(s, 0);
      case Nothing =>
        Record(s);
    }

    /** Recorded in the ledger, then its raw evicted. */
    method Record(s: Name)
      requires IsOrderly(plan, books) && IsBalanced(books, 0) && IsCaughtUpBut(plan, books, s)
      requires s in books.staged && s !in books.built && s !in books.failed
                && books.staged[s] == MonthsOf(plan, s) != {}
      requires KeepsAccounts() && LakeWritten(s) in log
      requires IsBuildable(plan, world, s) && ClassOf(listing, s) in sweeps
      modifies this`books, this`log
      ensures KeepsAccounts() && IsOrderly(plan, books) && IsBalanced(books, 0) && IsCaughtUp(plan, books)
      ensures books == Recorded(old(books), s) && log == old(log) + [LedgerRecorded(s), RawEvicted(s)]
    {
      hide IsOrderly, IsCaughtUp, IsCaughtUpBut, IsBalanced, IsGated, SweptGreen, AgreesWith, IsExplained,
          SweepsMatch, IsBuildable;
      RecordedKeeps(plan, books, s);
      RecordedAgrees(log, books, before, s);
      assert log + [LedgerRecorded(s)] + [RawEvicted(s)] == log + [LedgerRecorded(s), RawEvicted(s)];
      RecordExplains(plan, world, listing, sweeps, log, s);
      QuietExplains(plan, world, listing, sweeps, log + [LedgerRecorded(s)], RawEvicted(s));
      assert forall q :: Staged(Recorded(books, s), q) == Staged(books, q);
      Log(LedgerRecorded(s));
      Log(RawEvicted(s));
      books := Recorded(books, s);
    }

    /** The whole run, with downloads ending in any order and any grouping.  A run that is not aborted
        leaves a planned symbol neither built nor failed exactly when it has no month to download, and
        builds it exactly when all its months arrive, it has a stream, its build does not raise and its
        class has been swept by then.  A run is aborted by a sweep that is not green or by the governor. */
    method Run()
      requires IsRunning() && knobs.concurrency > 0 && KeepsAccounts()
      modifies this
      ensures KeepsAccounts()
      ensures !aborted ==> HasOnlyGreenSweeps() && books.cache == 0
      ensures !aborted ==> forall s :: s in plan && s !in before ==>
                (plan[s] != [] <==> s in books.built || s in books.failed)
      ensures !aborted ==> forall s :: s in plan && s !in before && plan[s] != [] ==>
                && (s in books.built <==> IsBuildable(plan, world, s) && SweptByThen(listing, log, s))
                && (IsBuildable(plan, world, s) && world.sweep(s).Some? ==> s in books.built)
      ensures aborted && HasOnlyGreenSweeps() ==> books.todo != [] && (IsDecided(Abort) || IsDecided(Wait))
      ensures old(books).todo == [] && old(books).inflight == map[] ==>
                books == old(books) && sweeps == old(sweeps) && !aborted
    {
      hide IsOrderly, IsCaughtUp, IsBalanced, IsGated, SweptGreen, HasOnlyGreenSweeps, AreLogged, AgreesWith, HadMonths,
          SweepsAreLogged, HasCauses, IsBuildable, SweptByThen, IsDecided;
      SubmitMore();
      if !aborted && books.todo != [] && books.inflight == map[] {
        aborted := true;
      }
      while books.inflight != map[] && !aborted
        invariant KeepsAccounts()
        invariant !aborted ==> IsRunning()
        invariant aborted && HasOnlyGreenSweeps() ==> books.todo != [] && (IsDecided(Abort) || IsDecided(Wait))
        invariant !aborted && books.inflight == map[] ==> books.todo == []
        invariant old(books).todo == [] && old(books).inflight == map[] ==>
            books == old(books) && sweeps == old(sweeps) && !aborted
        decreases |books.todo| + |books.inflight|
      {
        var k0 :| k0 in books.inflight;
        var batch :| batch <= books.inflight.Keys && batch != {};
        ConsumeAll(batch);
        if !aborted {
          SubmitMore();
        }
        if !aborted && books.todo != [] && books.inflight == map[] {
          aborted := true;
        }
      }
      if !aborted {
        AllMentioned();
        AllExplained();
        NothingLeftNothingHeld(plan, books, 0);
      }
    }

    lemma AllExplained()
      requires KeepsAccounts()
      requires forall s :: s in plan && s !in before ==> (plan[s] != [] <==> s in books.built || s in books.failed)
      ensures forall s :: s in plan && s !in before && plan[s] != [] ==>
                && (s in books.built <==> IsBuildable(plan, world, s) && SweptByThen(listing, log, s))
                && (IsBuildable(plan, world, s) && world.sweep(s).Some? ==> s in books.built)
    {
      hide IsBuildable, SweptByThen, IsExplained, AgreesWith, IsGated, SweptGreen;
      forall s | s in plan && s !in before && plan[s] != []
        ensures s in books.built <==> IsBuildable(plan, world, s) && SweptByThen(listing, log, s)
        ensures IsBuildable(plan, world, s) && world.sweep(s).Some? ==> s in books.built
      {
        BuiltExactly(plan, world, listing, log, books, before, s);
      }
    }

    lemma AllMentioned()
      requires IsRunning() && KeepsAccounts() && books.todo == [] && books.inflight == map[]
      ensures forall s :: s in plan && s !in before ==> (plan[s] != [] <==> s in books.built || s in books.failed)
    {
      hide IsOrderly, IsCaughtUp, IsBalanced, IsGated, SweptGreen, HasOnlyGreenSweeps, AreLogged, AgreesWith;
      forall s | s in plan && s !in before
        ensures plan[s] != [] <==> s in books.built || s in books.failed
      {
        assert plan[s] != [] ==> plan[s][0] in MonthsOf(plan, s);
        NothingLeftNothingHeld(plan, books, s);
      }
    }

    /** Moving months between the list and the flight changes nothing that the accounts are about. */
    lemma AccountsOfKeys(b: Books)
      requires IsGated(log, listing) && SweepsAreLogged() && AgreesWith(log, b, before)
      requires b.failed !! b.built && before <= b.built && HadMonths(plan, b, before)
      requires IsExplained(plan, world, listing, log) && SweepsMatch(sweeps, log) && HaveArrived(world, b)
      requires books.built == b.built && books.failed == b.failed && books.staged == b.staged
      ensures KeepsAccounts()
    {
      hide IsExplained, SweepsMatch;
      assert forall s :: Staged(books, s) == Staged(b, s);
    }

    /** The downloads that ended together, in any order, up to a fatal one. */
    method ConsumeAll(batch: set<Key>)
      requires IsRunning() && batch <= books.inflight.Keys && batch != {} && KeepsAccounts()
      modifies this`books, this`aborted, this`sweeps, this`log
      ensures KeepsAccounts() && (!aborted ==> IsRunning()) && (aborted ==> !HasOnlyGreenSweeps())
      ensures |books.todo| + |books.inflight| < old(|books.todo| + |books.inflight|)
    {
      hide IsOrderly, IsCaughtUp, IsBalanced, IsGated, SweptGreen, HasOnlyGreenSweeps, AreLogged, AgreesWith, HadMonths,
          SweepsAreLogged;
      var left := batch;
      while left != {} && !aborted
        invariant KeepsAccounts() && (!aborted ==> IsRunning()) && (aborted ==> !HasOnlyGreenSweeps())
        invariant left <= books.inflight.Keys && left <= batch && (aborted ==> left != batch)
        invariant |books.todo| + |books.inflight| <= old(|books.todo| + |books.inflight|)
        invariant left != batch ==> |books.todo| + |books.inflight| < old(|books.todo| + |books.inflight|)
        decreases |left|
      {
        var k :| k in left;
        left := left - {k};
        Consume(k);
      }
    }
  }

  // ------------------------------------------------------------------ the exit gate

  /** The order of the checks at the end of the script. */
  function ExitCode(sweeps: map<Kind, Sweep>, aborted: bool, maxSymbols: Option<int>, maxGb: Option<real>): nat {
    if exists l :: l in sweeps && !IsGreen(sweeps[l]) then 1
    else if aborted then 1
    else if maxSymbols.None? && maxGb.None? && (Live !in sweeps || Tail !in sweeps) then 1
    else 0
  }

  /** Exactly when exit zero guarantees a green sweep of both classes, whatever happened in the run: when
      neither bound was given.  A bound of zero selects like no bound and still takes the guarantee away. */
  lemma ZeroBoundLosesTheGuarantee(maxSymbols: Option<int>, maxGb: Option<real>)
    ensures (forall sweeps, aborted :: ExitCode(sweeps, aborted, maxSymbols, maxGb) == 0 ==>
               !aborted && Live in sweeps && Tail in sweeps && IsGreen(sweeps[Live]) && IsGreen(sweeps[Tail]))
            <==> maxSymbols.None? && maxGb.None?
  {
    if maxSymbols.Some? || maxGb.Some? {
      assert ExitCode(map[], false, maxSymbols, maxGb) == 0;
    }
  }

  /** The code with which a run ends. */
  method RunToExit(o: Orchestrator, maxSymbols: Option<int>, maxGb: Option<real>) returns (code: nat)
    requires o.IsRunning() && o.knobs.concurrency > 0 && o.KeepsAccounts()
    modifies o
    ensures o.KeepsAccounts()
    ensures forall s :: s in o.books.built && s !in o.before ==> SweptGreen(o.log, ClassOf(o.listing, s))
    ensures code == 0 || code == 1
    ensures code == 0 <==> !o.aborted && (maxSymbols.Some? || maxGb.Some? || (Live in o.sweeps && Tail in o.sweeps))
    ensures !o.aborted ==> o.HasOnlyGreenSweeps() && o.books.cache == 0
    ensures !o.aborted ==>
              forall s :: s in o.plan && s !in o.before ==>
                  (o.plan[s] != [] <==> s in o.books.built || s in o.books.failed)
    ensures !o.aborted ==>
              forall s :: s in o.plan && s !in o.before && o.plan[s] != [] ==>
                && (s in o.books.built <==> IsBuildable(o.plan, o.world, s) && SweptByThen(o.listing, o.log, s))
                && (IsBuildable(o.plan, o.world, s) && o.world.sweep(s).Some? ==> s in o.books.built)
    ensures code == 0 && maxSymbols.None? && maxGb.None? ==> SweptGreen(o.log, Live) && SweptGreen(o.log, Tail)
    ensures forall s, m :: RawFetched(s, m) in o.log ==>
              && (RawEvicted(s) in o.log <==> s in o.books.built)
              && (WasDropped(o.log, s, m) <==> s in o.books.failed)
    ensures old(o.books).todo == [] && old(o.books).inflight == map[] ==>
              o.books == old(o.books) && o.sweeps == old(o.sweeps) && !o.aborted
  {
    o.Run();
    forall s, m | RawFetched(s, m) in o.log
      ensures (RawEvicted(s) in o.log <==> s in o.books.built) && (WasDropped(o.log, s, m) <==> s in o.books.failed)
    {
      FateOfRaw(o.log, o.books, o.before, s, m);
    }
    code := ExitCode(o.sweeps, o.aborted, maxSymbols, maxGb);
    forall s | s in o.books.built && s !in o.before
      ensures SweptGreen(o.log, ClassOf(o.listing, s))
    {
      RecordedIsSwept(o.log, o.listing, s);
    }
  }

  // ------------------------------------------------------------------ runs that show what the gate misses

  /** A run with nothing to download, over any such plan: it ends with the ledger it found, mentions no
      planned symbol as failed and sweeps nothing; its exit code says whether a bound was given and
      nothing else. */
  method RunOfNothing(plan: Plan, order: seq<Name>, listing: Listing, knobs: Knobs, world: World, before: set<Name>,
                      maxSymbols: Option<int>, maxGb: Option<real>)
    returns (code: nat, built: set<Name>, failed: set<Name>, swept: set<Kind>)
    requires IsPlan(plan, order) && TodoOf(plan, order, before) == [] && knobs.concurrency > 0
    ensures built == before && failed == {} && swept == {}
    ensures code == 0 <==> maxSymbols.Some? || maxGb.Some?
  {
    hide IsPlan, TodoOf, IsOrderly, IsCaughtUp, IsBalanced, IsGated, SweptGreen, AgreesWith, HadMonths, WasDropped,
        ExitCode;
    var o := new Orchestrator(plan, order, listing, knobs, world, before);
    code := RunToExit(o, maxSymbols, maxGb);
    built, failed, swept := o.books.built, o.books.failed, o.sweeps.Keys;
  }

  /** A planned symbol without months: the run succeeds and neither builds it nor reports it. */
  method SymbolWithoutMonths(knobs: Knobs, world: World) returns (code: nat, built: set<Name>, failed: set<Name>)
    requires knobs.concurrency > 0
    ensures code == 0 && 0 !in built && 0 !in failed
  {
    var swept;
    NoMonths();
    code, built, failed, swept := RunOfNothing(map[0 := []], [0], NO_DELISTINGS, knobs, world, {}, Some(1), None);
  }

  lemma NoMonths()
    ensures TodoOf(map[0 := []], [0], {}) == [] && IsPlan(map[0 := []], [0])
  {
    assert TodoOf(map[0 := []], [0][1..], {}) == [];
  }

  /** A second run over a plan that is built already: with a bound of zero it reports success without any
      sweep, and without a bound it reports a failure although nothing is left to do. */
  method SecondRun(knobs: Knobs, world: World) returns (zeroBound: nat, noBound: nat, swept: set<Kind>)
    requires knobs.concurrency > 0
    ensures zeroBound == 0 && swept == {} && noBound != 0
  {
    var built, failed, other;
    NothingPending();
    var plan := map[0 := [0]];
    zeroBound, built, failed, swept := RunOfNothing(plan, [0], NO_DELISTINGS, knobs, world, {0}, Some(0), None);
    noBound, built, failed, other := RunOfNothing(plan, [0], NO_DELISTINGS, knobs, world, {0}, None, None);
  }

  lemma NothingPending()
    ensures TodoOf(map[0 := [0]], [0], {0}) == [] && IsPlan(map[0 := [0]], [0])
  {
    assert TodoOf(map[0 := [0]], [0][1..], {0}) == [];
  }

  function SecondMonthFails(): World {
    World(k => 1, n => 10, k => if k == (0, 0) then Arrives(5) else Fails, s => true, s => None, s => None)
  }

  const TWO_MONTHS: Plan := map[0 := [0, 1]]
  const ONE_AT_A_TIME := Knobs(10, 0, 1)

  /** The books before each of the four moves. */
  const LISTED := Books([(0, 0), (0, 1)], map[], map[], map[], 0, {}, {})
  const FIRST_IN_FLIGHT := Books([(0, 1)], map[(0, 0) := 1], map[], map[], 1, {}, {})
  const FIRST_STAGED := Books([(0, 1)], map[], map[0 := {0}], map[0 := 5], 5, {}, {})
  const SECOND_IN_FLIGHT := Books([], map[(0, 1) := 1], map[0 := {0}], map[0 := 5], 6, {}, {})
  const GIVEN_UP := Books([], map[], map[], map[], 0, {0}, {})

  lemma BothAreSubmitted()
    ensures SubmittedAll(ONE_AT_A_TIME, SecondMonthFails(), LISTED, 0) == (FIRST_IN_FLIGHT, false, 1)
    ensures SubmittedAll(ONE_AT_A_TIME, SecondMonthFails(), FIRST_STAGED, 1) == (SECOND_IN_FLIGHT, false, 2)
  {
    OneSubmit(ONE_AT_A_TIME, SecondMonthFails(), LISTED, FIRST_IN_FLIGHT, 0);
    OneSubmit(ONE_AT_A_TIME, SecondMonthFails(), FIRST_STAGED, SECOND_IN_FLIGHT, 1);
  }

  lemma FirstIsStaged()
    ensures Received(Popped(FIRST_IN_FLIGHT, (0, 0)), (0, 0), 5, 1) == FIRST_STAGED
    ensures Staged(FIRST_IN_FLIGHT, 0) + {0} != MonthsOf(TWO_MONTHS, 0)
  {
    assert 1 in MonthsOf(TWO_MONTHS, 0) && Staged(FIRST_IN_FLIGHT, 0) + {0} == {0};
  }

  lemma SecondGivesUp()
    ensures Failed(Popped(SECOND_IN_FLIGHT, (0, 1)), 0, 1) == GIVEN_UP
    ensures FailureOf(SECOND_IN_FLIGHT, 0) == [SymbolFailed(0), RawDropped(0, {0})]
  {
  }

  /** The first round of submissions, over any plan. */
  method Started(plan: Plan, order: seq<Name>, listing: Listing, knobs: Knobs, world: World, before: set<Name>)
    returns (o: Orchestrator)
    requires IsPlan(plan, order)
    ensures fresh(o) && o.plan == plan && o.knobs == knobs && o.world == world && o.log == []
    ensures (o.books, o.aborted, o.looks)
            == SubmittedAll(knobs, world, Books(TodoOf(plan, order, before), map[], map[], map[], 0, {}, before), 0)
    ensures o.KeepsAccounts() && (!o.aborted ==> o.IsRunning())
  {
    hide IsPlan, TodoOf, SubmittedAll, IsOrderly, IsCaughtUp, IsBalanced, IsGated, SweptGreen, AgreesWith, HadMonths,
        MonthsOf;
    o := new Orchestrator(plan, order, listing, knobs, world, before);
    o.SubmitMore();
  }

  method FirstMonthIsSubmitted() returns (o: Orchestrator)
    ensures fresh(o) && o.plan == TWO_MONTHS && o.world == SecondMonthFails() && o.knobs == ONE_AT_A_TIME
    ensures o.books == FIRST_IN_FLIGHT && o.looks == 1 && o.log == [] && o.IsRunning() && o.KeepsAccounts()
  {
    TwoMonths(TWO_MONTHS);
    BothAreSubmitted();
    hide IsPlan, TodoOf, SubmittedAll;
    o := Started(TWO_MONTHS, [0], NO_DELISTINGS, ONE_AT_A_TIME, SecondMonthFails(), {});
    assert (o.books, o.aborted, o.looks) == (FIRST_IN_FLIGHT, false, 1);
  }

  method FirstMonthArrives(o: Orchestrator)
    requires o.plan == TWO_MONTHS && o.world == SecondMonthFails() && o.IsRunning() && o.KeepsAccounts()
    requires o.books == FIRST_IN_FLIGHT && o.log == []
    modifies o`books, o`aborted, o`sweeps, o`log
    ensures o.books == FIRST_STAGED && o.log == [RawFetched(0, 0)] && o.IsRunning() && o.KeepsAccounts()
  {
    FirstIsStaged();
    hide IsOrderly, IsCaughtUp, IsBalanced, IsGated, SweptGreen, AgreesWith, HadMonths, MonthsOf, Received, Popped,
      Failed, FailureOf, Staged, LateOf;
    o.Consume((0, 0));
  }

  method SecondMonthIsLost(o: Orchestrator)
    requires o.plan == TWO_MONTHS && o.world == SecondMonthFails() && o.knobs == ONE_AT_A_TIME && o.IsRunning()
              && o.KeepsAccounts()
    requires o.books == FIRST_STAGED && o.looks == 1 && o.log == [RawFetched(0, 0)]
    modifies o
    ensures o.books == GIVEN_UP && !o.aborted && o.log == [RawFetched(0, 0), SymbolFailed(0), RawDropped(0, {0})]
  {
    BothAreSubmitted();
    SecondGivesUp();
    hide SubmittedAll, IsOrderly, IsCaughtUp, IsBalanced, IsGated, SweptGreen, AgreesWith, HadMonths, MonthsOf,
      Received, Popped, Failed, FailureOf, Staged, LateOf;
    o.SubmitMore();
    o.Consume((0, 1));
  }

  /** The first month of a symbol arrives, its second download fails: the raw of the first is deleted
      although its symbol was never recorded, and the run is over. */
  method StagedMonthIsDropped() returns (log: seq<Event>, left: Books)
    ensures left == GIVEN_UP && log == [RawFetched(0, 0), SymbolFailed(0), RawDropped(0, {0})]
  {
    hide *;
    var o := FirstMonthIsSubmitted();
    FirstMonthArrives(o);
    SecondMonthIsLost(o);
    log, left := o.log, o.books;
  }

  lemma OneSubmit(knobs: Knobs, world: World, b: Books, b': Books, looks: nat)
    requires b.todo != [] && b.inflight == map[] && knobs.concurrency == 1
    requires b' == Submitted(b, world.est(b.todo[0]))
              && Admit(knobs, b.cache, world.est(b.todo[0]), world.free(looks)) == Ok
    ensures SubmittedAll(knobs, world, b, looks) == (b', false, looks + 1)
  {
    assert |b'.inflight| == 1;
  }

  lemma TwoMonths(plan: Plan)
    requires plan == map[0 := [0, 1]]
    ensures TodoOf(plan, [0], {}) == [(0, 0), (0, 1)] && MonthsOf(plan, 0) == {0, 1} && IsPlan(plan, [0])
  {
    assert MonthKeys(0, [0, 1]) == [(0, 0)] + MonthKeys(0, [0, 1][1..]);
    assert MonthKeys(0, [0, 1][1..]) == [(0, 1)] + MonthKeys(0, [0, 1][1..][1..]);
  }
}
