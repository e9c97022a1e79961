/** Why a symbol is built and why it fails: what the outside decides, and what a run's log says of it. */
module IngestCauses {
  import opened Options
  import opened IngestBooks
  import opened IngestLog

  datatype Download = Fails | Arrives(bytes: nat)

  datatype Report = Report(passed: bool, coverage: real, checks: nat)

  /** What the outside decides: sizes, free disk, and how downloads, sweeps and builds turn out.  A sweep
      or a build that raises is None. */
  datatype World = World(est: Key -> nat, free: nat -> int, download: Key -> Download, hasStream: Name -> bool,
                         sweep: Name -> Option<Report>, build: Name -> Option<nat>)

  /** A sweep on record names its symbol. */
  function SweepOf(w: World, s: Name): Option<Sweep> {
    match w.sweep(s)
    case None => None
    case Some(r) => Some(Sweep(s, r.passed, r.coverage, r.checks))
  }

  // ------------------------------------------------------------------ causes

  /** All its months arrive, there is a stream in them, and the build does not raise. */
  ghost predicate IsBuildable(plan: Plan, w: World, s: Name) {
    && (forall m :: m in MonthsOf(plan, s) ==> w.download((s, m)).Arrives?)
    && w.hasStream(s) && w.build(s).Some?
  }

  /** With the classes swept so far: the symbol's stream can be built, its class being swept already or
      swept now by a sweep that passes with full coverage and at least one check. */
  predicate FinalizesWell(w: World, listing: Listing, swept: set<Kind>, s: Name) {
    && w.hasStream(s) && w.build(s).Some?
    && (ClassOf(listing, s) in swept
        || (w.sweep(s).Some? && w.sweep(s).value.passed && w.sweep(s).value.coverage == 1.0
            && w.sweep(s).value.checks > 0))
  }

  /** Its sweep is run and shows a leak, or nothing. */
  predicate SweepsRed(w: World, listing: Listing, swept: set<Kind>, s: Name) {
    && w.hasStream(s) && ClassOf(listing, s) !in swept && w.sweep(s).Some?
    && !(w.sweep(s).value.passed && w.sweep(s).value.coverage == 1.0 && w.sweep(s).value.checks > 0)
  }

  ghost predicate ClassSwept(past: seq<Event>, kind: Kind) {
    exists w :: Swept(kind, w) in past
  }

  /** What a record and a failure say of their symbol. */
  ghost predicate Explains(plan: Plan, w: World, listing: Listing, past: seq<Event>, e: Event) {
    && (e.LedgerRecorded? ==> IsBuildable(plan, w, e.symbol) && ClassSwept(past, ClassOf(listing, e.symbol)))
    && (e.SymbolFailed? ==>
          !IsBuildable(plan, w, e.symbol)
          || (w.sweep(e.symbol).None? && !ClassSwept(past, ClassOf(listing, e.symbol))))
  }

  ghost predicate IsExplained(plan: Plan, w: World, listing: Listing, log: seq<Event>) {
    forall i :: 0 <= i < |log| ==> Explains(plan, w, listing, log[..i], log[i])
  }

  /** The sweeps on record are those on the log. */
  ghost predicate SweepsMatch(sweeps: map<Kind, Sweep>, log: seq<Event>) {
    forall l :: l in sweeps <==> ClassSwept(log, l)
  }

  /** Only what has arrived is staged. */
  ghost predicate HaveArrived(w: World, b: Books) {
    forall s, m :: m in Staged(b, s) ==> w.download((s, m)).Arrives?
  }

  lemma ExplainOneMore(plan: Plan, w: World, listing: Listing, log: seq<Event>, e: Event)
    requires IsExplained(plan, w, listing, log) && Explains(plan, w, listing, log, e)
    ensures IsExplained(plan, w, listing, log + [e])
  {
    var log' := log + [e];
    hide Explains;
    forall i | 0 <= i < |log'|
      ensures Explains(plan, w, listing, log'[..i], log'[i])
    {
      assert log'[..i] == log[..i];
      assert i < |log| ==> log'[i] == log[i];
      assert log[..|log|] == log;
    }
  }

  predicate IsQuiet(e: Event) {
    !e.Swept? && !e.LedgerRecorded? && !e.SymbolFailed?
  }

  lemma QuietMatches(sweeps: map<Kind, Sweep>, log: seq<Event>, e: Event)
    requires SweepsMatch(sweeps, log) && !e.Swept?
    ensures SweepsMatch(sweeps, log + [e])
  {
    forall l
      ensures ClassSwept(log + [e], l) <==> ClassSwept(log, l)
    {
      assert forall w :: Swept(l, w) in log + [e] <==> Swept(l, w) in log;
    }
  }

  lemma QuietExplains(plan: Plan, w: World, listing: Listing, sweeps: map<Kind, Sweep>, log: seq<Event>, e: Event)
    requires IsExplained(plan, w, listing, log) && SweepsMatch(sweeps, log) && IsQuiet(e)
    ensures IsExplained(plan, w, listing, log + [e]) && SweepsMatch(sweeps, log + [e])
  {
    ExplainOneMore(plan, w, listing, log, e);
    QuietMatches(sweeps, log, e);
  }

  lemma SweepExplains(plan: Plan, w: World, listing: Listing, sweeps: map<Kind, Sweep>, log: seq<Event>, kind: Kind,
                      sweep: Sweep)
    requires IsExplained(plan, w, listing, log) && SweepsMatch(sweeps, log)
    ensures var log' := log + [Swept(kind, sweep)];
            IsExplained(plan, w, listing, log') && SweepsMatch(sweeps[kind := sweep], log')
  {
    var log' := log + [Swept(kind, sweep)];
    ExplainOneMore(plan, w, listing, log, Swept(kind, sweep));
    forall l
      ensures ClassSwept(log', l) <==> ClassSwept(log, l) || l == kind
    {
      assert Swept(kind, sweep) in log';
      assert forall x :: Swept(l, x) in log' <==> Swept(l, x) in log || (l == kind && x == sweep);
    }
  }

  /** A failure with its cause. */
  lemma FailureExplains(plan: Plan, w: World, listing: Listing, sweeps: map<Kind, Sweep>, log: seq<Event>, b: Books,
                        s: Name)
    requires IsExplained(plan, w, listing, log) && SweepsMatch(sweeps, log)
    requires !IsBuildable(plan, w, s) || (w.sweep(s).None? && ClassOf(listing, s) !in sweeps)
    ensures IsExplained(plan, w, listing, log + FailureOf(b, s)) && SweepsMatch(sweeps, log + FailureOf(b, s))
  {
    var log' := log + [SymbolFailed(s)];
    hide IsBuildable, IsExplained, SweepsMatch, ClassSwept, ClassOf;
    CauseExplains(plan, w, listing, sweeps, log, s);
    if Staged(b, s) == {} {
      assert log + FailureOf(b, s) == log';
    } else {
      QuietExplains(plan, w, listing, sweeps, log', RawDropped(s, Staged(b, s)));
      assert log + FailureOf(b, s) == log' + [RawDropped(s, Staged(b, s))];
    }
  }

  lemma CauseExplains(plan: Plan, w: World, listing: Listing, sweeps: map<Kind, Sweep>, log: seq<Event>, s: Name)
    requires IsExplained(plan, w, listing, log) && SweepsMatch(sweeps, log)
    requires !IsBuildable(plan, w, s) || (w.sweep(s).None? && ClassOf(listing, s) !in sweeps)
    ensures IsExplained(plan, w, listing, log + [SymbolFailed(s)]) && SweepsMatch(sweeps, log + [SymbolFailed(s)])
  {
    ExplainOneMore(plan, w, listing, log, SymbolFailed(s));
    QuietMatches(sweeps, log, SymbolFailed(s));
  }

  lemma RecordExplains(plan: Plan, w: World, listing: Listing, sweeps: map<Kind, Sweep>, log: seq<Event>, s: Name)
    requires IsExplained(plan, w, listing, log) && SweepsMatch(sweeps, log)
    requires IsBuildable(plan, w, s) && ClassOf(listing, s) in sweeps
    ensures IsExplained(plan, w, listing, log + [LedgerRecorded(s)]) && SweepsMatch(sweeps, log + [LedgerRecorded(s)])
  {
    ExplainOneMore(plan, w, listing, log, LedgerRecorded(s));
    QuietMatches(sweeps, log, LedgerRecorded(s));
  }

  // ------------------------------------------------------------------ which symbols are built

  /** The symbol's class had been swept when the symbol was settled. */
  ghost predicate SweptByThen(listing: Listing, log: seq<Event>, s: Name) {
    exists i :: 0 <= i < |log| && (log[i] == LedgerRecorded(s) || log[i] == SymbolFailed(s))
                && ClassSwept(log[..i], ClassOf(listing, s))
  }

  /** Exactly which of the settled symbols are built: all months arrived, a stream, a build that does not
      raise, and a swept class.  A sweep of the symbol that does not raise is enough for the last. */
  lemma BuiltExactly(plan: Plan, w: World, listing: Listing, log: seq<Event>, b: Books, before: set<Name>, s: Name)
    requires IsExplained(plan, w, listing, log) && AgreesWith(log, b, before) && b.failed !! b.built
    requires s !in before && (s in b.built || s in b.failed)
    ensures s in b.built <==> IsBuildable(plan, w, s) && SweptByThen(listing, log, s)
    ensures IsBuildable(plan, w, s) && w.sweep(s).Some? ==> s in b.built
  {
    hide IsBuildable, ClassSwept, ClassOf;
    if s in b.built {
      assert LedgerRecorded(s) in log;
      var i :| 0 <= i < |log| && log[i] == LedgerRecorded(s);
      assert Explains(plan, w, listing, log[..i], log[i]);
    } else {
      assert SymbolFailed(s) in log;
      var j :| 0 <= j < |log| && log[j] == SymbolFailed(s);
      assert Explains(plan, w, listing, log[..j], log[j]);
      if IsBuildable(plan, w, s) {
        NotSweptByThen(plan, w, listing, log, b, before, s);
      }
    }
  }

  lemma NotSweptByThen(plan: Plan, w: World, listing: Listing, log: seq<Event>, b: Books, before: set<Name>, s: Name)
    requires IsExplained(plan, w, listing, log) && AgreesWith(log, b, before) && b.failed !! b.built
    requires s !in before && s in b.failed && IsBuildable(plan, w, s)
    ensures !SweptByThen(listing, log, s)
  {
    hide IsBuildable, ClassSwept, ClassOf;
    forall i | 0 <= i < |log| && (log[i] == LedgerRecorded(s) || log[i] == SymbolFailed(s))
      ensures !ClassSwept(log[..i], ClassOf(listing, s))
    {
      assert LedgerRecorded(s) !in log;
      assert Explains(plan, w, listing, log[..i], log[i]);
    }
  }
}
