/** What an ingest run leaves in the world, in order, and what the order and the books say about each
    other: sweep before lake, lake before ledger, and a reason before every deletion of raw data. */
module IngestLog {
  import opened IngestBooks

  datatype Kind = Live | Tail

  datatype Sweep = Sweep(symbol: Name, passed: bool, coverage: real, checks: nat)

  predicate IsGreen(s: Sweep) {
    s.passed && s.coverage == 1.0 && s.checks > 0
  }

  /** `RawFetched` is a month's raw on disk.  It is deleted in two ways: evicted with its symbol, or
      dropped because its symbol has failed. */
  datatype Event =
    | Swept(kind: Kind, sweep: Sweep)
    | LakeWritten(symbol: Name)
    | LedgerRecorded(symbol: Name)
    | RawEvicted(symbol: Name)
    | RawFetched(symbol: Name, month: Month)
    | SymbolFailed(symbol: Name)
    | RawDropped(symbol: Name, months: set<Month>)

  /** When symbols were delisted, and where the window of the ingest ends. */
  datatype Listing = Listing(delisted: map<Name, int>, windowEnd: int)

  /** A symbol's coverage class, by the rule of the plan and not by its bars. */
  function ClassOf(listing: Listing, s: Name): Kind {
    if s in listing.delisted && listing.delisted[s] < listing.windowEnd then Tail else Live
  }

  // ------------------------------------------------------------------ the order of events

  ghost predicate SweptGreen(past: seq<Event>, kind: Kind) {
    exists w :: Swept(kind, w) in past && IsGreen(w)
  }

  /** What must be in the past of an event. */
  ghost predicate MayHappen(past: seq<Event>, listing: Listing, e: Event) {
    && (e.LakeWritten? ==> SweptGreen(past, ClassOf(listing, e.symbol)))
    && (e.LedgerRecorded? ==> LakeWritten(e.symbol) in past)
    && (e.RawEvicted? ==> LedgerRecorded(e.symbol) in past)
    && (e.RawDropped? ==> SymbolFailed(e.symbol) in past && LedgerRecorded(e.symbol) !in past)
  }

  ghost predicate IsGated(log: seq<Event>, listing: Listing) {
    forall i :: 0 <= i < |log| ==> MayHappen(log[..i], listing, log[i])
  }

  lemma LogOneMore(log: seq<Event>, listing: Listing, e: Event)
    requires IsGated(log, listing) && MayHappen(log, listing, e)
    ensures IsGated(log + [e], listing)
  {
    var log' := log + [e];
    forall i | 0 <= i < |log'|
      ensures MayHappen(log'[..i], listing, log'[i])
    {
      assert log'[..i] == log[..i];
      assert i < |log| ==> log'[i] == log[i];
      assert log[..|log|] == log;
    }
  }

  lemma StillGreen(past: seq<Event>, log: seq<Event>, kind: Kind)
    requires past <= log && SweptGreen(past, kind)
    ensures SweptGreen(log, kind)
  {
    var w :| Swept(kind, w) in past && IsGreen(w);
    var i :| 0 <= i < |past| && past[i] == Swept(kind, w);
    assert log[i] == Swept(kind, w);
  }

  /** A recorded symbol has a sweep of its class behind it that passed with full coverage and at least one
      check: of the tail class if it was delisted before the window ends, of the live class otherwise. */
  lemma RecordedIsSwept(log: seq<Event>, listing: Listing, s: Name)
    requires IsGated(log, listing) && LedgerRecorded(s) in log
    ensures var kind := if s in listing.delisted && listing.delisted[s] < listing.windowEnd then Tail else Live;
            exists w :: Swept(kind, w) in log && w.passed && w.coverage == 1.0 && w.checks > 0
    ensures SweptGreen(log, ClassOf(listing, s))
  {
    var i :| 0 <= i < |log| && log[i] == LedgerRecorded(s);
    assert LakeWritten(s) in log[..i];
    var j :| 0 <= j < i && log[j] == LakeWritten(s);
    StillGreen(log[..j], log, ClassOf(listing, s));
  }

  /** Every deletion has its reason before it: the symbol's record for an eviction, its failure and no
      record for a drop. */
  lemma DeletionsHaveReasons(log: seq<Event>, listing: Listing, i: nat)
    requires IsGated(log, listing) && i < |log| && (log[i].RawEvicted? || log[i].RawDropped?)
    ensures LedgerRecorded(log[i].symbol) in log[..i] <==> log[i].RawEvicted?
    ensures log[i].RawDropped? ==> SymbolFailed(log[i].symbol) in log[..i]
  {
    assert MayHappen(log[..i], listing, log[i]);
  }

  // ------------------------------------------------------------------ the log and the books

  ghost predicate WasDropped(log: seq<Event>, s: Name, m: Month) {
    exists ms: set<Month> :: RawDropped(s, ms) in log && m in ms
  }

  /** Records, failures and deletions on the log are those in the books, and every month fetched is
      staged, evicted or dropped according to its symbol. */
  ghost predicate AgreesWith(log: seq<Event>, b: Books, before: set<Name>) {
    && (forall s :: LedgerRecorded(s) in log <==> s in b.built && s !in before)
    && (forall s :: SymbolFailed(s) in log <==> s in b.failed)
    && (forall s :: RawEvicted(s) in log ==> s in b.built)
    && (forall s, ms :: RawDropped(s, ms) in log ==> s in b.failed)
    && (forall s, m :: RawFetched(s, m) in log ==>
          if s in b.failed then WasDropped(log, s, m)
          else if s in b.built then RawEvicted(s) in log
          else m in Staged(b, s))
  }

  /** Exactly when the raw of a fetched month is gone: evicted if and only if its symbol is built, which
      is recorded; dropped, without any record, if and only if its symbol has failed. */
  lemma FateOfRaw(log: seq<Event>, b: Books, before: set<Name>, s: Name, m: Month)
    requires AgreesWith(log, b, before) && b.failed !! b.built && RawFetched(s, m) in log
    ensures RawEvicted(s) in log <==> s in b.built
    ensures WasDropped(log, s, m) <==> s in b.failed
    ensures s in b.failed ==> LedgerRecorded(s) !in log
    ensures s !in b.built && s !in b.failed ==> m in Staged(b, s)
  {
  }

  /** What the handler of a failure logs: the failure, then the staged months if there are any. */
  function FailureOf(b: Books, s: Name): seq<Event> {
    [SymbolFailed(s)] + (if Staged(b, s) == {} then [] else [RawDropped(s, Staged(b, s))])
  }

  lemma FailureIsGated(log: seq<Event>, listing: Listing, b: Books, before: set<Name>, s: Name)
    requires IsGated(log, listing) && AgreesWith(log, b, before) && s !in b.built
    ensures IsGated(log + FailureOf(b, s), listing)
  {
    LogOneMore(log, listing, SymbolFailed(s));
    var log' := log + [SymbolFailed(s)];
    if Staged(b, s) == {} {
      assert log + FailureOf(b, s) == log';
    } else {
      LogOneMore(log', listing, RawDropped(s, Staged(b, s)));
      assert log + FailureOf(b, s) == log' + [RawDropped(s, Staged(b, s))];
    }
  }

  lemma FailureAgrees(log: seq<Event>, b: Books, before: set<Name>, s: Name, liveEst: nat)
    requires AgreesWith(log, b, before) && s !in b.built
    ensures AgreesWith(log + FailureOf(b, s), Failed(b, s, liveEst), before)
  {
    var log', b' := log + FailureOf(b, s), Failed(b, s, liveEst);
    forall q, m | RawFetched(q, m) in log'
      ensures if q in b'.failed then WasDropped(log', q, m)
              else if q in b'.built then RawEvicted(q) in log'
              else m in Staged(b', q)
    {
      assert RawFetched(q, m) in log;
      if q == s && s !in b.failed {
        assert m in Staged(b, s) && RawDropped(s, Staged(b, s)) in log';
      } else if q in b.failed {
        var ms :| RawDropped(q, ms) in log && m in ms;
        assert RawDropped(q, ms) in log';
      }
    }
  }

  /** What a late download of a failed symbol logs. */
  function LateOf(k: Key): seq<Event> {
    [RawFetched(k.0, k.1), RawDropped(k.0, {k.1})]
  }

  lemma LateIsGated(log: seq<Event>, listing: Listing, b: Books, before: set<Name>, k: Key)
    requires IsGated(log, listing) && AgreesWith(log, b, before) && k.0 in b.failed && k.0 !in b.built
    ensures IsGated(log + LateOf(k), listing)
  {
    LogOneMore(log, listing, RawFetched(k.0, k.1));
    LogOneMore(log + [RawFetched(k.0, k.1)], listing, RawDropped(k.0, {k.1}));
    assert log + LateOf(k) == log + [RawFetched(k.0, k.1)] + [RawDropped(k.0, {k.1})];
  }

  lemma LateMonthAgrees(log: seq<Event>, b: Books, before: set<Name>, k: Key, est: nat)
    requires AgreesWith(log, b, before) && k.0 in b.failed
    ensures AgreesWith(log + LateOf(k), Dropped(b, est), before)
  {
    var log' := log + LateOf(k);
    assert RawDropped(k.0, {k.1}) in log';
    forall q, m | RawFetched(q, m) in log' && q in b.failed
      ensures WasDropped(log', q, m)
    {
      if RawFetched(q, m) in log {
        var ms :| RawDropped(q, ms) in log && m in ms;
        assert RawDropped(q, ms) in log';
      }
    }
  }

  /** Entries that are neither fetched, failed, dropped, recorded nor evicted. */
  predicate OnlyBuilds(log: seq<Event>, log': seq<Event>) {
    log <= log' && forall i :: |log| <= i < |log'| ==> log'[i].Swept? || log'[i].LakeWritten?
  }

  lemma BuildsAgree(log: seq<Event>, log': seq<Event>, b: Books, before: set<Name>)
    requires AgreesWith(log, b, before) && OnlyBuilds(log, log')
    ensures AgreesWith(log', b, before)
  {
    forall e: Event | !e.Swept? && !e.LakeWritten?
      ensures e in log' <==> e in log
    {
      if e in log {
        var i :| 0 <= i < |log| && log[i] == e;
        assert log'[i] == e;
      }
    }
    forall q, m | RawFetched(q, m) in log' && q in b.failed
      ensures WasDropped(log', q, m)
    {
      var ms :| RawDropped(q, ms) in log && m in ms;
      assert RawDropped(q, ms) in log';
    }
  }

  lemma FetchedAgrees(log: seq<Event>, b: Books, before: set<Name>, k: Key, bytes: nat, est: nat)
    requires AgreesWith(log, b, before) && k.0 !in b.failed && k.0 !in b.built
    ensures AgreesWith(log + [RawFetched(k.0, k.1)], Received(b, k, bytes, est), before)
  {
    var log', b' := log + [RawFetched(k.0, k.1)], Received(b, k, bytes, est);
    forall q, m | RawFetched(q, m) in log'
      ensures if q in b'.failed then WasDropped(log', q, m)
              else if q in b'.built then RawEvicted(q) in log'
              else m in Staged(b', q)
    {
      ReceivedStages(b, k, bytes, est, q);
      if q in b.failed {
        var ms :| RawDropped(q, ms) in log && m in ms;
        assert RawDropped(q, ms) in log';
      }
    }
  }

  lemma RecordedAgrees(log: seq<Event>, b: Books, before: set<Name>, s: Name)
    requires AgreesWith(log, b, before) && s !in b.failed && s !in b.built && s !in before
    ensures AgreesWith(log + [LedgerRecorded(s), RawEvicted(s)], Recorded(b, s), before)
  {
    var log', b' := log + [LedgerRecorded(s), RawEvicted(s)], Recorded(b, s);
    forall q, m | RawFetched(q, m) in log'
      ensures if q in b'.failed then WasDropped(log', q, m)
              else if q in b'.built then RawEvicted(q) in log'
              else m in Staged(b', q)
    {
      assert Staged(b', q) == Staged(b, q);
      if q in b.failed {
        var ms :| RawDropped(q, ms) in log && m in ms;
        assert RawDropped(q, ms) in log';
      }
    }
  }
}
