/** The bookkeeping of the ingest orchestrator: which month of which symbol is where, and the counter
    of raw bytes. */
module IngestBooks {
  type Name = nat
  type Month = nat
  type Key = (Name, Month)
  type Plan = map<Name, seq<Month>>

  datatype Books = Books(todo: seq<Key>, inflight: map<Key, nat>, staged: map<Name, set<Month>>,
                         rawBytes: map<Name, nat>, cache: int, failed: set<Name>, built: set<Name>)

  // ------------------------------------------------------------------ byte totals

  ghost function Bytes<K>(m: map<K, nat>): nat
    decreases |m|
  {
    if m == map[] then 0
    else
      var k :| k in m;
      m[k] + Bytes(m - {k})
  }

  lemma {:induction false} BytesWithout<K>(m: map<K, nat>, k: K)
    requires k in m
    ensures Bytes(m) == m[k] + Bytes(m - {k})
    decreases |m|
  {
    var j :| j in m && Bytes(m) == m[j] + Bytes(m - {j});
    if j != k {
      BytesWithout(m - {j}, k);
      BytesWithout(m - {k}, j);
      assert m - {j} - {k} == m - {k} - {j};
    }
  }

  lemma BytesWith<K>(m: map<K, nat>, k: K, v: nat)
    requires k !in m
    ensures Bytes(m[k := v]) == Bytes(m) + v
  {
    BytesWithout(m[k := v], k);
    assert m[k := v] - {k} == m;
  }

  // ------------------------------------------------------------------ where the months are

  function MonthsOf(plan: Plan, s: Name): set<Month> {
    if s in plan then set m | m in plan[s] else {}
  }

  function Staged(b: Books, s: Name): set<Month> {
    if s in b.staged then b.staged[s] else {}
  }

  function RawBytes(b: Books, s: Name): nat {
    if s in b.rawBytes then b.rawBytes[s] else 0
  }

  predicate IsWaiting(plan: Plan, b: Books, k: Key) {
    k.1 in MonthsOf(plan, k.0) && k.0 !in b.built && k.1 !in Staged(b, k.0)
  }

  /** What is to be downloaded: each month once, of symbols that have not failed. */
  ghost predicate TodoIsTidy(plan: Plan, b: Books) {
    && (forall i, j :: 0 <= i < j < |b.todo| ==> b.todo[i] != b.todo[j])
    && (forall k :: k in b.todo ==> IsWaiting(plan, b, k) && k !in b.inflight && k.0 !in b.failed)
  }

  ghost predicate FlightIsTidy(plan: Plan, b: Books) {
    forall k :: k in b.inflight ==> IsWaiting(plan, b, k)
  }

  /** Only symbols that have neither failed nor been built hold raw bytes. */
  ghost predicate StagesAreTidy(plan: Plan, b: Books) {
    && (forall s :: s in b.staged ==> s !in b.failed && b.staged[s] <= MonthsOf(plan, s))
    && (forall s :: s in b.rawBytes ==> s in b.staged && s !in b.built && b.staged[s] != {})
    && b.failed !! b.built
  }

  /** Every month of a symbol that has neither failed nor been built is to be downloaded, in flight or
      staged, or among the late ones an event is about to settle. */
  ghost predicate IsCovered(plan: Plan, b: Books, late: set<Key>) {
    forall s: Name, m: Month :: s !in b.failed && s !in b.built && m in MonthsOf(plan, s) ==>
      (s, m) in b.todo || (s, m) in b.inflight || m in Staged(b, s) || (s, m) in late
  }

  ghost predicate IsOrderly(plan: Plan, b: Books) {
    TodoIsTidy(plan, b) && FlightIsTidy(plan, b) && StagesAreTidy(plan, b) && IsCovered(plan, b, {})
  }

  /** Orderly but for one month, out of flight and not yet accounted for. */
  ghost predicate IsOrderlyBut(plan: Plan, b: Books, k: Key) {
    && TodoIsTidy(plan, b) && FlightIsTidy(plan, b) && StagesAreTidy(plan, b) && IsCovered(plan, b, {k})
    && IsWaiting(plan, b, k) && k !in b.todo && k !in b.inflight
  }

  /** No symbol is complete and still waiting to be built. */
  ghost predicate IsCaughtUp(plan: Plan, b: Books) {
    forall s :: s in b.staged && s !in b.built ==> b.staged[s] != MonthsOf(plan, s)
  }

  ghost predicate IsCaughtUpBut(plan: Plan, b: Books, late: Name) {
    forall s :: s != late && s in b.staged && s !in b.built ==> b.staged[s] != MonthsOf(plan, s)
  }

  /** The counter is the bytes reserved in flight plus the bytes on disk, plus what the current event
      has not settled yet. */
  ghost predicate IsBalanced(b: Books, unsettled: int) {
    b.cache == Bytes(b.inflight) + Bytes(b.rawBytes) + unsettled
  }

  // ------------------------------------------------------------------ the moves

  function Submitted(b: Books, est: nat): Books
    requires b.todo != []
  {
    b.(todo := b.todo[1..], inflight := b.inflight[b.todo[0] := est], cache := b.cache + est)
  }

  function Popped(b: Books, k: Key): Books {
    b.(inflight := b.inflight - {k})
  }

  /** A late download of a symbol that has failed: its reservation is released. */
  function Dropped(b: Books, est: nat): Books {
    b.(cache := b.cache - est)
  }

  function Received(b: Books, k: Key, bytes: nat, est: nat): Books {
    b.(cache := b.cache + bytes - est,
       rawBytes := b.rawBytes[k.0 := RawBytes(b, k.0) + bytes],
       staged := b.staged[k.0 := Staged(b, k.0) + {k.1}])
  }

  function Without(todo: seq<Key>, s: Name): (r: seq<Key>)
    ensures forall k :: k in r <==> k in todo && k.0 != s
    ensures |r| <= |todo|
  {
    if todo == [] then []
    else if todo[0].0 == s then Without(todo[1..], s)
    else [todo[0]] + Without(todo[1..], s)
  }

  /** One symbol's failure, isolated. */
  function Failed(b: Books, s: Name, liveEst: nat): Books {
    b.(failed := b.failed + {s},
       cache := b.cache - (RawBytes(b, s) + liveEst),
       rawBytes := b.rawBytes - {s},
       staged := b.staged - {s},
       todo := Without(b.todo, s))
  }

  /** Recorded in the ledger, and only then evicted. */
  function Recorded(b: Books, s: Name): Books {
    b.(built := b.built + {s}, cache := b.cache - RawBytes(b, s), rawBytes := b.rawBytes - {s})
  }

  // ------------------------------------------------------------------ what the moves keep

  lemma SubmittedKeepsTodo(plan: Plan, b: Books, est: nat)
    requires b.todo != [] && TodoIsTidy(plan, b) && FlightIsTidy(plan, b)
    ensures TodoIsTidy(plan, Submitted(b, est)) && FlightIsTidy(plan, Submitted(b, est)) && b.todo[0] !in b.inflight
  {
    var b', k := Submitted(b, est), b.todo[0];
    assert k in b.todo;
    assert forall s :: Staged(b', s) == Staged(b, s);
    forall q | q in b'.todo
      ensures q in b.todo && q != k
    {
      var i :| 0 <= i < |b'.todo| && b'.todo[i] == q;
      assert b.todo[i + 1] == q;
    }
  }

  lemma SubmittedKeepsCover(plan: Plan, b: Books, est: nat)
    requires b.todo != [] && IsCovered(plan, b, {}) && StagesAreTidy(plan, b) && IsCaughtUp(plan, b)
    ensures var b' := Submitted(b, est); IsCovered(plan, b', {}) && StagesAreTidy(plan, b') && IsCaughtUp(plan, b')
  {
    var b' := Submitted(b, est);
    assert forall s :: Staged(b', s) == Staged(b, s);
    assert forall q :: q in b.todo ==> q == b.todo[0] || q in b'.todo;
  }

  lemma SubmittedKeeps(plan: Plan, b: Books, est: nat)
    requires b.todo != [] && IsOrderly(plan, b) && IsCaughtUp(plan, b) && IsBalanced(b, 0)
    ensures var b' := Submitted(b, est);
            && IsOrderly(plan, b') && IsCaughtUp(plan, b') && IsBalanced(b', 0)
            && |b'.todo| + |b'.inflight| == |b.todo| + |b.inflight|
  {
    hide TodoIsTidy, FlightIsTidy, IsCovered, StagesAreTidy, IsCaughtUp;
    SubmittedKeepsTodo(plan, b, est);
    SubmittedKeepsCover(plan, b, est);
    BytesWith(b.inflight, b.todo[0], est);
  }

  lemma PoppedKeeps(plan: Plan, b: Books, k: Key)
    requires k in b.inflight && IsOrderly(plan, b) && IsCaughtUp(plan, b) && IsBalanced(b, 0)
    ensures var b' := Popped(b, k); IsOrderlyBut(plan, b', k) && IsCaughtUp(plan, b') && IsBalanced(b', b.inflight[k])
  {
    BytesWithout(b.inflight, k);
    var b' := Popped(b, k);
    assert forall s :: Staged(b', s) == Staged(b, s);
  }

  lemma PoppedMonth(plan: Plan, b: Books, k: Key)
    requires k in b.inflight && IsOrderly(plan, b)
    ensures k.1 in MonthsOf(plan, k.0) && MonthsOf(plan, k.0) != {} && k.0 !in b.built && k !in b.inflight - {k}
  {
    assert k.1 in MonthsOf(plan, k.0);
  }

  lemma DroppedKeeps(plan: Plan, b: Books, k: Key, est: nat)
    requires IsOrderlyBut(plan, b, k) && IsCaughtUp(plan, b) && IsBalanced(b, est) && k.0 in b.failed
    ensures var b' := Dropped(b, est); IsOrderly(plan, b') && IsCaughtUp(plan, b') && IsBalanced(b', 0)
  {
    var b' := Dropped(b, est);
    assert forall s :: Staged(b', s) == Staged(b, s);
  }

  lemma RawBytesReplaced(m: map<Name, nat>, s: Name, v: nat)
    ensures Bytes(m[s := v]) == Bytes(m - {s}) + v
  {
    BytesWith(m - {s}, s, v);
    assert (m - {s})[s := v] == m[s := v];
  }

  lemma RawBytesRemoved(b: Books, s: Name)
    ensures Bytes(b.rawBytes) == Bytes(b.rawBytes - {s}) + RawBytes(b, s)
  {
    if s in b.rawBytes {
      BytesWithout(b.rawBytes, s);
    } else {
      assert b.rawBytes - {s} == b.rawBytes;
    }
  }

  lemma ReceivedStages(b: Books, k: Key, bytes: nat, est: nat, s: Name)
    ensures Staged(Received(b, k, bytes, est), s) == if s == k.0 then Staged(b, s) + {k.1} else Staged(b, s)
  {
  }

  lemma ReceivedKeepsKeys(plan: Plan, b: Books, k: Key, bytes: nat, est: nat)
    requires IsOrderlyBut(plan, b, k)
    ensures var b' := Received(b, k, bytes, est);
            TodoIsTidy(plan, b') && FlightIsTidy(plan, b') && IsCovered(plan, b', {})
  {
    var b' := Received(b, k, bytes, est);
    forall s
      ensures Staged(b', s) == if s == k.0 then Staged(b, s) + {k.1} else Staged(b, s)
    {
      ReceivedStages(b, k, bytes, est, s);
    }
  }

  lemma ReceivedKeepsStages(plan: Plan, b: Books, k: Key, bytes: nat, est: nat)
    requires StagesAreTidy(plan, b) && IsWaiting(plan, b, k) && k.0 !in b.failed
    ensures StagesAreTidy(plan, Received(b, k, bytes, est))
  {
    var b' := Received(b, k, bytes, est);
    forall s | s in b'.rawBytes
      ensures s in b'.staged && s !in b'.built && b'.staged[s] != {}
    {
      assert k.1 in b'.staged[k.0];
      assert s != k.0 ==> s in b.rawBytes;
    }
  }

  lemma ReceivedKeepsBalance(b: Books, k: Key, bytes: nat, est: nat)
    requires IsBalanced(b, est)
    ensures IsBalanced(Received(b, k, bytes, est), 0)
  {
    RawBytesReplaced(b.rawBytes, k.0, RawBytes(b, k.0) + bytes);
    RawBytesRemoved(b, k.0);
  }

  lemma ReceivedKeeps(plan: Plan, b: Books, k: Key, bytes: nat, est: nat)
    requires IsOrderlyBut(plan, b, k) && IsCaughtUp(plan, b) && IsBalanced(b, est) && k.0 !in b.failed
    ensures var b' := Received(b, k, bytes, est);
            && IsOrderly(plan, b') && IsCaughtUpBut(plan, b', k.0) && IsBalanced(b', 0)
            && k.0 in b'.staged && k.0 !in b'.built
            && (b'.staged[k.0] != MonthsOf(plan, k.0) ==> IsCaughtUp(plan, b'))
  {
    ReceivedKeepsKeys(plan, b, k, bytes, est);
    ReceivedKeepsStages(plan, b, k, bytes, est);
    ReceivedKeepsBalance(b, k, bytes, est);
    ReceivedStages(b, k, bytes, est, k.0);
  }

  lemma {:induction false} WithoutKeepsDistinct(todo: seq<Key>, s: Name)
    requires forall i, j :: 0 <= i < j < |todo| ==> todo[i] != todo[j]
    ensures forall i, j :: 0 <= i < j < |Without(todo, s)| ==> Without(todo, s)[i] != Without(todo, s)[j]
  {
    if todo != [] {
      WithoutKeepsDistinct(todo[1..], s);
      var rest := Without(todo[1..], s);
      forall j | 0 <= j < |rest|
        ensures rest[j] != todo[0]
      {
        assert rest[j] in todo[1..];
      }
    }
  }

  lemma FailedStages(b: Books, s: Name, liveEst: nat, q: Name)
    ensures Staged(Failed(b, s, liveEst), q) == if q == s then {} else Staged(b, q)
  {
  }

  lemma FailedKeepsKeys(plan: Plan, b: Books, s: Name, liveEst: nat, late: set<Key>)
    requires TodoIsTidy(plan, b) && FlightIsTidy(plan, b) && IsCovered(plan, b, late)
    requires forall k :: k in late ==> k.0 == s
    ensures var b' := Failed(b, s, liveEst);
            TodoIsTidy(plan, b') && FlightIsTidy(plan, b') && IsCovered(plan, b', {})
  {
    WithoutKeepsDistinct(b.todo, s);
    forall q
      ensures Staged(Failed(b, s, liveEst), q) == if q == s then {} else Staged(b, q)
    {
      FailedStages(b, s, liveEst, q);
    }
    hide Staged, MonthsOf;
  }

  lemma FailedKeepsStages(plan: Plan, b: Books, s: Name, liveEst: nat)
    requires StagesAreTidy(plan, b) && IsCaughtUpBut(plan, b, s) && s !in b.built
    ensures var b' := Failed(b, s, liveEst); StagesAreTidy(plan, b') && IsCaughtUp(plan, b')
  {
    hide MonthsOf, Without;
  }

  lemma FailedKeepsBalance(b: Books, s: Name, liveEst: nat)
    requires IsBalanced(b, liveEst)
    ensures IsBalanced(Failed(b, s, liveEst), 0)
  {
    RawBytesRemoved(b, s);
  }

  /** A failure while the month was still in flight. */
  lemma DownloadFailedKeeps(plan: Plan, b: Books, k: Key, est: nat)
    requires IsOrderlyBut(plan, b, k) && IsCaughtUp(plan, b) && IsBalanced(b, est)
    ensures var b' := Failed(b, k.0, est); IsOrderly(plan, b') && IsCaughtUp(plan, b') && IsBalanced(b', 0)
  {
    assert IsCaughtUpBut(plan, b, k.0);
    hide TodoIsTidy, FlightIsTidy, StagesAreTidy, IsCovered, IsBalanced, IsCaughtUp, IsCaughtUpBut, Failed;
    FailedKeepsKeys(plan, b, k.0, est, {k});
    FailedKeepsStages(plan, b, k.0, est);
    FailedKeepsBalance(b, k.0, est);
  }

  /** A failure of the build, after its last month was staged. */
  lemma BuildFailedKeeps(plan: Plan, b: Books, s: Name)
    requires IsOrderly(plan, b) && IsBalanced(b, 0) && s !in b.built
    requires IsCaughtUpBut(plan, b, s)
    ensures var b' := Failed(b, s, 0); IsOrderly(plan, b') && IsCaughtUp(plan, b') && IsBalanced(b', 0)
  {
    hide TodoIsTidy, FlightIsTidy, StagesAreTidy, IsCovered, IsBalanced, IsCaughtUp, IsCaughtUpBut, Failed;
    FailedKeepsKeys(plan, b, s, 0, {});
    FailedKeepsStages(plan, b, s, 0);
    FailedKeepsBalance(b, s, 0);
  }

  lemma RecordedKeeps(plan: Plan, b: Books, s: Name)
    requires IsOrderly(plan, b) && IsBalanced(b, 0) && s in b.staged && s !in b.built
              && b.staged[s] == MonthsOf(plan, s)
    requires IsCaughtUpBut(plan, b, s)
    ensures var b' := Recorded(b, s); IsOrderly(plan, b') && IsCaughtUp(plan, b') && IsBalanced(b', 0)
  {
    var b' := Recorded(b, s);
    RawBytesRemoved(b, s);
    assert forall q :: Staged(b', q) == Staged(b, q);
  }

  /** When nothing is left to do, every planned symbol with a month to download was built or failed, and
      no raw byte is held or counted. */
  lemma NothingLeftNothingHeld(plan: Plan, b: Books, s: Name)
    requires IsOrderly(plan, b) && IsCaughtUp(plan, b) && IsBalanced(b, 0) && b.todo == [] && b.inflight == map[]
    ensures MonthsOf(plan, s) != {} ==> s in b.built || s in b.failed
    ensures b.rawBytes == map[] && b.cache == 0
  {
    forall q | MonthsOf(plan, q) != {}
      ensures q in b.built || q in b.failed
    {
      if q !in b.failed && q !in b.built {
        AllStaged(plan, b, q);
      }
    }
    assert forall q :: q in b.rawBytes ==> MonthsOf(plan, q) != {} && q !in b.failed && q !in b.built;
  }

  lemma AllStaged(plan: Plan, b: Books, s: Name)
    requires IsOrderly(plan, b) && b.todo == [] && b.inflight == map[]
    requires s !in b.failed && s !in b.built && MonthsOf(plan, s) != {}
    ensures s in b.staged && b.staged[s] == MonthsOf(plan, s)
  {
    forall m | m in MonthsOf(plan, s)
      ensures m in Staged(b, s)
    {
      assert (s, m) !in b.todo && (s, m) !in b.inflight;
    }
    var m :| m in MonthsOf(plan, s);
    assert m in Staged(b, s);
  }
}
