/** The dashboard's run protocol: one worker thread and one watchdog thread per job, every worker
    competing for one run lock.  A locked region of the program is one atomic step here; what the
    program does outside a lock (stamping an entry, taking a snapshot, then acting on it) is a step
    of its own, so every interleaving of those pieces is a run of this machine.

    Times are hundredths of a second, the resolution to which the program rounds its stamps. */
module RunProtocol {
  import opened Options

  const STAGE_TIMEOUT := 60000
  const RUN := "run"

  /** What a failed job's `error` says, with the kind that labels it in the trace. */
  datatype Verdict =
    | TimedOut(stage: string, since: int)
    | Refused(msg: string)
    | Failed(msg: string)
  {
    function Kind(): string {
      match this
      case TimedOut(_, _) => "TIMED OUT"
      case Refused(_) => "REFUSED"
      case Failed(_) => "FAILED"
    }
  }

  datatype Entry = Entry(stage: string, detail: string, state: string, t: int)

  datatype JobState = JobState(stages: seq<Entry>, done: bool, error: Option<Verdict>, result: Option<string>)

  const FRESH_JOB := JobState([], false, None, None)

  // ------------------------------------------------------------------ the three locked regions

  /** `_emit`: complete the running stage of the same name, or append. */
  function Emitted(j: JobState, e: Entry): JobState {
    if j.done then j
    else
      var n := |j.stages|;
      if n > 0 && j.stages[n - 1].stage == e.stage && j.stages[n - 1].state == RUN
      then j.(stages := j.stages[n - 1 := e])
      else j.(stages := j.stages + [e])
  }

  /** `_fail`: the first failure wins.  It looks at `error` only, not at `done`. */
  function FailedWith(j: JobState, v: Verdict, t: int): JobState {
    if j.error.Some? then j
    else
      var n := |j.stages|;
      var stages :=
        if n > 0 && j.stages[n - 1].state == RUN
        then j.stages[n - 1 := j.stages[n - 1].(state := "fail", detail := v.Kind())]
        else j.stages + [Entry(v.Kind(), "", "fail", t)];
      j.(stages := stages, error := Some(v), done := true)
  }

  /** The commit at the end of `_execute`: a success is written only if nothing has failed. */
  function Committed(j: JobState, r: string): JobState {
    if j.error.Some? then j else j.(result := Some(r), done := true)
  }

  /** The record itself, updated in place by the three regions. */
  class Job {
    const started: int
    var stages: seq<Entry>
    var done: bool
    var error: Option<Verdict>
    var result: Option<string>

    constructor (now: int)
      ensures started == now && State() == FRESH_JOB
    {
      started := now;
      stages, done, error, result := [], false, None, None;
    }

    function State(): JobState
      reads this
    {
      JobState(stages, done, error, result)
    }

    method Emit(stage: string, detail: string, state: string, now: int)
      modifies this
      ensures State() == Emitted(old(State()), Entry(stage, detail, state, now - started))
    {
      var entry := Entry(stage, detail, state, now - started);
      if done {
        return;
      }
      if |stages| > 0 && stages[|stages| - 1].stage == stage && stages[|stages| - 1].state == RUN {
        stages := stages[|stages| - 1 := entry];
      } else {
        stages := stages + [entry];
      }
    }

    method Fail(v: Verdict, now: int)
      modifies this
      ensures State() == FailedWith(old(State()), v, now - started)
    {
      if error.Some? {
        return;
      }
      if |stages| > 0 && stages[|stages| - 1].state == RUN {
        var last := stages[|stages| - 1];
        stages := stages[|stages| - 1 := last.(state := "fail", detail := v.Kind())];
      } else {
        stages := stages + [Entry(v.Kind(), "", "fail", now - started)];
      }
      error := Some(v);
      done := true;
    }

    method Commit(r: string)
      modifies this
      ensures State() == Committed(old(State()), r)
    {
      if error.Some? {
        return;
      }
      result := Some(r);
      done := true;
    }

    /** One turn of the watchdog's loop up to the release of the lock. */
    method Snapshot(budget: int, now: int) returns (next: Dog)
      ensures next == SnapshotOf(State(), started, budget, now)
    {
      if done {
        return Exited;
      }
      var running := false;
      var stage, t := "(no stage yet)", 0;
      if |stages| > 0 {
        running := stages[|stages| - 1].state == RUN;
        stage, t := stages[|stages| - 1].stage, stages[|stages| - 1].t;
      }
      var since := now - started - t;
      if !running || since < budget {
        return Sleeping;
      }
      return Firing(stage, since);
    }
  }

  // ------------------------------------------------------------------ threads

  /** Where the watchdog is: asleep, past the budget check with its verdict in hand but not yet
      in `_fail`, or returned. */
  datatype Dog = Sleeping | Firing(stage: string, since: int) | Exited

  function SnapshotOf(j: JobState, started: int, budget: int, now: int): Dog {
    if j.done then Exited
    else if |j.stages| == 0 || j.stages[|j.stages| - 1].state != RUN then Sleeping
    else
      var last := j.stages[|j.stages| - 1];
      var since := now - started - last.t;
      if since < budget then Sleeping else Firing(last.stage, since)
  }

  /** How control leaves the region guarded by the run lock. */
  datatype Exit = Return | Raise(v: Verdict)

  /** Where the worker is in `_execute`. */
  datatype Pc =
    | Start
    | Waiting(from: int)
    | Entered
    | Verifying
    | Forecasting
    | Rendering
    | Committing
    | Leaving(exit: Exit)
    | Handling(v: Verdict)
    | Finished

  /** The region between acquiring the run lock and the `finally` that releases it. */
  predicate InRegion(pc: Pc) {
    pc.Entered? || pc.Verifying? || pc.Forecasting? || pc.Rendering? || pc.Committing? || pc.Leaving?
  }

  /** `pending` is an entry stamped by `_emit` that has not reached the lock yet. */
  datatype Run = Run(started: int, job: JobState, pc: Pc, pending: Option<Entry>, dog: Dog,
                     acquired: nat, released: nat)

  datatype System = System(now: int, budget: int, lockHeld: bool, runs: seq<Run>)

  datatype Work =
    | EmitPending
    | TryAcquire
    | AcquireQueued
    | GiveUp
    | BeginIdentity
    | IdentityHolds(detail: string)
    | Progress(stage: string, detail: string, state: string)
    | ForecastDone
    | Rendered(detail: string)
    | Throw(v: Verdict)
    | CommitResult(r: string)
    | Release
    | Handle

  datatype Action =
    | Tick(d: nat)
    | Post
    | Worker(i: nat, w: Work)
    | Watchdog(i: nat)

  predicate CanWork(s: System, r: Run, w: Work) {
    if r.pending.Some? then w.EmitPending?
    else
      match w
      case EmitPending => false
      case TryAcquire => r.pc.Start?
      case AcquireQueued => r.pc.Waiting? && !s.lockHeld
      case GiveUp => r.pc.Waiting? && s.now - r.pc.from >= STAGE_TIMEOUT
      case BeginIdentity => r.pc.Entered?
      case IdentityHolds(_) => r.pc.Verifying?
      case Progress(_, _, _) => r.pc.Forecasting?
      case ForecastDone => r.pc.Forecasting?
      case Rendered(_) => r.pc.Rendering?
      case Throw(v) =>
        // identity failure, a refused file, or any other exception of the guarded region
        !v.TimedOut? && (r.pc.Verifying? || r.pc.Forecasting? || r.pc.Rendering? || r.pc.Committing?)
      case CommitResult(_) => r.pc.Committing?
      case Release => r.pc.Leaving?
      case Handle => r.pc.Handling?
  }

  function Stamp(r: Run, now: int, stage: string, detail: string, state: string): Option<Entry> {
    Some(Entry(stage, detail, state, now - r.started))
  }

  /** One step of a worker: the run afterwards, and whether the run lock is held afterwards. */
  function DoWork(s: System, r: Run, w: Work): (Run, bool)
    requires CanWork(s, r, w)
  {
    match w
    case EmitPending =>
      (r.(job := Emitted(r.job, r.pending.value), pending := None), s.lockHeld)
    case TryAcquire =>
      if s.lockHeld
      then (r.(pc := Waiting(s.now), pending := Stamp(r, s.now, "QUEUED", "another forecast holds the model", RUN)),
          true)
      else (r.(pc := Entered, acquired := r.acquired + 1), true)
    case AcquireQueued =>
      (r.(pc := Entered, acquired := r.acquired + 1, pending := Stamp(r, s.now, "QUEUED", "the model is free", "ok")),
          true)
    case GiveUp =>
      (r.(pc := Handling(Failed("the previous forecast never released the model"))), s.lockHeld)
    case BeginIdentity =>
      (r.(pc := Verifying, pending := Stamp(r, s.now, "VERIFYING MODEL IDENTITY", "", RUN)), s.lockHeld)
    case IdentityHolds(d) =>
      (r.(pc := Forecasting, pending := Stamp(r, s.now, "VERIFYING MODEL IDENTITY", d, "ok")), s.lockHeld)
    case Progress(stage, detail, state) =>
      (r.(pending := Stamp(r, s.now, stage, detail, state)), s.lockHeld)
    case ForecastDone =>
      (r.(pc := Rendering, pending := Stamp(r, s.now, "RENDERING", "", RUN)), s.lockHeld)
    case Rendered(d) =>
      (r.(pc := Committing, pending := Stamp(r, s.now, "RENDERING", d, "ok")), s.lockHeld)
    case Throw(v) =>
      (r.(pc := Leaving(Raise(v))), s.lockHeld)
    case CommitResult(res) =>
      (r.(pc := Leaving(Return), job := Committed(r.job, res)), s.lockHeld)
    case Release =>
      var next := match r.pc.exit case Return => Finished case Raise(v) => Handling(v);
      (r.(pc := next, released := r.released + 1), false)
    case Handle =>
      (r.(pc := Finished, job := FailedWith(r.job, r.pc.v, s.now - r.started)), s.lockHeld)
  }

  function DoWatch(s: System, r: Run): Run
    requires !r.dog.Exited?
  {
    match r.dog
    case Sleeping => r.(dog := SnapshotOf(r.job, r.started, s.budget, s.now))
    case Firing(stage, since) =>
      r.(dog := Exited, job := FailedWith(r.job, TimedOut(stage, since), s.now - r.started))
  }

  predicate Enabled(s: System, a: Action) {
    match a
    case Tick(_) => true
    case Post => true
    case Worker(i, w) => i < |s.runs| && CanWork(s, s.runs[i], w)
    case Watchdog(i) => i < |s.runs| && !s.runs[i].dog.Exited?
  }

  function Step(s: System, a: Action): System
    requires Enabled(s, a)
  {
    match a
    case Tick(d) => s.(now := s.now + d)
    case Post => s.(runs := s.runs + [Run(s.now, FRESH_JOB, Start, None, Sleeping, 0, 0)])
    case Worker(i, w) =>
      var (r, held) := DoWork(s, s.runs[i], w);
      s.(runs := s.runs[i := r], lockHeld := held)
    case Watchdog(i) => s.(runs := s.runs[i := DoWatch(s, s.runs[i])])
  }

  function Boot(now: int, budget: int): System {
    System(now, budget, false, [])
  }

  predicate CanRun(s: System, acts: seq<Action>)
    decreases |acts|
  {
    acts == [] || (Enabled(s, acts[0]) && CanRun(Step(s, acts[0]), acts[1..]))
  }

  /** The state after a whole interleaving. */
  function After(s: System, acts: seq<Action>): System
    requires CanRun(s, acts)
    decreases |acts|
  {
    if acts == [] then s else After(Step(s, acts[0]), acts[1..])
  }

  // ------------------------------------------------------------------ the invariant

  ghost predicate SortedByTime(stages: seq<Entry>) {
    forall i, j :: 0 <= i < j < |stages| ==> stages[i].t <= stages[j].t
  }

  ghost predicate AllBy(stages: seq<Entry>, t: int) {
    forall k :: 0 <= k < |stages| ==> stages[k].t <= t
  }

  ghost predicate JobInv(r: Run, now: int) {
    && (r.job.done <==> r.job.result.Some? || r.job.error.Some?)
    && SortedByTime(r.job.stages)
    && AllBy(r.job.stages, now - r.started)
    && (r.pending.Some? ==> r.pending.value.t <= now - r.started)
    && (r.pending.Some? && !r.job.done ==> AllBy(r.job.stages, r.pending.value.t))
  }

  ghost predicate ThreadInv(r: Run, budget: int) {
    && r.acquired <= 1
    && r.acquired == r.released + (if InRegion(r.pc) then 1 else 0)
    && (r.pc.Start? || r.pc.Waiting? ==> r.acquired == 0)
    && (r.pending.Some? ==> r.pc.Waiting? || r.pc.Entered? || r.pc.Verifying? || r.pc.Forecasting?
                            || r.pc.Rendering? || r.pc.Committing?)
    && (r.job.result.Some? ==> r.pc == Leaving(Return) || r.pc.Finished?)
    && (r.pc == Leaving(Return) || r.pc.Finished? || r.dog.Exited? ==> r.job.done)
    && (r.pc.Handling? ==> !r.pc.v.TimedOut?)
    && (r.pc.Leaving? && r.pc.exit.Raise? ==> !r.pc.exit.v.TimedOut?)
    && (r.dog.Firing? ==> r.dog.since >= budget)
    && (r.job.error.Some? && r.job.error.value.TimedOut? ==> r.dog.Exited? && r.job.error.value.since >= budget)
    && (r.job.error.Some? && !r.job.error.value.TimedOut? ==> r.job.result.None? && r.pc.Finished?)
  }

  ghost predicate RunInv(r: Run, now: int, budget: int) {
    JobInv(r, now) && ThreadInv(r, budget)
  }

  ghost predicate LockInv(s: System) {
    && (forall i, j :: 0 <= i < j < |s.runs| ==> !(InRegion(s.runs[i].pc) && InRegion(s.runs[j].pc)))
    && (s.lockHeld <==> exists i :: 0 <= i < |s.runs| && InRegion(s.runs[i].pc))
  }

  ghost predicate Inv(s: System) {
    LockInv(s) && forall i :: 0 <= i < |s.runs| ==> RunInv(s.runs[i], s.now, s.budget)
  }

  lemma EmitKeepsJob(r: Run, now: int)
    requires JobInv(r, now) && r.pending.Some?
    ensures JobInv(r.(job := Emitted(r.job, r.pending.value), pending := None), now)
  {
  }

  lemma FailKeepsJob(r: Run, v: Verdict, now: int)
    requires JobInv(r, now)
    ensures JobInv(r.(job := FailedWith(r.job, v, now - r.started)), now)
  {
  }

  lemma WorkKeepsJob(s: System, r: Run, w: Work)
    requires JobInv(r, s.now) && CanWork(s, r, w)
    ensures JobInv(DoWork(s, r, w).0, s.now)
  {
    hide SortedByTime, AllBy, Emitted, FailedWith;
    if w.EmitPending? {
      EmitKeepsJob(r, s.now);
    } else if w.Handle? {
      FailKeepsJob(r, r.pc.v, s.now);
    }
  }

  lemma WorkKeepsRun(s: System, r: Run, w: Work)
    requires RunInv(r, s.now, s.budget) && CanWork(s, r, w)
    ensures RunInv(DoWork(s, r, w).0, s.now, s.budget)
  {
    WorkKeepsJob(s, r, w);
    assert r.job.done <==> r.job.result.Some? || r.job.error.Some?;
    hide JobInv;
  }

  lemma WatchKeepsRun(s: System, r: Run)
    requires RunInv(r, s.now, s.budget) && !r.dog.Exited?
    ensures RunInv(DoWatch(s, r), s.now, s.budget)
  {
    if r.dog.Firing? {
      FailKeepsJob(r, TimedOut(r.dog.stage, r.dog.since), s.now);
    }
  }

  /** What a worker's step does to the lock, seen from outside. */
  lemma WorkMovesLock(s: System, r: Run, w: Work)
    requires CanWork(s, r, w)
    ensures var (r', held) := DoWork(s, r, w);
            || (InRegion(r'.pc) == InRegion(r.pc) && held == s.lockHeld)
            || (!InRegion(r.pc) && InRegion(r'.pc) && !s.lockHeld && held)
            || (InRegion(r.pc) && !InRegion(r'.pc) && !held)
  {
  }

  lemma StepKeepsLock(s: System, a: Action)
    requires Inv(s) && Enabled(s, a)
    ensures LockInv(Step(s, a))
  {
    hide RunInv, Emitted, FailedWith, Committed, SnapshotOf;
    var s' := Step(s, a);
    match a
    case Tick(_) =>
    case Post =>
      if s.lockHeld {
        var i :| 0 <= i < |s.runs| && InRegion(s.runs[i].pc);
        assert s'.runs[i] == s.runs[i];
      }
    case Watchdog(i) =>
      assert forall k :: 0 <= k < |s.runs| ==> s'.runs[k].pc == s.runs[k].pc;
      if s.lockHeld {
        var k :| 0 <= k < |s.runs| && InRegion(s.runs[k].pc);
        assert InRegion(s'.runs[k].pc);
      }
    case Worker(i, w) =>
      WorkMovesLock(s, s.runs[i], w);
      assert forall k :: 0 <= k < |s.runs| && k != i ==> s'.runs[k] == s.runs[k];
      assert s'.runs[i] == DoWork(s, s.runs[i], w).0;
      if s.lockHeld {
        var k :| 0 <= k < |s.runs| && InRegion(s.runs[k].pc);
        assert s'.runs[k].pc == s'.runs[k].pc;
      }
  }

  lemma StepKeepsInv(s: System, a: Action)
    requires Inv(s) && Enabled(s, a)
    ensures Inv(Step(s, a))
  {
    StepKeepsLock(s, a);
    match a
    case Tick(_) =>
    case Post =>
    case Worker(i, w) => WorkKeepsRun(s, s.runs[i], w);
    case Watchdog(i) => WatchKeepsRun(s, s.runs[i]);
  }
}
