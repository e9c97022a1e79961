/** What every interleaving of workers, watchdogs and orphaned workers keeps. */
module RunTheorems {
  import opened Options
  import opened RunProtocol

  lemma {:induction false} RunsKeepInv(s: System, acts: seq<Action>)
    requires Inv(s) && CanRun(s, acts)
    ensures Inv(After(s, acts))
    decreases |acts|
  {
    if acts != [] {
      StepKeepsInv(s, acts[0]);
      RunsKeepInv(Step(s, acts[0]), acts[1..]);
    }
  }

  /** Every state the server can reach. */
  lemma ReachableStates(now: int, budget: int, acts: seq<Action>)
    requires CanRun(Boot(now, budget), acts)
    ensures Inv(After(Boot(now, budget), acts))
  {
    RunsKeepInv(Boot(now, budget), acts);
  }

  // ------------------------------------------------------------------ stickiness

  /** The order in which a job's record can change.  It is transitive, so it relates any two
      moments of one run, however many steps lie between them. */
  ghost predicate Sticky(a: JobState, b: JobState) {
    && (a.done ==> b.done)
    && (a.error.Some? ==> b.error == a.error && b.result == a.result && b.stages == a.stages)
    && (a.result.Some? ==> b.result == a.result)
    && (a.done ==> |b.stages| <= |a.stages| + (if b.error.Some? && a.error.None? then 1 else 0))
    && |a.stages| <= |b.stages|
    && (forall k :: 0 <= k < |a.stages| ==> b.stages[k].stage == a.stages[k].stage)
    && (forall k :: 0 <= k < |a.stages| && a.stages[k].state != RUN ==> b.stages[k] == a.stages[k])
    && (forall k :: 0 <= k < |a.stages| - 1 ==> b.stages[k] == a.stages[k])
  }

  lemma StickyTransitive(a: JobState, b: JobState, c: JobState)
    requires Sticky(a, b) && Sticky(b, c)
    ensures Sticky(a, c)
  {
    forall k | 0 <= k < |a.stages|
      ensures c.stages[k].stage == a.stages[k].stage
      ensures a.stages[k].state != RUN ==> c.stages[k] == a.stages[k]
      ensures k < |a.stages| - 1 ==> c.stages[k] == a.stages[k]
    {
      assert b.stages[k].stage == a.stages[k].stage;
    }
  }

  lemma WorkIsSticky(s: System, r: Run, w: Work)
    requires RunInv(r, s.now, s.budget) && CanWork(s, r, w)
    ensures Sticky(r.job, DoWork(s, r, w).0.job) && DoWork(s, r, w).0.started == r.started
  {
  }

  lemma StepIsSticky(s: System, a: Action, i: nat)
    requires Inv(s) && Enabled(s, a) && i < |s.runs|
    ensures i < |Step(s, a).runs| && Sticky(s.runs[i].job, Step(s, a).runs[i].job)
    ensures Step(s, a).runs[i].started == s.runs[i].started
  {
    assert Sticky(s.runs[i].job, s.runs[i].job) && RunInv(s.runs[i], s.now, s.budget);
    hide Inv, Sticky, DoWork, DoWatch;
    if a.Worker? && a.i == i {
      WorkIsSticky(s, s.runs[i], a.w);
    } else if a.Watchdog? && a.i == i {
      WatchIsSticky(s, s.runs[i]);
    }
  }

  lemma WatchIsSticky(s: System, r: Run)
    requires RunInv(r, s.now, s.budget) && !r.dog.Exited?
    ensures Sticky(r.job, DoWatch(s, r).job) && DoWatch(s, r).started == r.started
  {
  }

  /** Over every interleaving: `done` never reverts, the first `error` is final and freezes the
      record, no `result` is written after an `error`, the trace never shrinks, a closed entry
      stays at its index, and a finished job can gain at most one entry, with a late verdict. */
  lemma {:induction false} RunsAreSticky(s: System, acts: seq<Action>, i: nat)
    requires Inv(s) && CanRun(s, acts) && i < |s.runs|
    ensures i < |After(s, acts).runs|
    ensures Sticky(s.runs[i].job, After(s, acts).runs[i].job)
    decreases |acts|
  {
    if acts != [] {
      var next := Step(s, acts[0]);
      StepIsSticky(s, acts[0], i);
      StepKeepsInv(s, acts[0]);
      RunsAreSticky(next, acts[1..], i);
      StickyTransitive(s.runs[i].job, next.runs[i].job, After(s, acts).runs[i].job);
    }
  }

  /** A finished job is closed to `_emit`, and to everything but a first verdict; an emit to an
      open job changes nothing but the trace, whose last entry is then the one emitted. */
  lemma EmitRespectsDone(j: JobState, e: Entry)
    ensures j.done ==> Emitted(j, e) == j
    ensures !j.done ==>
              && var j' := Emitted(j, e);
              && j' == j.(stages := j'.stages)
              && |j'.stages| > 0 && j'.stages[|j'.stages| - 1] == e
              && (forall k :: 0 <= k < |j'.stages| - 1 ==> j'.stages[k] == j.stages[k])
              && |j.stages| <= |j'.stages| <= |j.stages| + 1
              && (|j'.stages| == |j.stages| <==>
                    j.stages != [] && j.stages[|j.stages| - 1].stage == e.stage
                        && j.stages[|j.stages| - 1].state == RUN)
  {
  }

  /** A first failure leaves a failing entry last: the running one, keeping its stage and its stamp, or
      a new one named after the kind of failure.  A second one leaves everything as it is. */
  lemma FailClosesTheTrace(j: JobState, v: Verdict, w: Verdict, t: int, u: int)
    ensures FailedWith(FailedWith(j, v, t), w, u) == FailedWith(j, v, t)
    ensures j.error.None? ==>
              var j', n := FailedWith(j, v, t), |j.stages|;
              && j'.done && j'.error == Some(v) && j'.result == j.result
              && |j'.stages| > 0 && j'.stages[|j'.stages| - 1].state == "fail"
              && (forall k :: 0 <= k < |j'.stages| - 1 ==> j'.stages[k] == j.stages[k])
              && (if n > 0 && j.stages[n - 1].state == RUN
                  then
                    && |j'.stages| == n
                    && j'.stages[n - 1] == Entry(j.stages[n - 1].stage, v.Kind(), "fail", j.stages[n - 1].t)
                  else |j'.stages| == n + 1 && j'.stages[n] == Entry(v.Kind(), "", "fail", t))
  {
  }

  // ------------------------------------------------------------------ outcomes

  /** `done` says exactly that there is an outcome, the trace is in time order although stamps are
      taken outside the lock, and no thread of a job ends before the job has an outcome. */
  lemma OutcomeOfEveryRun(now: int, budget: int, acts: seq<Action>, i: nat)
    requires CanRun(Boot(now, budget), acts)
    requires i < |After(Boot(now, budget), acts).runs|
    ensures var r := After(Boot(now, budget), acts).runs[i];
            && (r.job.done <==> r.job.result.Some? || r.job.error.Some?)
            && SortedByTime(r.job.stages)
            && (r.pc.Finished? || r.dog.Exited? ==> r.job.done)
            && (r.job.error.Some? && r.job.error.value.TimedOut? ==> r.job.error.value.since >= budget)
  {
    ReachableStates(now, budget, acts);
    BudgetIsFixed(Boot(now, budget), acts);
  }

  lemma {:induction false} BudgetIsFixed(s: System, acts: seq<Action>)
    requires CanRun(s, acts)
    ensures After(s, acts).budget == s.budget
    decreases |acts|
  {
    if acts != [] {
      BudgetIsFixed(Step(s, acts[0]), acts[1..]);
    }
  }

  // ------------------------------------------------------------------ whose text the outcome is

  /** The page receives what was committed: after the commit of an error-free job its result is that text,
      whatever the threads do from there. */
  lemma CommittedStays(s: System, i: nat, r: string, acts: seq<Action>)
    requires Inv(s) && Enabled(s, Worker(i, CommitResult(r))) && s.runs[i].job.error.None?
    requires CanRun(Step(s, Worker(i, CommitResult(r))), acts)
    ensures var s' := After(Step(s, Worker(i, CommitResult(r))), acts);
            i < |s'.runs| && s'.runs[i].job.result == Some(r)
  {
    StepKeepsInv(s, Worker(i, CommitResult(r)));
    RunsAreSticky(Step(s, Worker(i, CommitResult(r))), acts, i);
  }

  /** The first appearance of a result is the step that commits it. */
  lemma StepToResult(s: System, a: Action, i: nat)
    requires Inv(s) && Enabled(s, a) && i < |Step(s, a).runs|
    requires i < |s.runs| ==> s.runs[i].job.result.None?
    ensures Step(s, a).runs[i].job.result.Some? ==> a == Worker(i, CommitResult(Step(s, a).runs[i].job.result.value))
  {
    if i < |s.runs| && a.Worker? && a.i == i {
      assert Step(s, a).runs[i] == DoWork(s, s.runs[i], a.w).0;
    }
  }

  /** And nothing else is ever a result: the job's own worker committed it on the way. */
  lemma {:induction false} ResultWasCommitted(s: System, acts: seq<Action>, i: nat)
    requires Inv(s) && CanRun(s, acts) && i < |After(s, acts).runs|
    requires i < |s.runs| ==> s.runs[i].job.result.None?
    ensures After(s, acts).runs[i].job.result.Some? ==>
              Worker(i, CommitResult(After(s, acts).runs[i].job.result.value)) in acts
    decreases |acts|
  {
    if acts != [] {
      var next := Step(s, acts[0]);
      StepKeepsInv(s, acts[0]);
      if i < |next.runs| {
        StepToResult(s, acts[0], i);
      }
      if i < |next.runs| && next.runs[i].job.result.Some? {
        RunsAreSticky(next, acts[1..], i);
      } else {
        ResultWasCommitted(next, acts[1..], i);
      }
      assert forall a :: a in acts[1..] ==> a in acts;
    }
  }

  /** On its way out of the region with the verdict, or past it with the verdict delivered or too late. */
  predicate Carries(r: Run, v: Verdict) {
    || r.pc == Leaving(Raise(v)) || r.pc == Handling(v)
    || (r.pc.Finished? && r.job.error.Some? && (r.job.error == Some(v) || r.job.error.value.TimedOut?))
  }

  lemma StepCarries(s: System, a: Action, i: nat, v: Verdict)
    requires Inv(s) && Enabled(s, a) && i < |s.runs| && Carries(s.runs[i], v)
    ensures i < |Step(s, a).runs| && Carries(Step(s, a).runs[i], v)
  {
    if a.Worker? && a.i == i {
      assert Step(s, a).runs[i] == DoWork(s, s.runs[i], a.w).0;
    }
  }

  /** A verdict that was thrown becomes the job's error unchanged, unless a time-out came before it. */
  lemma {:induction false} ThrownIsCarried(s: System, acts: seq<Action>, i: nat, v: Verdict)
    requires Inv(s) && CanRun(s, acts) && i < |s.runs| && Carries(s.runs[i], v)
    ensures i < |After(s, acts).runs| && Carries(After(s, acts).runs[i], v)
    decreases |acts|
  {
    if acts != [] {
      StepCarries(s, acts[0], i, v);
      StepKeepsInv(s, acts[0]);
      ThrownIsCarried(Step(s, acts[0]), acts[1..], i, v);
    }
  }

  lemma ThrownVerdictIsTheError(s: System, i: nat, v: Verdict, acts: seq<Action>)
    requires Inv(s) && Enabled(s, Worker(i, Throw(v))) && CanRun(Step(s, Worker(i, Throw(v))), acts)
    ensures var s' := After(Step(s, Worker(i, Throw(v))), acts);
            && i < |s'.runs|
            && (s'.runs[i].pc.Finished? ==>
                  s'.runs[i].job.error.Some?
                  && (s'.runs[i].job.error == Some(v) || s'.runs[i].job.error.value.TimedOut?))
            && (Enabled(s', Worker(i, Handle)) && s'.runs[i].job.error.None? ==>
                  Step(s', Worker(i, Handle)).runs[i].job.error == Some(v))
  {
    var s1 := Step(s, Worker(i, Throw(v)));
    StepKeepsInv(s, Worker(i, Throw(v)));
    assert Carries(s1.runs[i], v);
    ThrownIsCarried(s1, acts, i, v);
  }

  /** The one verdict that nobody throws. */
  const NEVER_RELEASED := Failed("the previous forecast never released the model")

  /** Where the verdicts that are not time-outs come from. */
  predicate WasThrown(acts: seq<Action>, i: nat, v: Verdict) {
    Worker(i, Throw(v)) in acts || (v == NEVER_RELEASED && Worker(i, GiveUp) in acts)
  }

  /** The verdict a worker carries or has delivered, time-outs aside. */
  function VerdictOf(r: Run): Option<Verdict> {
    if r.pc.Leaving? && r.pc.exit.Raise? then Some(r.pc.exit.v)
    else if r.pc.Handling? then Some(r.pc.v)
    else if r.job.error.Some? && !r.job.error.value.TimedOut? then r.job.error
    else None
  }

  lemma StepToVerdict(s: System, a: Action, i: nat)
    requires Inv(s) && Enabled(s, a) && i < |Step(s, a).runs|
    requires i < |s.runs| ==> VerdictOf(s.runs[i]).None?
    ensures VerdictOf(Step(s, a).runs[i]).Some? ==> WasThrown([a], i, VerdictOf(Step(s, a).runs[i]).value)
  {
    if i < |s.runs| && a.Worker? && a.i == i {
      assert Step(s, a).runs[i] == DoWork(s, s.runs[i], a.w).0;
    }
  }

  /** Its verdict is `v`, or came after a time-out and was dropped. */
  predicate HasOnly(r: Run, v: Verdict) {
    VerdictOf(r) == Some(v) || (r.pc.Finished? && r.job.error.Some? && r.job.error.value.TimedOut?)
  }

  lemma StepKeepsVerdict(s: System, a: Action, i: nat, v: Verdict)
    requires Inv(s) && Enabled(s, a) && i < |s.runs| && HasOnly(s.runs[i], v)
    ensures i < |Step(s, a).runs| && HasOnly(Step(s, a).runs[i], v)
  {
    if a.Worker? && a.i == i {
      assert Step(s, a).runs[i] == DoWork(s, s.runs[i], a.w).0;
    }
  }

  lemma {:induction false} VerdictStays(s: System, acts: seq<Action>, i: nat, v: Verdict)
    requires Inv(s) && CanRun(s, acts) && i < |s.runs| && HasOnly(s.runs[i], v)
    ensures i < |After(s, acts).runs| && HasOnly(After(s, acts).runs[i], v)
    decreases |acts|
  {
    if acts != [] {
      StepKeepsVerdict(s, acts[0], i, v);
      StepKeepsInv(s, acts[0]);
      VerdictStays(Step(s, acts[0]), acts[1..], i, v);
    }
  }

  /** And no error but a time-out is anything else: it was thrown on the way, or its worker gave up. */
  lemma {:induction false} ErrorWasThrown(s: System, acts: seq<Action>, i: nat)
    requires Inv(s) && CanRun(s, acts) && i < |After(s, acts).runs|
    requires i < |s.runs| ==> VerdictOf(s.runs[i]).None?
    ensures var error := After(s, acts).runs[i].job.error;
            error.Some? && !error.value.TimedOut? ==> WasThrown(acts, i, error.value)
    decreases |acts|
  {
    RunsKeepInv(s, acts);
    if acts != [] {
      var next := Step(s, acts[0]);
      StepKeepsInv(s, acts[0]);
      assert forall a :: a in [acts[0]] || a in acts[1..] ==> a in acts;
      if i < |next.runs| {
        StepToVerdict(s, acts[0], i);
      }
      if i < |next.runs| && VerdictOf(next.runs[i]).Some? {
        VerdictStays(next, acts[1..], i, VerdictOf(next.runs[i]).value);
      } else {
        ErrorWasThrown(next, acts[1..], i);
      }
    }
  }

  // ------------------------------------------------------------------ what the watchdog can end

  lemma OneStep(s: System, a: Action)
    requires Enabled(s, a)
    ensures CanRun(s, [a]) && After(s, [a]) == Step(s, a)
  {
    assert [a][1..] == [] && CanRun(Step(s, a), []);
  }

  predicate HasOpenEntry(j: JobState) {
    j.stages != [] && j.stages[|j.stages| - 1].state == RUN
  }

  /** The worker of job `i` takes no step: it hangs. */
  predicate IsHung(acts: seq<Action>, i: nat) {
    forall k :: 0 <= k < |acts| ==> !(acts[k].Worker? && acts[k].i == i)
  }

  /** A verdict in hand is never lost: whatever the other threads and the worker itself do meanwhile, it
      is still in hand, and delivering it ends the job in an error, or it has been delivered. */
  lemma {:induction false} VerdictsAreDelivered(s: System, acts: seq<Action>, i: nat)
    requires Inv(s) && CanRun(s, acts) && i < |s.runs|
    requires s.runs[i].dog.Firing? || (s.runs[i].dog.Exited? && s.runs[i].job.error.Some?)
    ensures var s' := After(s, acts);
            && i < |s'.runs|
            && (s'.runs[i].dog.Firing? || (s'.runs[i].dog.Exited? && s'.runs[i].job.error.Some?))
            && (s'.runs[i].dog.Firing? ==>
                  && s'.runs[i].dog == s.runs[i].dog
                  && Enabled(s', Watchdog(i))
                  && Step(s', Watchdog(i)).runs[i].job.error.Some?)
    decreases |acts|
  {
    if acts == [] {
      if s.runs[i].dog.Firing? {
        DogStepsAlone(s, Watchdog(i), i);
      }
    } else {
      StepKeepsInv(s, acts[0]);
      StepIsSticky(s, acts[0], i);
      DogStepsAlone(s, acts[0], i);
      hide Inv;
      VerdictsAreDelivered(Step(s, acts[0]), acts[1..], i);
    }
  }

  /** Only the watchdog's own step moves it. */
  lemma DogStepsAlone(s: System, a: Action, i: nat)
    requires Enabled(s, a) && i < |s.runs|
    ensures i < |Step(s, a).runs|
    ensures a != Watchdog(i) ==> Step(s, a).runs[i].dog == s.runs[i].dog
    ensures a == Watchdog(i) ==> Step(s, a).runs[i] == DoWatch(s, s.runs[i])
    ensures a != Watchdog(i) && !(a.Worker? && a.i == i) ==> Step(s, a).runs[i] == s.runs[i]
  {
    if a.Worker? && a.i == i {
      assert Step(s, a).runs[i] == DoWork(s, s.runs[i], a.w).0;
    }
  }

  /** A stage that has been open for the budget or longer ends its job: two turns of the watchdog, with
      the stage and its age in the verdict. */
  lemma OverdueStageIsFailed(s: System, i: nat)
    requires i < |s.runs| && s.runs[i].dog.Sleeping? && !s.runs[i].job.done && HasOpenEntry(s.runs[i].job)
    requires var last := s.runs[i].job.stages[|s.runs[i].job.stages| - 1];
             s.now - s.runs[i].started - last.t >= s.budget
    requires s.runs[i].job.error.None?
    ensures var last := s.runs[i].job.stages[|s.runs[i].job.stages| - 1];
            && CanRun(s, [Watchdog(i), Watchdog(i)])
            && i < |After(s, [Watchdog(i), Watchdog(i)]).runs|
            && After(s, [Watchdog(i), Watchdog(i)]).runs[i].job.error
               == Some(TimedOut(last.stage, s.now - s.runs[i].started - last.t))
  {
    OneStep(Step(s, Watchdog(i)), Watchdog(i));
    assert [Watchdog(i), Watchdog(i)][1..] == [Watchdog(i)];
  }

  /** A job whose worker hangs with no entry open stays exactly as it is, however long. */
  lemma {:induction false} NothingOpenNothingHappens(s: System, acts: seq<Action>, i: nat)
    requires CanRun(s, acts) && IsHung(acts, i) && i < |s.runs|
    requires s.runs[i].dog.Sleeping? && !s.runs[i].job.done && !HasOpenEntry(s.runs[i].job)
    ensures i < |After(s, acts).runs| && After(s, acts).runs[i] == s.runs[i]
    decreases |acts|
  {
    if acts != [] {
      assert !(acts[0].Worker? && acts[0].i == i);
      DogStepsAlone(s, acts[0], i);
      assert forall k :: 0 <= k < |acts[1..]| ==> acts[1..][k] == acts[k + 1];
      NothingOpenNothingHappens(Step(s, acts[0]), acts[1..], i);
    }
  }

  ghost predicate CanFailHung(s: System, i: nat) {
    exists acts :: CanRun(s, acts) && IsHung(acts, i) && i < |After(s, acts).runs|
                   && After(s, acts).runs[i].job.error.Some?
  }

  /** Exactly when the watchdog ends a job whose worker hangs: when the last entry is open.  A worker that
      hangs before its first entry or between two stages is never failed. */
  lemma HungJobIsFailedExactly(s: System, i: nat)
    requires Inv(s) && i < |s.runs| && s.runs[i].dog.Sleeping? && !s.runs[i].job.done
    ensures CanFailHung(s, i) <==> HasOpenEntry(s.runs[i].job)
  {
    var job := s.runs[i].job;
    if HasOpenEntry(job) {
      var due := s.budget + s.runs[i].started + job.stages[|job.stages| - 1].t - s.now;
      var d: nat := if due > 0 then due else 0;
      var twice, acts := [Watchdog(i), Watchdog(i)], [Tick(d), Watchdog(i), Watchdog(i)];
      OverdueStageIsFailed(Step(s, Tick(d)), i);
      assert acts[1..] == twice;
      assert CanRun(s, acts) && IsHung(acts, i) && After(s, acts) == After(Step(s, Tick(d)), twice);
    } else {
      forall acts | CanRun(s, acts) && IsHung(acts, i)
        ensures i < |After(s, acts).runs| && After(s, acts).runs[i].job.error.None?
      {
        NothingOpenNothingHappens(s, acts, i);
      }
    }
  }

  /** The watchdog of a finished job leaves at its next turn and touches nothing. */
  lemma WatchdogsLeave(s: System, i: nat)
    requires Inv(s) && i < |s.runs| && s.runs[i].job.done && s.runs[i].dog.Sleeping?
    ensures Enabled(s, Watchdog(i)) && Step(s, Watchdog(i)).runs[i] == s.runs[i].(dog := Exited)
  {
  }

  // ------------------------------------------------------------------ what the trace shows

  /** While a worker takes no step only its watchdog can touch its job, and that ends it. */
  lemma {:induction false} HungUnlessEnded(s: System, acts: seq<Action>, i: nat)
    requires Inv(s) && CanRun(s, acts) && IsHung(acts, i) && i < |s.runs|
    ensures i < |After(s, acts).runs|
    ensures After(s, acts).runs[i].job.done || After(s, acts).runs[i] == s.runs[i].(dog := After(s, acts).runs[i].dog)
    decreases |acts|
  {
    if acts != [] {
      assert !(acts[0].Worker? && acts[0].i == i);
      DogStepsAlone(s, acts[0], i);
      StepKeepsInv(s, acts[0]);
      assert forall k :: 0 <= k < |acts[1..]| ==> acts[1..][k] == acts[k + 1];
      HungUnlessEnded(Step(s, acts[0]), acts[1..], i);
      if Step(s, acts[0]).runs[i].job.done {
        RunsAreSticky(Step(s, acts[0]), acts[1..], i);
      }
    }
  }

  /** What the forecast reports reaches the trace as it was stamped, however long the lock is busy in
      between: last in the trace, with the time of the report, unless the job has ended meanwhile. */
  lemma ReportReachesTheTrace(s: System, i: nat, stage: string, detail: string, state: string, others: seq<Action>)
    requires Inv(s) && Enabled(s, Worker(i, Progress(stage, detail, state)))
    requires CanRun(Step(s, Worker(i, Progress(stage, detail, state))), others) && IsHung(others, i)
    ensures var s' := After(Step(s, Worker(i, Progress(stage, detail, state))), others);
            && i < |s'.runs| && (s'.runs[i].job.done || Enabled(s', Worker(i, EmitPending)))
            && (!s'.runs[i].job.done ==>
                  var stages := Step(s', Worker(i, EmitPending)).runs[i].job.stages;
                  stages != [] && stages[|stages| - 1] == Entry(stage, detail, state, s.now - s.runs[i].started))
  {
    var s1 := Step(s, Worker(i, Progress(stage, detail, state)));
    StepKeepsInv(s, Worker(i, Progress(stage, detail, state)));
    HungUnlessEnded(s1, others, i);
    var s' := After(s1, others);
    if !s'.runs[i].job.done {
      EmitRespectsDone(s'.runs[i].job, s'.runs[i].pending.value);
    }
  }

  /** A wait for the model is one entry of the trace: opened when the worker starts to queue, and
      completed in place when it gets the model.  It may give up once ten minutes have passed since. */
  lemma QueueIsOneEntry(s: System, i: nat, others: seq<Action>)
    requires Inv(s) && Enabled(s, Worker(i, TryAcquire)) && s.lockHeld
    requires !s.runs[i].job.done && !HasOpenEntry(s.runs[i].job)
    ensures var s1 := Step(s, Worker(i, TryAcquire));
            && Enabled(s1, Worker(i, EmitPending))
            && var s2 := Step(s1, Worker(i, EmitPending));
               && s2.runs[i].job.stages == s.runs[i].job.stages
                    + [Entry("QUEUED", "another forecast holds the model", RUN, s.now - s.runs[i].started)]
               && (CanRun(s2, others) && IsHung(others, i) ==>
                     var s3 := After(s2, others);
                     i < |s3.runs|
                     && (!s3.runs[i].job.done && !s3.lockHeld ==> CompletesTheQueue(s, s3, i))
                     && (!s3.runs[i].job.done ==> (Enabled(s3, Worker(i, GiveUp)) <==> s3.now - s.now >= 60000)))
  {
    hide Inv, FailedWith, Committed, SnapshotOf, After;
    var s1 := Step(s, Worker(i, TryAcquire));
    var s2 := Step(s1, Worker(i, EmitPending));
    StepKeepsInv(s, Worker(i, TryAcquire));
    StepKeepsInv(s1, Worker(i, EmitPending));
    if CanRun(s2, others) && IsHung(others, i) {
      HungUnlessEnded(s2, others, i);
    }
  }

  predicate CompletesTheQueue(s: System, s3: System, i: nat)
    requires i < |s.runs| && i < |s3.runs|
  {
    && Enabled(s3, Worker(i, AcquireQueued))
    && var s4 := Step(s3, Worker(i, AcquireQueued));
       && Enabled(s4, Worker(i, EmitPending))
       && Step(s4, Worker(i, EmitPending)).runs[i].job.stages == s.runs[i].job.stages
            + [Entry("QUEUED", "the model is free", "ok", s3.now - s3.runs[i].started)]
  }

  // ------------------------------------------------------------------ both outcomes

  predicate Both(j: JobState) {
    j.result.Some? && j.error.Some?
  }

  /** The watchdog about to deliver, after the worker has committed a success. */
  predicate LateVerdict(s: System, a: Action, i: nat) {
    && i < |s.runs| && a == Watchdog(i) && s.runs[i].dog.Firing?
    && s.runs[i].job.result.Some? && s.runs[i].job.error.None?
  }

  lemma StepToBoth(s: System, a: Action, i: nat)
    requires Inv(s) && Enabled(s, a) && i < |Step(s, a).runs|
    requires i < |s.runs| ==> !Both(s.runs[i].job)
    ensures Both(Step(s, a).runs[i].job) <==> LateVerdict(s, a, i)
  {
    if i < |s.runs| && a.Worker? && a.i == i {
      assert Step(s, a).runs[i] == DoWork(s, s.runs[i], a.w).0;
    }
  }

  /** Whether the watchdog delivers a late verdict on job `i` somewhere along the run. */
  predicate EverLate(s: System, acts: seq<Action>, i: nat)
    requires CanRun(s, acts)
    decreases |acts|
  {
    acts != [] && (LateVerdict(s, acts[0], i) || EverLate(Step(s, acts[0]), acts[1..], i))
  }

  /** Success and failure are NOT exclusive.  A job ends with both exactly when, somewhere in the
      run, the watchdog delivered a verdict after the worker had committed a success. */
  lemma {:induction false} BothExactlyByLateVerdict(s: System, acts: seq<Action>, i: nat)
    requires Inv(s) && CanRun(s, acts) && i < |After(s, acts).runs|
    requires i < |s.runs| ==> !Both(s.runs[i].job)
    ensures Both(After(s, acts).runs[i].job) <==> EverLate(s, acts, i)
    decreases |acts|
  {
    if acts != [] {
      var next := Step(s, acts[0]);
      StepKeepsInv(s, acts[0]);
      if i < |next.runs| {
        StepToBoth(s, acts[0], i);
      }
      if i < |next.runs| && Both(next.runs[i].job) {
        RunsAreSticky(next, acts[1..], i);
      } else {
        BothExactlyByLateVerdict(next, acts[1..], i);
      }
    }
  }

  /** A success with no failure and no verdict on its way. */
  predicate IsSettled(r: Run) {
    r.job.result.Some? && r.job.error.None? && !r.dog.Firing?
  }

  lemma StepKeepsSettled(s: System, a: Action, i: nat)
    requires Inv(s) && Enabled(s, a) && i < |s.runs| && IsSettled(s.runs[i])
    ensures i < |Step(s, a).runs| && IsSettled(Step(s, a).runs[i])
  {
    if a.Worker? && a.i == i {
      assert Step(s, a).runs[i] == DoWork(s, s.runs[i], a.w).0;
    }
  }

  lemma {:induction false} SettledStays(s: System, acts: seq<Action>, i: nat)
    requires Inv(s) && CanRun(s, acts) && i < |s.runs| && IsSettled(s.runs[i])
    ensures i < |After(s, acts).runs| && IsSettled(After(s, acts).runs[i])
    decreases |acts|
  {
    if acts != [] {
      StepKeepsSettled(s, acts[0], i);
      StepKeepsInv(s, acts[0]);
      SettledStays(Step(s, acts[0]), acts[1..], i);
    }
  }

  ghost predicate CanEndWithBoth(s: System, i: nat) {
    exists acts :: CanRun(s, acts) && i < |After(s, acts).runs| && Both(After(s, acts).runs[i].job)
  }

  /** The moment of the commit decides it: a success can still gain an error exactly when the watchdog
      has its verdict in hand as the success is written, its snapshot being older than the commit. */
  lemma BothNeedsAVerdictInHand(s: System, i: nat, r: string)
    requires Inv(s) && Enabled(s, Worker(i, CommitResult(r))) && s.runs[i].job.error.None?
    ensures CanEndWithBoth(Step(s, Worker(i, CommitResult(r))), i) <==> s.runs[i].dog.Firing?
  {
    var s1 := Step(s, Worker(i, CommitResult(r)));
    StepKeepsInv(s, Worker(i, CommitResult(r)));
    if s.runs[i].dog.Firing? {
      OneStep(s1, Watchdog(i));
      assert Both(After(s1, [Watchdog(i)]).runs[i].job);
    } else {
      forall acts | CanRun(s1, acts)
        ensures i < |After(s1, acts).runs| && !Both(After(s1, acts).runs[i].job)
      {
        SettledStays(s1, acts, i);
      }
    }
  }

  lemma {:induction false} OneMore(s: System, acts: seq<Action>, a: Action)
    requires CanRun(s, acts) && Enabled(After(s, acts), a)
    ensures CanRun(s, acts + [a]) && After(s, acts + [a]) == Step(After(s, acts), a)
    decreases |acts|
  {
    if acts == [] {
      assert ([a])[1..] == [];
      assert acts + [a] == [a];
      assert CanRun(Step(s, a), []);
    } else {
      assert (acts + [a])[1..] == acts[1..] + [a];
      OneMore(Step(s, acts[0]), acts[1..], a);
    }
  }

  ghost predicate Reaches(s: System, t: System) {
    exists acts :: CanRun(s, acts) && After(s, acts) == t
  }

  lemma Reach(s: System, t: System, a: Action, u: System)
    requires Reaches(s, t) && Enabled(t, a) && u == Step(t, a)
    ensures Reaches(s, u)
  {
    var acts :| CanRun(s, acts) && After(s, acts) == t;
    OneMore(s, acts, a);
  }

  /** The server with one job. */
  function Solo(now: int, held: bool, r: Run): System {
    System(now, 100, held, [r])
  }

  lemma SoloWork(now: int, held: bool, r: Run, w: Work, r': Run, held': bool)
    requires Reaches(Boot(0, 100), Solo(now, held, r))
    requires CanWork(Solo(now, held, r), r, w) && DoWork(Solo(now, held, r), r, w) == (r', held')
    ensures Reaches(Boot(0, 100), Solo(now, held', r'))
  {
    Reach(Boot(0, 100), Solo(now, held, r), Worker(0, w), Solo(now, held', r'));
  }

  const IDENTIFIED := Entry("VERIFYING MODEL IDENTITY", "ok", "ok", 0)
  const OPEN_RENDERING := Entry("RENDERING", "", RUN, 0)

  /** A healthy run up to its last stage. */
  lemma RenderingIsReachable(r: Run)
    requires r == Run(0, JobState([IDENTIFIED, OPEN_RENDERING], false, None, None), Rendering, None, Sleeping, 1, 0)
    ensures Reaches(Boot(0, 100), Solo(0, true, r))
  {
    assert CanRun(Boot(0, 100), []);
    var r1 := Run(0, FRESH_JOB, Start, None, Sleeping, 0, 0);
    Reach(Boot(0, 100), Boot(0, 100), Post, Solo(0, false, r1));
    var r2 := r1.(pc := Entered, acquired := 1);
    SoloWork(0, false, r1, TryAcquire, r2, true);
    var verifying := Entry("VERIFYING MODEL IDENTITY", "", RUN, 0);
    var r3 := r2.(pc := Verifying, pending := Some(verifying));
    SoloWork(0, true, r2, BeginIdentity, r3, true);
    var r4 := r3.(job := Emitted(FRESH_JOB, verifying), pending := None);
    SoloWork(0, true, r3, EmitPending, r4, true);
    var r5 := r4.(pc := Forecasting, pending := Some(IDENTIFIED));
    SoloWork(0, true, r4, IdentityHolds("ok"), r5, true);
    var r6 := r5.(job := FRESH_JOB.(stages := [IDENTIFIED]), pending := None);
    assert Emitted(r5.job, IDENTIFIED).stages == [IDENTIFIED];
    SoloWork(0, true, r5, EmitPending, r6, true);
    var r7 := r6.(pc := Rendering, pending := Some(OPEN_RENDERING));
    SoloWork(0, true, r6, ForecastDone, r7, true);
    assert Emitted(r7.job, OPEN_RENDERING).stages == r.job.stages;
    SoloWork(0, true, r7, EmitPending, r, true);
  }

  /** A slow but healthy run that ends with both: the last stage outlives the budget, the watchdog
      takes its snapshot, the worker closes the stage and commits, and the verdict lands after. */
  lemma BothIsReachable() returns (s: System)
    ensures Reaches(Boot(0, 100), s) && |s.runs| == 1 && Both(s.runs[0].job)
    ensures s.runs[0].job.error == Some(TimedOut("RENDERING", 100))
  {
    var b := Boot(0, 100);
    var r := Run(0, JobState([IDENTIFIED, OPEN_RENDERING], false, None, None), Rendering, None, Sleeping, 1, 0);
    RenderingIsReachable(r);
    Reach(b, Solo(0, true, r), Tick(100), Solo(100, true, r));
    var r1 := r.(dog := Firing("RENDERING", 100));
    Reach(b, Solo(100, true, r), Watchdog(0), Solo(100, true, r1));
    var rendered := Entry("RENDERING", "svg", "ok", 100);
    var r2 := r1.(pc := Committing, pending := Some(rendered));
    SoloWork(100, true, r1, Rendered("svg"), r2, true);
    var r3 := r2.(job := Emitted(r.job, rendered), pending := None);
    SoloWork(100, true, r2, EmitPending, r3, true);
    var r4 := r3.(pc := Leaving(Return), job := Committed(r3.job, "forecast"));
    SoloWork(100, true, r3, CommitResult("forecast"), r4, true);
    s := Step(Solo(100, true, r4), Watchdog(0));
    Reach(b, Solo(100, true, r4), Watchdog(0), s);
  }

  // ------------------------------------------------------------------ the run lock

  /** At most one worker is inside the guarded region; the lock is held exactly while one is; each
      worker takes it at most once and has given it back exactly once when it is outside again. */
  lemma OneForecastAtATime(now: int, budget: int, acts: seq<Action>)
    requires CanRun(Boot(now, budget), acts)
    ensures var s := After(Boot(now, budget), acts);
            && (forall i, j :: 0 <= i < |s.runs| && 0 <= j < |s.runs| ==>
                  InRegion(s.runs[i].pc) && InRegion(s.runs[j].pc) ==> i == j)
            && (s.lockHeld <==> exists i :: 0 <= i < |s.runs| && InRegion(s.runs[i].pc))
            && (forall i :: 0 <= i < |s.runs| ==>
                  s.runs[i].acquired <= 1
                  && s.runs[i].released == s.runs[i].acquired - (if InRegion(s.runs[i].pc) then 1 else 0))
  {
    ReachableStates(now, budget, acts);
  }

  /** Success, refusal, identity failure and the early return all leave through `Release`: it is the
      only step that frees the lock, its worker is the holder, and it frees it for the first time. */
  lemma OnlyTheHolderReleases(s: System, a: Action)
    requires Inv(s) && Enabled(s, a)
    ensures s.lockHeld && !Step(s, a).lockHeld <==>
            a.Worker? && a.w.Release? && a.i < |s.runs| && s.runs[a.i].pending.None?
    ensures s.lockHeld && !Step(s, a).lockHeld ==>
              && InRegion(s.runs[a.i].pc)
              && s.runs[a.i].released == 0 && Step(s, a).runs[a.i].released == 1
  {
    if a.Worker? {
      WorkMovesLock(s, s.runs[a.i], a.w);
    }
  }

  ghost predicate PastTheRegion(r: Run) {
    (r.pc.Handling? || r.pc.Finished?) && r.pending.None?
  }

  /** A worker past the region never touches the lock again. */
  lemma {:induction false} PastStaysPast(s: System, acts: seq<Action>, i: nat)
    requires CanRun(s, acts) && i < |s.runs| && PastTheRegion(s.runs[i])
    ensures i < |After(s, acts).runs| && PastTheRegion(After(s, acts).runs[i])
    ensures After(s, acts).runs[i].acquired == s.runs[i].acquired
    ensures After(s, acts).runs[i].released == s.runs[i].released
    decreases |acts|
  {
    if acts != [] {
      PastStaysPast(Step(s, acts[0]), acts[1..], i);
    }
  }

  /** A worker that timed out in the queue neither holds nor frees the lock, then or ever after. */
  lemma GivingUpNeverReleases(s: System, i: nat, acts: seq<Action>)
    requires Inv(s) && Enabled(s, Worker(i, GiveUp)) && CanRun(Step(s, Worker(i, GiveUp)), acts)
    ensures Step(s, Worker(i, GiveUp)).lockHeld == s.lockHeld
    ensures var s' := After(Step(s, Worker(i, GiveUp)), acts);
            i < |s'.runs| && s'.runs[i].acquired == 0 && s'.runs[i].released == 0
  {
    PastStaysPast(Step(s, Worker(i, GiveUp)), acts, i);
  }

  /** A worker can be held up only in the queue, and there only while the lock is held and its own
      patience has not run out: no other state of a live worker lacks an enabled step. */
  lemma WorkersAreNeverStuck(s: System, i: nat)
    requires i < |s.runs| && !s.runs[i].pc.Finished?
    ensures (exists w :: Enabled(s, Worker(i, w))) <==>
            !(s.runs[i].pc.Waiting? && s.runs[i].pending.None? && s.lockHeld
                && s.now - s.runs[i].pc.from < 60000)
  {
    var r := s.runs[i];
    if r.pending.Some? {
      assert Enabled(s, Worker(i, EmitPending));
    } else {
      match r.pc
      case Start => assert Enabled(s, Worker(i, TryAcquire));
      case Waiting(from) =>
        if !s.lockHeld {
          assert Enabled(s, Worker(i, AcquireQueued));
        } else if s.now - from >= 60000 {
          assert Enabled(s, Worker(i, GiveUp));
        }
      case Entered => assert Enabled(s, Worker(i, BeginIdentity));
      case Verifying => assert Enabled(s, Worker(i, IdentityHolds("")));
      case Forecasting => assert Enabled(s, Worker(i, ForecastDone));
      case Rendering => assert Enabled(s, Worker(i, Rendered("")));
      case Committing => assert Enabled(s, Worker(i, CommitResult("")));
      case Leaving(_) => assert Enabled(s, Worker(i, Release));
      case Handling(_) => assert Enabled(s, Worker(i, Handle));
    }
  }

  /** An orphaned holder cannot silence the queue: whatever the other threads do meanwhile, a
      waiting worker whose patience has run out ends its job in two steps of its own. */
  lemma QueuedJobsAlwaysEnd(s: System, i: nat, others: seq<Action>)
    requires Inv(s) && Enabled(s, Worker(i, GiveUp))
    requires CanRun(Step(s, Worker(i, GiveUp)), others)
    ensures var s' := After(Step(s, Worker(i, GiveUp)), others);
            && i < |s'.runs| && PastTheRegion(s'.runs[i])
            && (s'.runs[i].pc.Handling? ==>
                  && Enabled(s', Worker(i, Handle))
                  && Step(s', Worker(i, Handle)).runs[i].job.error.Some?)
            && (s'.runs[i].pc.Finished? ==> s'.runs[i].job.done)
  {
    var s1 := Step(s, Worker(i, GiveUp));
    StepKeepsInv(s, Worker(i, GiveUp));
    PastStaysPast(s1, others, i);
    RunsKeepInv(s1, others);
  }
}
