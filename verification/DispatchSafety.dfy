/**
 Safety of the dispatch step system over all its runs: no job is lost or run twice at a time, the retry
 discipline, frozen results, and a bound on the number of completions.
 */
module DispatchSafety {
  import opened Wrappers
  import opened Sequences
  import opened Jobs
  import opened Dispatch

  // ----- lemmas about the tables

  lemma SameJob(plan: seq<JobPlan>, a: JobPlan, b: JobPlan)
    requires Distinct(JobIds(plan)) && a in plan && b in plan && a.jobId == b.jobId
    ensures a == b
  {}

  lemma RecordKeepsTables(plan: seq<JobPlan>, s: State, r: JobResult, job: JobPlan)
    requires TableInv(plan, s)
    requires job in plan && r.jobId == job.jobId && r.itemIds == ItemIds(job.items)
    requires r.jobId in s.latest && s.latest[r.jobId].timedOut ==> r.timedOut
    ensures TableInv(plan, Record(s, r))
  {}

  /** Marking leaves queues and attempt counters alone. */
  lemma {:induction false} MarkEachFrame(s: State, jobs: seq<JobPlan>, scope: Scope)
    ensures var s' := MarkEach(s, jobs, scope);
      s'.pending == s.pending && s'.futures == s.futures && s'.attempts == s.attempts
    decreases |jobs|
  {
    if jobs != [] {
      MarkEachFrame(Marked(s, jobs[0], scope), jobs[1..], scope);
    }
  }

  lemma {:induction false} MarkEachKeepsTables(plan: seq<JobPlan>, s: State, jobs: seq<JobPlan>, scope: Scope)
    requires TableInv(plan, s) && forall j :: j in jobs ==> j in plan
    ensures TableInv(plan, MarkEach(s, jobs, scope))
    decreases |jobs|
  {
    if jobs != [] {
      var job := jobs[0];
      var mark := NotStarted(job, AttemptOf(s, job.jobId), scope);
      if job.jobId !in s.latest {
        RecordKeepsTables(plan, s, mark, job);
      }
      MarkEachKeepsTables(plan, Marked(s, job, scope), jobs[1..], scope);
    }
  }

  /** Marking gives a mark to exactly the listed jobs that have no result yet. */
  lemma {:induction false} MarkEachLatest(s: State, jobs: seq<JobPlan>, scope: Scope, id: string)
    ensures var s' := MarkEach(s, jobs, scope);
      && (id in s.latest ==> id in s'.latest && s'.latest[id] == s.latest[id])
      && (id in s'.latest && id !in s.latest ==>
            exists j :: j in jobs && j.jobId == id && s'.latest[id] == NotStarted(j, AttemptOf(s, id), scope))
      && (id !in s'.latest ==> forall j :: j in jobs ==> j.jobId != id)
    decreases |jobs|
  {
    if jobs != [] {
      var job := jobs[0];
      MarkEachLatest(Marked(s, job, scope), jobs[1..], scope, id);
      assert forall j :: j in jobs ==> j == job || j in jobs[1..];
    }
  }

  // ----- every step keeps the invariant

  lemma EnvironmentKeepsInv(cfg: Config, deadline: Deadline, plan: seq<JobPlan>, x: System, now: real, abort: bool)
    requires Inv(cfg, deadline, plan, x) && x.now <= now && (x.abort ==> abort)
    ensures Inv(cfg, deadline, plan, x.(now := now, abort := abort))
  {}

  lemma MarkAllView(cfg: Config, plan: seq<JobPlan>, x: System, stop: Stop, scope: Scope, job: JobPlan)
    requires Distinct(JobIds(plan)) && QueueInv(cfg, plan, x.s) && stop.Explains(scope) && job in plan
    requires JobOk(cfg, stop, job, ViewOf(x, job))
    ensures JobOk(cfg, stop, job, ViewOf(x.(s := MarkPending(x.s, [], scope)), job))
  {
    var s := x.s.(pending := []);
    var jobs := [] + x.s.pending;
    assert jobs == x.s.pending;
    MarkEachFrame(s, jobs, scope);
    MarkEachLatest(s, jobs, scope, job.jobId);
    var s' := MarkEach(s, jobs, scope);
    if job.jobId in s'.latest && job.jobId !in s.latest {
      var j :| j in jobs && j.jobId == job.jobId
               && s'.latest[job.jobId] == NotStarted(j, AttemptOf(s, job.jobId), scope);
      SameJob(plan, j, job);
    }
  }

  lemma MarkAllKeepsInv(cfg: Config, deadline: Deadline, plan: seq<JobPlan>, x: System, scope: Scope)
    requires Inv(cfg, deadline, plan, x) && Stopped(deadline, x).Explains(scope)
    ensures Inv(cfg, deadline, plan, x.(s := MarkPending(x.s, [], scope)))
  {
    var y := x.(s := MarkPending(x.s, [], scope));
    assert [] + x.s.pending == x.s.pending;
    MarkEachFrame(x.s.(pending := []), x.s.pending, scope);
    MarkEachKeepsTables(plan, x.s.(pending := []), x.s.pending, scope);
    forall job | job in plan
      ensures JobOk(cfg, Stopped(deadline, y), job, ViewOf(y, job))
    {
      MarkAllView(cfg, plan, x, Stopped(deadline, x), scope, job);
    }
  }

  lemma SubmitFreshKeepsInv(cfg: Config, deadline: Deadline, plan: seq<JobPlan>, x: System)
    requires Inv(cfg, deadline, plan, x)
    requires x.s.pending != [] && |x.s.futures| < cfg.maxWorkers
    ensures Inv(cfg, deadline, plan,
                x.(s := x.s.(pending := x.s.pending[1..], futures := x.s.futures + [x.s.pending[0]])))
  {
    var first := x.s.pending[0];
    var y := x.(s := x.s.(pending := x.s.pending[1..], futures := x.s.futures + [first]));
    assert JobOk(cfg, Stopped(deadline, x), first, ViewOf(x, first));
    assert x.s.pending == [first] + x.s.pending[1..];
    assert first !in x.s.pending[1..];
    forall job | job in plan
      ensures JobOk(cfg, Stopped(deadline, y), job, ViewOf(y, job))
    {
      assert JobOk(cfg, Stopped(deadline, x), job, ViewOf(x, job));
      assert job != first ==> ViewOf(y, job) == ViewOf(x, job);
    }
  }

  lemma SubmitPendingKeepsInv(cfg: Config, deadline: Deadline, plan: seq<JobPlan>, x: System)
    requires Inv(cfg, deadline, plan, x)
    requires x.s.pending != [] && |x.s.futures| < cfg.maxWorkers
    ensures Inv(cfg, deadline, plan, x.(s := SubmitNext(x.s, deadline, x.now, x.abort)))
  {
    assert [x.s.pending[0]] + x.s.pending[1..] == [] + x.s.pending;
    if x.abort {
      MarkAllKeepsInv(cfg, deadline, plan, x, WatchScope);
    } else if Expired(deadline, x.now) {
      MarkAllKeepsInv(cfg, deadline, plan, x, StageScope);
    } else {
      SubmitFreshKeepsInv(cfg, deadline, plan, x);
    }
  }

  /** The state right after recording the result of future i, before anything is decided about a retry. */
  function Recorded(x: System, i: nat, r: JobResult, bump: bool): (y: System)
    requires i < |x.s.futures|
  {
    var s := Record(x.s.(futures := x.s.futures[..i] + x.s.futures[i + 1..]), r);
    x.(s := if bump then s.(attempts := s.attempts[r.jobId := r.attempt + 1]) else s, history := x.history + [r])
  }

  /** The result of the job at future i carries its id, its items and its attempt number. */
  predicate ResultOf(s: State, i: nat, r: JobResult)
    requires i < |s.futures|
  {
    var job := s.futures[i];
    r.jobId == job.jobId && r.itemIds == ItemIds(job.items) && r.attempt == AttemptOf(s, job.jobId)
  }

  ghost predicate Open(cfg: Config, v: JobView) {
    && !v.waits && !v.flies && v.tries != [] && Disciplined(cfg, v.tries)
    && v.latest == Some(v.tries[|v.tries| - 1])
  }

  /** The invariant for every job but one, whose result has just been recorded. */
  ghost predicate OpenInv(cfg: Config, deadline: Deadline, plan: seq<JobPlan>, x: System, job: JobPlan) {
    && Distinct(JobIds(plan)) && TableInv(plan, x.s) && QueueInv(cfg, plan, x.s)
    && (forall other :: other in plan && other != job ==> JobOk(cfg, Stopped(deadline, x), other, ViewOf(x, other)))
    && job in plan
    && Open(cfg, ViewOf(x, job))
  }

  lemma RemovedDistinct<T>(s: seq<T>, i: nat)
    requires Distinct(s) && i < |s|
    ensures var t := s[..i] + s[i + 1..];
      Distinct(t) && s[i] !in t && forall x :: x != s[i] ==> (x in t <==> x in s)
  {}

  lemma RecordOpensOther(cfg: Config, plan: seq<JobPlan>, x: System, i: nat, r: JobResult, bump: bool, other: JobPlan)
    requires Distinct(JobIds(plan)) && QueueInv(cfg, plan, x.s) && i < |x.s.futures| && ResultOf(x.s, i, r)
    requires other in plan && other != x.s.futures[i]
    ensures ViewOf(Recorded(x, i, r, bump), other) == ViewOf(x, other)
  {
    if other.jobId == r.jobId {
      SameJob(plan, other, x.s.futures[i]);
    }
    RemovedDistinct(x.s.futures, i);
  }

  lemma RecordOpensSelf(cfg: Config, plan: seq<JobPlan>, x: System, i: nat, r: JobResult, bump: bool)
    requires QueueInv(cfg, plan, x.s) && i < |x.s.futures| && ResultOf(x.s, i, r)
    requires JobOk(cfg, Stop(false, false), x.s.futures[i], ViewOf(x, x.s.futures[i]))
    ensures Open(cfg, ViewOf(Recorded(x, i, r, bump), x.s.futures[i]))
  {}

  lemma RecordOpensTables(cfg: Config, plan: seq<JobPlan>, x: System, i: nat, r: JobResult, bump: bool)
    requires TableInv(plan, x.s) && QueueInv(cfg, plan, x.s) && i < |x.s.futures| && ResultOf(x.s, i, r)
    requires JobOk(cfg, Stop(false, false), x.s.futures[i], ViewOf(x, x.s.futures[i]))
    ensures TableInv(plan, Recorded(x, i, r, bump).s) && QueueInv(cfg, plan, Recorded(x, i, r, bump).s)
  {
    var job := x.s.futures[i];
    assert job in plan;
    RecordKeepsTables(plan, x.s, r, job);
    RemovedDistinct(x.s.futures, i);
  }

  lemma FlightOk(cfg: Config, deadline: Deadline, plan: seq<JobPlan>, x: System, i: nat)
    requires Inv(cfg, deadline, plan, x) && i < |x.s.futures|
    ensures x.s.futures[i] in plan && JobOk(cfg, Stop(false, false), x.s.futures[i], ViewOf(x, x.s.futures[i]))
  {
    var job := x.s.futures[i];
    assert job in plan && JobOk(cfg, Stopped(deadline, x), job, ViewOf(x, job));
  }

  lemma OthersStayOk(cfg: Config, deadline: Deadline, plan: seq<JobPlan>, x: System, i: nat, r: JobResult, bump: bool)
    requires Distinct(JobIds(plan)) && QueueInv(cfg, plan, x.s) && JobsOk(cfg, deadline, plan, x)
    requires i < |x.s.futures| && ResultOf(x.s, i, r)
    ensures forall other :: other in plan && other != x.s.futures[i] ==>
              JobOk(cfg, Stopped(deadline, x), other, ViewOf(Recorded(x, i, r, bump), other))
  {
    forall other | other in plan && other != x.s.futures[i]
      ensures JobOk(cfg, Stopped(deadline, x), other, ViewOf(Recorded(x, i, r, bump), other))
    {
      RecordOpensOther(cfg, plan, x, i, r, bump, other);
    }
  }

  lemma RecordOpens(cfg: Config, deadline: Deadline, plan: seq<JobPlan>, x: System, i: nat, r: JobResult, bump: bool)
    requires Inv(cfg, deadline, plan, x) && i < |x.s.futures| && ResultOf(x.s, i, r)
    ensures OpenInv(cfg, deadline, plan, Recorded(x, i, r, bump), x.s.futures[i])
  {
    FlightOk(cfg, deadline, plan, x, i);
    RecordOpensSelf(cfg, plan, x, i, r, bump);
    RecordOpensTables(cfg, plan, x, i, r, bump);
    OthersStayOk(cfg, deadline, plan, x, i, r, bump);
  }

  /** An open job is settled unless it may be retried and nothing has stopped the stage. */
  lemma CloseSettled(cfg: Config, deadline: Deadline, plan: seq<JobPlan>, x: System, job: JobPlan)
    requires OpenInv(cfg, deadline, plan, x, job)
    requires Retryable(cfg, x.s.latest[job.jobId]) ==> Stopped(deadline, x).Any()
    ensures Inv(cfg, deadline, plan, x)
  {}

  lemma CloseResubmitted(cfg: Config, deadline: Deadline, plan: seq<JobPlan>, x: System, job: JobPlan)
    requires OpenInv(cfg, deadline, plan, x, job) && Retryable(cfg, x.s.latest[job.jobId])
    requires |x.s.futures| < cfg.maxWorkers
    requires AttemptOf(x.s, job.jobId) == x.s.latest[job.jobId].attempt + 1
    ensures Inv(cfg, deadline, plan, x.(s := x.s.(futures := x.s.futures + [job])))
  {
    var y := x.(s := x.s.(futures := x.s.futures + [job]));
    assert Running(cfg, ViewOf(y, job));
    forall other | other in plan && other != job
      ensures JobOk(cfg, Stopped(deadline, y), other, ViewOf(y, other))
    {
      assert ViewOf(y, other) == ViewOf(x, other);
    }
  }

  lemma HandleKeepsInv(cfg: Config, deadline: Deadline, plan: seq<JobPlan>, x: System, i: nat, r: JobResult,
                       now: real, abortLater: bool)
    requires Inv(cfg, deadline, plan, x) && i < |x.s.futures| && ResultOf(x.s, i, r)
    requires x.now <= now && (x.abort ==> abortLater)
    ensures Inv(cfg, deadline, plan,
                x.(s := Handle(x.s, cfg, deadline, i, r, x.abort, now, abortLater),
                   now := now, abort := abortLater, history := x.history + [r]))
  {
    var job := x.s.futures[i];
    var z := x.(now := now, abort := abortLater);
    var bump := !x.abort && Retryable(cfg, r);
    EnvironmentKeepsInv(cfg, deadline, plan, x, now, abortLater);
    RecordOpens(cfg, deadline, plan, z, i, r, bump);
    var y := Recorded(z, i, r, bump);
    if x.abort {
      CloseSettled(cfg, deadline, plan, y, job);
      MarkAllKeepsInv(cfg, deadline, plan, y, WatchScope);
    } else if bump {
      if abortLater || Expired(deadline, now) {
        CloseSettled(cfg, deadline, plan, y, job);
        var scope := if abortLater then WatchScope else StageScope;
        MarkAllKeepsInv(cfg, deadline, plan, y, scope);
        MarkSkipsRecorded(y.s, job, scope);
      } else {
        CloseResubmitted(cfg, deadline, plan, y, job);
      }
    } else {
      CloseSettled(cfg, deadline, plan, y, job);
    }
  }

  lemma MarkSkipsRecorded(s: State, job: JobPlan, scope: Scope)
    requires job.jobId in s.latest
    ensures MarkPending(s, [job], scope) == MarkPending(s, [], scope)
  {
    assert ([job] + s.pending)[1..] == [] + s.pending;
  }

  /** Times are only recorded: the invariant does not depend on them. */
  lemma TimesKeepInv(cfg: Config, deadline: Deadline, plan: seq<JobPlan>, x: System, times: Times)
    requires Inv(cfg, deadline, plan, x)
    ensures Inv(cfg, deadline, plan, x.(times := times))
  {
    var y := x.(times := times);
    forall job | job in plan
      ensures JobOk(cfg, Stopped(deadline, y), job, ViewOf(y, job))
    {
      assert ViewOf(y, job) == ViewOf(x, job);
    }
  }

  lemma StepKeepsInv(cfg: Config, deadline: Deadline, plan: seq<JobPlan>, x: System, a: Action, y: System)
    requires Inv(cfg, deadline, plan, x) && Step(cfg, deadline, x, a, y)
    ensures Inv(cfg, deadline, plan, y)
  {
    match a
    case Tick(later) => EnvironmentKeepsInv(cfg, deadline, plan, x, later, x.abort);
    case RaiseAbort => EnvironmentKeepsInv(cfg, deadline, plan, x, x.now, true);
    case SubmitPending =>
      SubmitPendingKeepsInv(cfg, deadline, plan, x);
      TimesKeepInv(cfg, deadline, plan, x.(s := y.s), y.times);
    case Complete(i, readAt, outcome, abortSeen, abort, now, abortLater) =>
      var job := x.s.futures[i];
      var r := RunOne(cfg, deadline, job, AttemptOf(x.s, job.jobId), readAt, outcome, abortSeen);
      HandleKeepsInv(cfg, deadline, plan, x, i, r, now, abortLater);
      TimesKeepInv(cfg, deadline, plan, y.(times := x.times), y.times);
    case GiveUp => MarkAllKeepsInv(cfg, deadline, plan, x, StageScope);
  }

  lemma RunStep(cfg: Config, deadline: Deadline, plan: seq<JobPlan>, run: seq<System>, k: nat) returns (a: Action)
    requires IsRun(cfg, deadline, plan, run) && 0 < k < |run|
    ensures Step(cfg, deadline, run[k - 1], a, run[k])
  {
    assert Next(cfg, deadline, run[k - 1], run[k]);
    a :| Step(cfg, deadline, run[k - 1], a, run[k]);
  }

  lemma ExtendRun(cfg: Config, deadline: Deadline, plan: seq<JobPlan>, run: seq<System>, a: Action, y: System)
    requires IsRun(cfg, deadline, plan, run) && Step(cfg, deadline, run[|run| - 1], a, y)
    ensures IsRun(cfg, deadline, plan, run + [y])
  {}

  /** A run goes on when the environment moves: the clock forward, the abort flag up. */
  lemma RunEnvironment(cfg: Config, deadline: Deadline, plan: seq<JobPlan>, run: seq<System>, now: real, abort: bool)
    returns (longer: seq<System>)
    requires IsRun(cfg, deadline, plan, run)
    requires var x := run[|run| - 1]; x.now <= now && (x.abort ==> abort)
    ensures IsRun(cfg, deadline, plan, longer)
    ensures longer[|longer| - 1] == run[|run| - 1].(now := now, abort := abort)
  {
    var x := run[|run| - 1];
    ExtendRun(cfg, deadline, plan, run, Tick(now), x.(now := now));
    longer := run + [x.(now := now)];
    if abort {
      ExtendRun(cfg, deadline, plan, longer, RaiseAbort, x.(now := now, abort := true));
      longer := longer + [x.(now := now, abort := true)];
    }
  }

  /** Conservation: in every state of every run each planned job is waiting, in flight or settled. */
  lemma {:induction false} RunKeepsInv(cfg: Config, deadline: Deadline, plan: seq<JobPlan>, run: seq<System>, k: nat)
    requires Distinct(JobIds(plan)) && IsRun(cfg, deadline, plan, run) && k < |run|
    ensures Inv(cfg, deadline, plan, run[k])
  {
    if k > 0 {
      RunKeepsInv(cfg, deadline, plan, run, k - 1);
      var a := RunStep(cfg, deadline, plan, run, k);
      StepKeepsInv(cfg, deadline, plan, run[k - 1], a, run[k]);
    }
  }

  lemma StepInRun(cfg: Config, deadline: Deadline, plan: seq<JobPlan>, run: seq<System>, m: nat) returns (a: Action)
    requires Distinct(JobIds(plan)) && IsRun(cfg, deadline, plan, run) && 0 < m < |run|
    ensures Inv(cfg, deadline, plan, run[m - 1]) && Step(cfg, deadline, run[m - 1], a, run[m])
  {
    RunKeepsInv(cfg, deadline, plan, run, m - 1);
    a := RunStep(cfg, deadline, plan, run, m);
  }

  // ----- settled jobs stay settled

  /** Neither waiting nor in flight. */
  predicate Done(x: System, job: JobPlan) {
    job !in x.s.pending && job !in x.s.futures
  }

  lemma MarkAllFreezes(x: System, scope: Scope, job: JobPlan)
    requires Done(x, job) && job.jobId in x.s.latest
    ensures ViewOf(x.(s := MarkPending(x.s, [], scope)), job) == ViewOf(x, job)
  {
    assert [] + x.s.pending == x.s.pending;
    MarkEachFrame(x.s.(pending := []), x.s.pending, scope);
    MarkEachLatest(x.s.(pending := []), x.s.pending, scope, job.jobId);
  }

  lemma HandleFreezes(cfg: Config, deadline: Deadline, plan: seq<JobPlan>, x: System, i: nat, r: JobResult,
                      now: real, abortLater: bool, job: JobPlan)
    requires Inv(cfg, deadline, plan, x) && i < |x.s.futures| && ResultOf(x.s, i, r)
    requires job in plan && Done(x, job) && job.jobId in x.s.latest
    ensures ViewOf(x.(s := Handle(x.s, cfg, deadline, i, r, x.abort, now, abortLater),
                      now := now, abort := abortLater, history := x.history + [r]), job) == ViewOf(x, job)
  {
    var z := x.(now := now, abort := abortLater);
    var bump := !x.abort && Retryable(cfg, r);
    var y := Recorded(z, i, r, bump);
    RecordOpensOther(cfg, plan, z, i, r, bump, job);
    assert ViewOf(z, job) == ViewOf(x, job) == ViewOf(y, job);
    MarkAllFreezes(y, WatchScope, job);
    MarkAllFreezes(y, StageScope, job);
    MarkSkipsRecorded(y.s, x.s.futures[i], WatchScope);
    MarkSkipsRecorded(y.s, x.s.futures[i], StageScope);
  }

  lemma DoneHasResult(cfg: Config, deadline: Deadline, plan: seq<JobPlan>, x: System, job: JobPlan)
    requires Inv(cfg, deadline, plan, x) && job in plan && Done(x, job)
    ensures job.jobId in x.s.latest
  {
    assert JobOk(cfg, Stopped(deadline, x), job, ViewOf(x, job));
  }

  lemma SubmitFreezes(deadline: Deadline, x: System, job: JobPlan)
    requires x.s.pending != [] && Done(x, job) && job.jobId in x.s.latest
    ensures ViewOf(x.(s := SubmitNext(x.s, deadline, x.now, x.abort)), job) == ViewOf(x, job)
  {
    assert [x.s.pending[0]] + x.s.pending[1..] == [] + x.s.pending;
    MarkAllFreezes(x, WatchScope, job);
    MarkAllFreezes(x, StageScope, job);
  }

  lemma StepFreezes(cfg: Config, deadline: Deadline, plan: seq<JobPlan>, x: System, a: Action, y: System, job: JobPlan)
    requires Inv(cfg, deadline, plan, x) && Step(cfg, deadline, x, a, y)
    requires job in plan && Done(x, job)
    ensures ViewOf(y, job) == ViewOf(x, job)
  {
    DoneHasResult(cfg, deadline, plan, x, job);
    match a
    case Complete(i, readAt, outcome, abortSeen, abort, now, abortLater) =>
      HandleFreezes(cfg, deadline, plan, x, i, y.history[|x.history|], now, abortLater, job);
    case SubmitPending => SubmitFreezes(deadline, x, job);
    case GiveUp => MarkAllFreezes(x, StageScope, job);
    case _ =>
  }

  lemma FrozenDone(x: System, y: System, job: JobPlan)
    requires Done(x, job) && ViewOf(y, job) == ViewOf(x, job)
    ensures Done(y, job)
  {
    assert !ViewOf(y, job).waits && !ViewOf(y, job).flies;
  }

  lemma RunStepFreezes(cfg: Config, deadline: Deadline, plan: seq<JobPlan>, run: seq<System>, m: nat, job: JobPlan)
    requires Distinct(JobIds(plan)) && IsRun(cfg, deadline, plan, run) && 0 < m < |run|
    requires job in plan && Done(run[m - 1], job)
    ensures Done(run[m], job) && ViewOf(run[m], job) == ViewOf(run[m - 1], job)
  {
    var a := StepInRun(cfg, deadline, plan, run, m);
    StepFreezes(cfg, deadline, plan, run[m - 1], a, run[m], job);
    FrozenDone(run[m - 1], run[m], job);
  }

  /** A settled job stays settled for the rest of the run, with the same result and the same attempts. */
  lemma {:induction false} SettledFrozen(cfg: Config, deadline: Deadline, plan: seq<JobPlan>, run: seq<System>,
                                         k: nat, m: nat, job: JobPlan)
    requires Distinct(JobIds(plan)) && IsRun(cfg, deadline, plan, run) && k <= m < |run|
    requires job in plan && Done(run[k], job)
    ensures Done(run[m], job) && ViewOf(run[m], job) == ViewOf(run[k], job)
  {
    if k < m {
      SettledFrozen(cfg, deadline, plan, run, k, m - 1, job);
      RunStepFreezes(cfg, deadline, plan, run, m, job);
    }
  }

  /**
   Retry discipline over a whole run: once a job's result is a success or a timeout, it is never run again
   and neither its result nor the list of its attempts ever changes.
   */
  lemma FinalResultsFrozen(cfg: Config, deadline: Deadline, plan: seq<JobPlan>, run: seq<System>,
                           k: nat, m: nat, job: JobPlan)
    requires Distinct(JobIds(plan)) && IsRun(cfg, deadline, plan, run) && k <= m < |run|
    requires job in plan && job.jobId in run[k].s.latest
    requires run[k].s.latest[job.jobId].exitCode == 0 || run[k].s.latest[job.jobId].timedOut
    ensures !ViewOf(run[m], job).waits && !ViewOf(run[m], job).flies
    ensures ViewOf(run[m], job) == ViewOf(run[k], job)
  {
    RunKeepsInv(cfg, deadline, plan, run, k);
    SettledFrozen(cfg, deadline, plan, run, k, m, job);
  }

  /** In every state of every run, the attempts of a job are numbered without gaps and stay within the limit. */
  lemma AttemptsWithinLimit(cfg: Config, deadline: Deadline, plan: seq<JobPlan>, run: seq<System>, k: nat, job: JobPlan)
    requires Distinct(JobIds(plan)) && IsRun(cfg, deadline, plan, run) && k < |run| && job in plan
    ensures var tries := AttemptsOf(run[k].history, job.jobId);
      && (|tries| <= 1 || |tries| <= cfg.maxRetries + 1)
      && (forall n :: 0 <= n < |tries| ==> tries[n].attempt == n)
      && (forall n :: 0 <= n < |tries| - 1 ==> tries[n].exitCode != 0 && !tries[n].timedOut)
  {
    RunKeepsInv(cfg, deadline, plan, run, k);
    var v := ViewOf(run[k], job);
    assert JobOk(cfg, Stopped(deadline, run[k]), job, v);
    assert Disciplined(cfg, v.tries);
    if |v.tries| > 1 {
      assert Retryable(cfg, v.tries[|v.tries| - 2]);
    }
  }

  // ----- times and outcomes over a run

  /** The attempt was not turned away for lack of time: its command was handed to the executor. */
  predicate Launched(cfg: Config, deadline: Deadline, t: Attempt) {
    && (deadline.Some? ==> t.readAt < deadline.value)
    && (cfg.jobTimeout.Some? ==> cfg.jobTimeout.value > 0)
  }

  /** The attempt was launched, its command exited with 0, and the attempt saw no watch abort. */
  predicate Succeeded(cfg: Config, deadline: Deadline, t: Attempt) {
    Launched(cfg, deadline, t) && t.outcome.Ran? && t.outcome.exitCode == 0 && !t.abortSeen
  }

  /** The attempt was turned away, its command exited with 0 under a watch abort, or the executor timed it out. */
  predicate RanLate(cfg: Config, deadline: Deadline, t: Attempt) {
    Launched(cfg, deadline, t) ==> t.outcome.Ran? && (t.outcome.timedOut || (t.abortSeen && t.outcome.exitCode == 0))
  }

  /** The result of an attempt says what happened in it. */
  predicate AttemptReported(cfg: Config, deadline: Deadline, r: JobResult, t: Attempt) {
    && (r.exitCode == 0 <==> Succeeded(cfg, deadline, t))
    && (r.timedOut <==> RanLate(cfg, deadline, t))
    && (r.started <==> Launched(cfg, deadline, t) && t.outcome.Ran?)
    && (r.exitCode != 0 ==>
          r.exitCode == (if !Launched(cfg, deadline, t) then 124 else if t.outcome.Raised? then 99
                         else if t.outcome.exitCode == 0 then 130 else t.outcome.exitCode))
    && (r.scope == Some(WatchScope) <==> r.started && t.abortSeen && t.outcome.exitCode == 0)
    && (r.scope.Some? <==> r.timedOut)
  }

  /**
   A launched attempt has a budget of at least one second and at most the job timeout. It runs out by the
   deadline, unless it is the one second that is always allowed, and so less than one second after it; and it is
   the largest such budget. There is no budget only if there is no limit.
   */
  predicate WithinBudget(cfg: Config, deadline: Deadline, t: Attempt) {
    match t.budget
    case None => deadline.None? && cfg.jobTimeout.None?
    case Some(b) =>
      && 1 <= b
      && (cfg.jobTimeout.Some? ==> b <= cfg.jobTimeout.value)
      && (deadline.Some? ==>
            && t.readAt < deadline.value
            && (b == 1 || t.readAt + b as real <= deadline.value)
            && t.readAt + b as real < deadline.value + 1.0)
      && (cfg.jobTimeout == t.budget || (deadline.Some? && deadline.value < t.readAt + b as real + 1.0))
  }

  /** What the recorded times of one handled attempt say about its result. */
  ghost predicate AttemptTimed(cfg: Config, deadline: Deadline, r: JobResult, t: Attempt, now: real) {
    && t.jobId == r.jobId
    && t.submittedAt <= t.readAt <= t.handledAt <= now
    && (deadline.Some? ==> t.submittedAt < deadline.value)
    && (Launched(cfg, deadline, t) ==> WithinBudget(cfg, deadline, t))
    && (r.started && r.timedOut && r.scope != Some(WatchScope) ==>
          r.scope == Some(if deadline.Some? && t.budget != cfg.jobTimeout then StageScope else JobScope))
  }

  /** Every handled attempt is timed and reported, and the attempts of one job follow each other without overlap. */
  ghost predicate AllTimed(cfg: Config, deadline: Deadline, history: seq<JobResult>, log: seq<Attempt>, now: real) {
    && |log| == |history|
    && (forall n :: 0 <= n < |log| ==>
          AttemptTimed(cfg, deadline, history[n], log[n], now) && AttemptReported(cfg, deadline, history[n], log[n]))
    && (forall m, n :: 0 <= m < n < |log| && log[m].jobId == log[n].jobId ==> log[m].handledAt <= log[n].submittedAt)
  }

  /** A job in the pool was put there before the deadline, after its earlier attempts had been handled. */
  ghost predicate PooledInTime(deadline: Deadline, x: System, id: string) {
    && id in x.times.submitted
    && x.times.submitted[id] <= x.now
    && (deadline.Some? ==> x.times.submitted[id] < deadline.value)
    && (forall n :: 0 <= n < |x.times.log| && x.times.log[n].jobId == id ==>
          x.times.log[n].handledAt <= x.times.submitted[id])
  }

  ghost predicate TimesInv(cfg: Config, deadline: Deadline, x: System) {
    && AllTimed(cfg, deadline, x.history, x.times.log, x.now)
    && (forall j :: j in x.s.futures ==> PooledInTime(deadline, x, j.jobId))
  }

  /** The record of one attempt fits its result, whatever the executor did. */
  lemma RunOneTimed(cfg: Config, deadline: Deadline, job: JobPlan, attempt: nat, t: Attempt)
    requires deadline.None? <==> cfg.stageTimeout.None?
    requires t.jobId == job.jobId && t.submittedAt <= t.readAt <= t.handledAt
    requires t.budget == EffectiveTimeout(cfg, deadline, t.readAt)
    requires deadline.Some? ==> t.submittedAt < deadline.value
    ensures var r := RunOne(cfg, deadline, job, attempt, t.readAt, t.outcome, t.abortSeen);
      AttemptTimed(cfg, deadline, r, t, t.handledAt) && AttemptReported(cfg, deadline, r, t)
  {
    TimeBudget(cfg, deadline, t.readAt);
  }

  /** Logging one more attempt, handled now, keeps the log in order; other jobs in the pool are not affected. */
  lemma LogTimed(cfg: Config, deadline: Deadline, x: System, id: string, r: JobResult, t: Attempt, later: real)
    requires TimesInv(cfg, deadline, x) && PooledInTime(deadline, x, id) && x.now <= later
    requires t.jobId == id && t.submittedAt == x.times.submitted[id] && t.handledAt == x.now
    requires AttemptTimed(cfg, deadline, r, t, x.now) && AttemptReported(cfg, deadline, r, t)
    ensures AllTimed(cfg, deadline, x.history + [r], x.times.log + [t], later)
    ensures forall other :: other != id && PooledInTime(deadline, x, other) ==>
              PooledInTime(deadline, x.(times := x.times.(log := x.times.log + [t]), now := later), other)
  {}

  /** A job put into the pool now is there in time; jobs already there stay so. */
  lemma PooledTimed(deadline: Deadline, x: System, job: JobPlan, cfg: Config)
    requires AllTimed(cfg, deadline, x.history, x.times.log, x.now) && !Expired(deadline, x.now)
    ensures var y := x.(times := Pooled(x.times, deadline, job, x.now, false));
      && PooledInTime(deadline, y, job.jobId)
      && forall other :: other != job.jobId && PooledInTime(deadline, x, other) ==> PooledInTime(deadline, y, other)
  {
    var y := x.(times := Pooled(x.times, deadline, job, x.now, false));
    forall n | 0 <= n < |y.times.log|
      ensures y.times.log[n].handledAt <= x.now
    {
      assert AttemptTimed(cfg, deadline, x.history[n], x.times.log[n], x.now);
    }
  }

  lemma LaterTimed(cfg: Config, deadline: Deadline, x: System, later: real)
    requires TimesInv(cfg, deadline, x) && x.now <= later
    ensures TimesInv(cfg, deadline, x.(now := later))
  {
    var y := x.(now := later);
    forall j | j in y.s.futures
      ensures PooledInTime(deadline, y, j.jobId)
    {
      assert PooledInTime(deadline, x, j.jobId);
    }
  }

  lemma SubmitTimed(cfg: Config, deadline: Deadline, plan: seq<JobPlan>, x: System, y: System)
    requires Inv(cfg, deadline, plan, x) && TimesInv(cfg, deadline, x)
    requires Step(cfg, deadline, x, SubmitPending, y)
    ensures TimesInv(cfg, deadline, y)
  {
    var job := x.s.pending[0];
    if x.abort || Expired(deadline, x.now) {
      var scope := if x.abort then WatchScope else StageScope;
      assert [job] + x.s.pending[1..] == [] + x.s.pending;
      MarkEachFrame(x.s.(pending := []), [] + x.s.pending, scope);
      assert forall id :: PooledInTime(deadline, x, id) ==> PooledInTime(deadline, y, id);
    } else {
      PooledTimed(deadline, x, job, cfg);
      assert JobOk(cfg, Stopped(deadline, x), job, ViewOf(x, job));
      forall j | j in y.s.futures
        ensures PooledInTime(deadline, y, j.jobId)
      {
        if j.jobId == job.jobId {
          SameJob(plan, j, job);
        }
      }
    }
  }

  /** What is in the pool after future i has been handled: the other futures, and perhaps its job once more. */
  lemma HandleFutures(cfg: Config, deadline: Deadline, plan: seq<JobPlan>, x: System, i: nat, r: JobResult,
                      abort: bool, now: real, abortLater: bool)
    requires QueueInv(cfg, plan, x.s) && i < |x.s.futures|
    ensures var again := !abort && Retryable(cfg, r) && !abortLater && !Expired(deadline, now);
      forall j :: j in Handle(x.s, cfg, deadline, i, r, abort, now, abortLater).futures ==>
        (j in x.s.futures && j != x.s.futures[i]) || (again && j == x.s.futures[i])
  {
    var job := x.s.futures[i];
    var s := Record(x.s.(futures := x.s.futures[..i] + x.s.futures[i + 1..]), r);
    RemovedDistinct(x.s.futures, i);
    var bumped := s.(attempts := s.attempts[r.jobId := r.attempt + 1]);
    var scope := if abort || abortLater then WatchScope else StageScope;
    MarkEachFrame(s.(pending := []), [] + s.pending, scope);
    MarkEachFrame(bumped.(pending := []), [job] + s.pending, scope);
  }

  /** The system with one more recorded attempt, whose result is r. */
  function Logged(x: System, r: JobResult, t: Attempt, now: real): (z: System) {
    x.(times := x.times.(log := x.times.log + [t]), history := x.history + [r], now := now)
  }

  /** A recorded completion fits the record so far, and the other futures stay in time. */
  lemma CompletionLogged(cfg: Config, deadline: Deadline, x: System, i: nat, readAt: real, outcome: Outcome,
                         abortSeen: bool, now: real)
    requires deadline.None? <==> cfg.stageTimeout.None?
    requires TimesInv(cfg, deadline, x) && i < |x.s.futures| && x.s.futures[i].jobId in x.times.submitted
    requires x.times.submitted[x.s.futures[i].jobId] <= readAt <= x.now <= now
    ensures var job := x.s.futures[i];
      var r := RunOne(cfg, deadline, job, AttemptOf(x.s, job.jobId), readAt, outcome, abortSeen);
      var z := Logged(x, r, AttemptFor(x.times, cfg, deadline, job, readAt, outcome, abortSeen, x.now), now);
      && AllTimed(cfg, deadline, z.history, z.times.log, now)
      && forall j :: j in x.s.futures && j.jobId != job.jobId ==> PooledInTime(deadline, z, j.jobId)
  {
    var job := x.s.futures[i];
    var attempt := AttemptOf(x.s, job.jobId);
    var r := RunOne(cfg, deadline, job, attempt, readAt, outcome, abortSeen);
    var t := AttemptFor(x.times, cfg, deadline, job, readAt, outcome, abortSeen, x.now);
    assert PooledInTime(deadline, x, job.jobId);
    RunOneTimed(cfg, deadline, job, attempt, t);
    LogTimed(cfg, deadline, x, job.jobId, r, t, now);
    forall j | j in x.s.futures && j.jobId != job.jobId
      ensures PooledInTime(deadline, Logged(x, r, t, now), j.jobId)
    {
      assert PooledInTime(deadline, x, j.jobId);
      assert PooledInTime(deadline, x.(times := x.times.(log := x.times.log + [t]), now := now), j.jobId);
    }
  }

  lemma CompleteTimed(cfg: Config, deadline: Deadline, plan: seq<JobPlan>, x: System, a: Action, y: System)
    requires deadline.None? <==> cfg.stageTimeout.None?
    requires Inv(cfg, deadline, plan, x) && TimesInv(cfg, deadline, x)
    requires a.Complete? && Step(cfg, deadline, x, a, y)
    ensures TimesInv(cfg, deadline, y)
  {
    var Complete(i, readAt, outcome, abortSeen, abort, now, abortLater) := a;
    var job := x.s.futures[i];
    var r := y.history[|x.history|];
    var z := Logged(x, r, AttemptFor(x.times, cfg, deadline, job, readAt, outcome, abortSeen, x.now), now);
    CompletionLogged(cfg, deadline, x, i, readAt, outcome, abortSeen, now);
    HandleFutures(cfg, deadline, plan, x, i, r, abort, now, abortLater);
    if !abort && Retryable(cfg, r) && !abortLater && !Expired(deadline, now) {
      PooledTimed(deadline, z, job, cfg);
    }
    forall j | j in y.s.futures
      ensures PooledInTime(deadline, y, j.jobId)
    {
      if j != job {
        OtherJob(plan, x, i, j);
      }
    }
  }

  lemma OtherJob(plan: seq<JobPlan>, x: System, i: nat, j: JobPlan)
    requires Distinct(JobIds(plan)) && (forall k :: k in x.s.futures ==> k in plan)
    requires i < |x.s.futures| && j in x.s.futures && j != x.s.futures[i]
    ensures j.jobId != x.s.futures[i].jobId
  {
    if j.jobId == x.s.futures[i].jobId {
      SameJob(plan, j, x.s.futures[i]);
    }
  }

  lemma StepKeepsTimes(cfg: Config, deadline: Deadline, plan: seq<JobPlan>, x: System, a: Action, y: System)
    requires deadline.None? <==> cfg.stageTimeout.None?
    requires Inv(cfg, deadline, plan, x) && TimesInv(cfg, deadline, x) && Step(cfg, deadline, x, a, y)
    ensures TimesInv(cfg, deadline, y)
  {
    match a
    case Tick(later) => LaterTimed(cfg, deadline, x, later);
    case RaiseAbort =>
      assert forall id :: PooledInTime(deadline, x, id) ==> PooledInTime(deadline, y, id);
    case SubmitPending => SubmitTimed(cfg, deadline, plan, x, y);
    case Complete(_, _, _, _, _, _, _) => CompleteTimed(cfg, deadline, plan, x, a, y);
    case GiveUp =>
      MarkEachFrame(x.s.(pending := []), [] + x.s.pending, StageScope);
      assert forall id :: PooledInTime(deadline, x, id) ==> PooledInTime(deadline, y, id);
  }

  /**
   Attempts over a whole run. Every attempt was submitted before the deadline, read the clock after that, and its
   own recorded budget is the largest whole number of seconds its limits allow; it was turned away exactly if
   its own reading was past the deadline or no time is ever allowed; a timeout is put down to the limit that
   cut its budget; and the attempts of one job never overlap in time. The result of a launched attempt has exit
   code 0 exactly if its command exited with 0 and no watch abort was seen; otherwise it tells what happened.
   */
  lemma {:induction false} AttemptsTimed(cfg: Config, deadline: Deadline, plan: seq<JobPlan>, run: seq<System>, k: nat)
    requires Distinct(JobIds(plan)) && IsRun(cfg, deadline, plan, run) && k < |run|
    ensures AllTimed(cfg, deadline, run[k].history, run[k].times.log, run[k].now)
    ensures TimesInv(cfg, deadline, run[k])
  {
    if k > 0 {
      AttemptsTimed(cfg, deadline, plan, run, k - 1);
      var a := StepInRun(cfg, deadline, plan, run, k);
      StepKeepsTimes(cfg, deadline, plan, run[k - 1], a, run[k]);
    }
  }

  /** Nothing was put into the pool before the given time. */
  ghost predicate SinceStart(start: real, x: System) {
    && start <= x.now
    && (forall id :: id in x.times.submitted ==> start <= x.times.submitted[id])
    && (forall n :: 0 <= n < |x.times.log| ==> start <= x.times.log[n].submittedAt)
  }

  lemma StepSinceStart(cfg: Config, deadline: Deadline, x: System, a: Action, y: System, start: real)
    requires SinceStart(start, x) && Step(cfg, deadline, x, a, y)
    ensures SinceStart(start, y)
  {}

  lemma {:induction false} RunSinceStart(cfg: Config, deadline: Deadline, plan: seq<JobPlan>, run: seq<System>, k: nat)
    requires IsRun(cfg, deadline, plan, run) && k < |run|
    ensures SinceStart(run[0].now, run[k])
  {
    if k > 0 {
      RunSinceStart(cfg, deadline, plan, run, k - 1);
      var a := RunStep(cfg, deadline, plan, run, k);
      StepSinceStart(cfg, deadline, run[k - 1], a, run[k], run[0].now);
    }
  }

  /** The deadline is no further away than the stage timeout from any submission. */
  lemma DeadlineFromStart(cfg: Config, deadline: Deadline, plan: seq<JobPlan>, run: seq<System>, k: nat)
    requires IsRun(cfg, deadline, plan, run) && k < |run|
    ensures deadline.Some? ==> forall n :: 0 <= n < |run[k].times.log| ==>
              deadline.value <= run[k].times.log[n].submittedAt + cfg.stageTimeout.value as real
  {
    RunSinceStart(cfg, deadline, plan, run, k);
  }

  // ----- what the record says of a settled job

  /** Entry n is the last one of the job's attempts. */
  ghost predicate LastAttempt(log: seq<Attempt>, id: string, n: nat) {
    n < |log| && log[n].jobId == id && forall m :: n < m < |log| ==> log[m].jobId != id
  }

  /** The job's last attempt, which there is, succeeded. */
  ghost predicate EndedWell(cfg: Config, deadline: Deadline, log: seq<Attempt>, id: string) {
    exists n: nat :: LastAttempt(log, id, n) && Succeeded(cfg, deadline, log[n])
  }

  /** The job has had an attempt, and the last one was not late. */
  ghost predicate EndedInTime(cfg: Config, deadline: Deadline, log: seq<Attempt>, id: string) {
    exists n: nat :: LastAttempt(log, id, n) && !RanLate(cfg, deadline, log[n])
  }

  lemma {:induction false} LastTry(history: seq<JobResult>, id: string) returns (n: int)
    ensures -1 <= n < |history| && forall m :: n < m < |history| ==> history[m].jobId != id
    ensures n == -1 <==> AttemptsOf(history, id) == []
    ensures var tries := AttemptsOf(history, id);
      n >= 0 ==> history[n].jobId == id && tries[|tries| - 1] == history[n]
  {
    n := |history| - 1;
    if n >= 0 && history[n].jobId != id {
      n := LastTry(history[..n], id);
    }
  }

  /** A settled job's result is a success, or not a timeout, exactly if its last recorded attempt was. */
  lemma RecordDecides(cfg: Config, deadline: Deadline, x: System, job: JobPlan)
    requires AllTimed(cfg, deadline, x.history, x.times.log, x.now)
    requires Settled(cfg, Stopped(deadline, x), job, ViewOf(x, job))
    ensures x.s.latest[job.jobId].exitCode == 0 <==> EndedWell(cfg, deadline, x.times.log, job.jobId)
    ensures !x.s.latest[job.jobId].timedOut <==> EndedInTime(cfg, deadline, x.times.log, job.jobId)
  {
    var n := LastTry(x.history, job.jobId);
    if n >= 0 {
      assert AttemptReported(cfg, deadline, x.history[n], x.times.log[n]);
      assert LastAttempt(x.times.log, job.jobId, n);
    }
  }

  // ----- after a stop nothing starts

  /** What is in flight in y was in flight in x, and what has left the pool since has been handled. */
  ghost predicate OnlyFinishes(x: System, y: System) {
    && (forall j :: j in y.s.futures ==> j in x.s.futures)
    && |y.history| + |y.s.futures| == |x.history| + |x.s.futures|
  }

  /** No job enters the pool in a step taken after a watch abort or past the deadline. */
  lemma StoppedStep(cfg: Config, deadline: Deadline, plan: seq<JobPlan>, x: System, a: Action, y: System)
    requires Inv(cfg, deadline, plan, x) && Step(cfg, deadline, x, a, y) && Stopped(deadline, x).Any()
    ensures Stopped(deadline, y).Any() && OnlyFinishes(x, y)
  {
    match a
    case Complete(i, readAt, outcome, abortSeen, abort, now, abortLater) =>
      var r := y.history[|x.history|];
      HandleFutures(cfg, deadline, plan, x, i, r, abort, now, abortLater);
      HandledLeaves(cfg, deadline, x.s, i, r, abort, now, abortLater);
    case SubmitPending =>
      MarkEachFrame(x.s.(pending := []), [x.s.pending[0]] + x.s.pending[1..], WatchScope);
      MarkEachFrame(x.s.(pending := []), [x.s.pending[0]] + x.s.pending[1..], StageScope);
    case GiveUp => MarkEachFrame(x.s.(pending := []), [] + x.s.pending, StageScope);
    case _ =>
  }

  lemma HandledLeaves(cfg: Config, deadline: Deadline, s: State, i: nat, r: JobResult, abort: bool, now: real,
                      abortLater: bool)
    requires i < |s.futures| && (abort || abortLater || Expired(deadline, now))
    ensures |Handle(s, cfg, deadline, i, r, abort, now, abortLater).futures| == |s.futures| - 1
  {
    var t := Record(s.(futures := s.futures[..i] + s.futures[i + 1..]), r);
    var bumped := t.(attempts := t.attempts[r.jobId := r.attempt + 1]);
    MarkEachFrame(t.(pending := []), [] + t.pending, WatchScope);
    MarkEachFrame(bumped.(pending := []), [s.futures[i]] + t.pending, WatchScope);
    MarkEachFrame(bumped.(pending := []), [s.futures[i]] + t.pending, StageScope);
  }

  /**
   Once the watch has aborted or the deadline has passed, nothing is started any more: what is in flight later
   was in flight then, and the completions handled since are exactly those of the futures that have left the pool.
   */
  lemma {:induction false} StoppedStartsNothing(cfg: Config, deadline: Deadline, plan: seq<JobPlan>,
                                                run: seq<System>, k: nat, m: nat)
    requires Distinct(JobIds(plan)) && IsRun(cfg, deadline, plan, run) && k <= m < |run|
    requires run[k].abort || (deadline.Some? && deadline.value <= run[k].now)
    ensures Stopped(deadline, run[m]).Any() && OnlyFinishes(run[k], run[m])
  {
    if k < m {
      StoppedStartsNothing(cfg, deadline, plan, run, k, m - 1);
      StoppedRunStep(cfg, deadline, plan, run, m);
      FinishesOn(run[k], run[m - 1], run[m]);
    }
  }

  lemma FinishesOn(x: System, y: System, z: System)
    requires OnlyFinishes(x, y) && OnlyFinishes(y, z)
    ensures OnlyFinishes(x, z)
  {}

  lemma StoppedRunStep(cfg: Config, deadline: Deadline, plan: seq<JobPlan>, run: seq<System>, m: nat)
    requires Distinct(JobIds(plan)) && IsRun(cfg, deadline, plan, run) && 0 < m < |run|
    requires Stopped(deadline, run[m - 1]).Any()
    ensures Stopped(deadline, run[m]).Any() && OnlyFinishes(run[m - 1], run[m])
  {
    var a := StepInRun(cfg, deadline, plan, run, m);
    StoppedStep(cfg, deadline, plan, run[m - 1], a, run[m]);
  }

  // ----- remaining work

  lemma {:induction false} FlightWorkFrame(cfg: Config, s: State, t: State, jobs: seq<JobPlan>)
    requires forall j :: j in jobs ==> AttemptOf(s, j.jobId) == AttemptOf(t, j.jobId)
    ensures FlightWork(cfg, s, jobs) == FlightWork(cfg, t, jobs)
  {
    if jobs != [] {
      FlightWorkFrame(cfg, s, t, jobs[..|jobs| - 1]);
    }
  }

  lemma {:induction false} FlightWorkRemove(cfg: Config, s: State, jobs: seq<JobPlan>, i: nat)
    requires i < |jobs|
    ensures FlightWork(cfg, s, jobs) == FlightWork(cfg, s, jobs[..i] + jobs[i + 1..]) + RunsLeft(cfg, s, jobs[i])
  {
    var rest := jobs[..i] + jobs[i + 1..];
    if i == |jobs| - 1 {
      assert rest == jobs[..i];
    } else {
      FlightWorkRemove(cfg, s, jobs[..|jobs| - 1], i);
      assert rest[..|rest| - 1] == jobs[..|jobs| - 1][..i] + jobs[..|jobs| - 1][i + 1..];
    }
  }

  lemma MarkAllWork(cfg: Config, s: State, scope: Scope)
    ensures Work(cfg, MarkPending(s, [], scope)) == FlightWork(cfg, s, s.futures) <= Work(cfg, s)
    ensures MarkPending(s, [], scope).pending == [] && MarkPending(s, [], scope).futures == s.futures
  {
    MarkEachFrame(s.(pending := []), [] + s.pending, scope);
    FlightWorkFrame(cfg, s, MarkPending(s, [], scope), s.futures);
  }

  /** Submitting a job that has not run yet moves its allowed runs from the queue to the pool. */
  lemma SubmitFreshWork(cfg: Config, s: State)
    requires s.pending != [] && AttemptOf(s, s.pending[0].jobId) == 0
    ensures Work(cfg, s.(pending := s.pending[1..], futures := s.futures + [s.pending[0]])) == Work(cfg, s)
  {
    var first := s.pending[0];
    var t := s.(pending := s.pending[1..], futures := s.futures + [first]);
    FlightWorkFrame(cfg, s, t, s.futures);
  }

  lemma SubmitPendingWork(cfg: Config, deadline: Deadline, plan: seq<JobPlan>, x: System)
    requires Inv(cfg, deadline, plan, x) && x.s.pending != []
    ensures Work(cfg, SubmitNext(x.s, deadline, x.now, x.abort)) <= Work(cfg, x.s)
    ensures |SubmitNext(x.s, deadline, x.now, x.abort).pending| < |x.s.pending|
  {
    var first := x.s.pending[0];
    assert [first] + x.s.pending[1..] == [] + x.s.pending;
    if x.abort {
      MarkAllWork(cfg, x.s, WatchScope);
    } else if Expired(deadline, x.now) {
      MarkAllWork(cfg, x.s, StageScope);
    } else {
      assert first in plan && JobOk(cfg, Stopped(deadline, x), first, ViewOf(x, first));
      SubmitFreshWork(cfg, x.s);
    }
  }

  lemma RecordedFlightWork(cfg: Config, plan: seq<JobPlan>, x: System, i: nat, r: JobResult, bump: bool)
    requires Distinct(JobIds(plan)) && QueueInv(cfg, plan, x.s) && i < |x.s.futures| && ResultOf(x.s, i, r)
    ensures var y := Recorded(x, i, r, bump);
      FlightWork(cfg, y.s, y.s.futures) + RunsLeft(cfg, x.s, x.s.futures[i]) == FlightWork(cfg, x.s, x.s.futures)
  {
    var y := Recorded(x, i, r, bump);
    RemovedDistinct(x.s.futures, i);
    forall j | j in y.s.futures
      ensures AttemptOf(x.s, j.jobId) == AttemptOf(y.s, j.jobId)
    {
      if j.jobId == r.jobId {
        SameJob(plan, j, x.s.futures[i]);
      }
    }
    FlightWorkFrame(cfg, x.s, y.s, y.s.futures);
    FlightWorkRemove(cfg, x.s, x.s.futures, i);
  }

  lemma FlightHasRunLeft(cfg: Config, deadline: Deadline, plan: seq<JobPlan>, x: System, i: nat)
    requires Inv(cfg, deadline, plan, x) && i < |x.s.futures|
    ensures RunsLeft(cfg, x.s, x.s.futures[i]) >= 1
  {
    var job := x.s.futures[i];
    assert job in plan && JobOk(cfg, Stopped(deadline, x), job, ViewOf(x, job));
  }

  /** Removing a future and counting up its attempts takes at least one unit of work away, even if it is resubmitted. */
  lemma RecordedWork(cfg: Config, deadline: Deadline, plan: seq<JobPlan>, x: System, i: nat, r: JobResult, bump: bool)
    requires Inv(cfg, deadline, plan, x) && i < |x.s.futures| && ResultOf(x.s, i, r)
    ensures var y := Recorded(x, i, r, bump); var job := x.s.futures[i];
      && Work(cfg, y.s) + 1 <= Work(cfg, x.s)
      && (bump ==> Work(cfg, y.s.(futures := y.s.futures + [job])) + 1 <= Work(cfg, x.s))
  {
    var job := x.s.futures[i];
    var y := Recorded(x, i, r, bump);
    FlightHasRunLeft(cfg, deadline, plan, x, i);
    RecordedFlightWork(cfg, plan, x, i, r, bump);
    var z := y.s.(futures := y.s.futures + [job]);
    FlightWorkFrame(cfg, y.s, z, y.s.futures);
  }

  /** Termination: every handled completion strictly reduces the number of completions still possible. */
  lemma HandleWork(cfg: Config, deadline: Deadline, plan: seq<JobPlan>, x: System, i: nat, r: JobResult,
                   now: real, abortLater: bool)
    requires Inv(cfg, deadline, plan, x) && i < |x.s.futures| && ResultOf(x.s, i, r)
    ensures Work(cfg, Handle(x.s, cfg, deadline, i, r, x.abort, now, abortLater)) < Work(cfg, x.s)
  {
    var bump := !x.abort && Retryable(cfg, r);
    RecordedWork(cfg, deadline, plan, x, i, r, bump);
    var y := Recorded(x, i, r, bump);
    MarkAllWork(cfg, y.s, WatchScope);
    MarkAllWork(cfg, y.s, StageScope);
    MarkSkipsRecorded(y.s, x.s.futures[i], WatchScope);
    MarkSkipsRecorded(y.s, x.s.futures[i], StageScope);
  }

  lemma StepWork(cfg: Config, deadline: Deadline, plan: seq<JobPlan>, x: System, a: Action, y: System)
    requires Inv(cfg, deadline, plan, x) && Step(cfg, deadline, x, a, y)
    ensures |y.history| + Work(cfg, y.s) <= |x.history| + Work(cfg, x.s)
  {
    match a
    case Complete(i, readAt, outcome, abortSeen, abort, now, abortLater) =>
      var job := x.s.futures[i];
      var r := RunOne(cfg, deadline, job, AttemptOf(x.s, job.jobId), readAt, outcome, abortSeen);
      HandleWork(cfg, deadline, plan, x, i, r, now, abortLater);
    case SubmitPending => SubmitPendingWork(cfg, deadline, plan, x);
    case GiveUp => MarkAllWork(cfg, x.s, StageScope);
    case _ =>
  }

  /** No run handles more completions than jobs times allowed attempts. */
  lemma {:induction false} CompletionsBounded(cfg: Config, deadline: Deadline, plan: seq<JobPlan>,
                                              run: seq<System>, k: nat)
    requires Distinct(JobIds(plan)) && IsRun(cfg, deadline, plan, run) && k < |run|
    ensures |run[k].history| + Work(cfg, run[k].s) <= |plan| * Allowed(cfg)
  {
    if k > 0 {
      CompletionsBounded(cfg, deadline, plan, run, k - 1);
      var a := StepInRun(cfg, deadline, plan, run, k);
      StepWork(cfg, deadline, plan, run[k - 1], a, run[k]);
    }
  }

  // ----- the end of a run

  /** With nothing pending and nothing in flight, the results are those of the planned jobs, each exactly once. */
  lemma FinishedResults(cfg: Config, deadline: Deadline, plan: seq<JobPlan>, x: System)
    requires Inv(cfg, deadline, plan, x) && x.s.pending == [] && x.s.futures == []
    ensures forall job :: job in plan ==> Settled(cfg, Stopped(deadline, x), job, ViewOf(x, job))
    ensures multiset(x.s.order) == multiset(JobIds(plan))
  {
    forall job | job in plan
      ensures Settled(cfg, Stopped(deadline, x), job, ViewOf(x, job))
    {
      assert JobOk(cfg, Stopped(deadline, x), job, ViewOf(x, job));
    }
    forall id
      ensures id in x.s.order <==> id in JobIds(plan)
    {
      if id in JobIds(plan) {
        var p :| 0 <= p < |plan| && JobIds(plan)[p] == id;
        assert Settled(cfg, Stopped(deadline, x), plan[p], ViewOf(x, plan[p]));
      }
      if id in x.s.order {
        assert FromPlan(plan, id, x.s.latest[id]);
        var job :| job in plan && job.jobId == id;
        var p :| 0 <= p < |plan| && plan[p] == job;
        assert JobIds(plan)[p] == id;
      }
    }
    DistinctPermutation(x.s.order, JobIds(plan));
  }
}
