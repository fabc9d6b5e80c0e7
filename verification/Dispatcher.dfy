/**
 The local dispatcher as an object that updates its tables in place. The clock and the watch-abort flag
 belong to the environment: reading them may find the clock later and the flag raised.
 */
module Dispatcher {
  import opened Wrappers
  import opened Sequences
  import opened Sorting
  import opened Text
  import opened Jobs
  import opened Dispatch
  import opened DispatchSafety

  datatype DispatchResult = DispatchResult(
    results: seq<JobResult>, failedJobIds: seq<string>, timedOutJobIds: seq<string>)

  datatype DispatchError = InvalidPoolSize

  /** One result per planned job, carrying that job's items. */
  ghost predicate Accounted(plan: seq<JobPlan>, d: DispatchResult) {
    && multiset(ResultIds(d.results)) == multiset(JobIds(plan))
    && forall r :: r in d.results ==> FromPlan(plan, r.jobId, r)
  }

  /** ids lists, in order and without repetition, the jobs of the results that satisfy p. */
  ghost predicate ListsJobs(ids: seq<string>, results: seq<JobResult>, p: JobResult -> bool) {
    && Sorted(ids, StrLess) && Distinct(ids)
    && forall id :: id in ids <==> exists r :: r in results && r.jobId == id && p(r)
  }

  /**
   A planned job counts as failed, or as timed out, exactly unless its last recorded attempt says otherwise; a job
   without any attempt counts as both.
   */
  ghost predicate ListedByRecord(cfg: Config, deadline: Deadline, plan: seq<JobPlan>, log: seq<Attempt>,
                                 d: DispatchResult)
  {
    forall job :: job in plan ==>
      && (job.jobId in d.failedJobIds <==> !EndedWell(cfg, deadline, log, job.jobId))
      && (job.jobId in d.timedOutJobIds <==> !EndedInTime(cfg, deadline, log, job.jobId))
  }

  function ResultIds(results: seq<JobResult>): (ids: seq<string>) {
    seq(|results|, i requires 0 <= i < |results| => results[i].jobId)
  }

  /** An attempt begun at `readAt` since its job was put into the pool, with the given outcome, ends with result r. */
  ghost predicate CanResult(cfg: Config, deadline: Deadline, job: JobPlan, attempt: nat, x: System,
                            readAt: real, outcome: Outcome, seen: bool, r: JobResult)
  {
    && job.jobId in x.times.submitted && x.times.submitted[job.jobId] <= readAt <= x.now
    && (seen ==> x.abort) && r == RunOne(cfg, deadline, job, attempt, readAt, outcome, seen)
  }

  /** The recorded results in the order in which their jobs first got one. */
  function InOrder(order: seq<string>, latest: map<string, JobResult>): (results: seq<JobResult>)
    requires forall id :: id in order ==> id in latest
  {
    seq(|order|, i requires 0 <= i < |order| => latest[order[i]])
  }

  lemma InOrderListed(order: seq<string>, latest: map<string, JobResult>)
    requires forall id :: id in order <==> id in latest
    ensures forall id :: id in latest ==> latest[id] in InOrder(order, latest)
    ensures forall r :: r in InOrder(order, latest) ==> exists id :: id in latest && latest[id] == r
  {
    forall id | id in latest
      ensures latest[id] in InOrder(order, latest)
    {
      var k :| 0 <= k < |order| && order[k] == id;
      assert InOrder(order, latest)[k] == latest[id];
    }
  }

  /** The ids of the jobs whose recorded result satisfies p, sorted, list exactly those jobs. */
  lemma RecordedLists(plan: seq<JobPlan>, s: State, ids: seq<string>, p: JobResult -> bool)
    requires TableInv(plan, s) && Sorted(ids, StrLess) && Distinct(ids)
    requires forall id :: id in ids <==> id in s.latest && p(s.latest[id])
    ensures ListsJobs(ids, InOrder(s.order, s.latest), p)
  {
    var results := InOrder(s.order, s.latest);
    InOrderListed(s.order, s.latest);
    assert forall id :: id in s.latest ==> s.latest[id].jobId == id;
    forall id
      ensures id in ids <==> exists r :: r in results && r.jobId == id && p(r)
    {
      if id in ids {
        assert s.latest[id] in results;
      }
    }
  }

  /** At the end of a run the recorded results account for the plan. */
  lemma RecordedAccounts(cfg: Config, deadline: Deadline, plan: seq<JobPlan>, x: System, d: DispatchResult)
    requires Inv(cfg, deadline, plan, x) && x.s.pending == [] && x.s.futures == []
    requires d.results == InOrder(x.s.order, x.s.latest)
    ensures Accounted(plan, d)
    ensures forall job :: job in plan ==> job.jobId in x.s.latest && x.s.latest[job.jobId] in d.results
    ensures forall job :: job in plan ==> Settled(cfg, Stopped(deadline, x), job, ViewOf(x, job))
  {
    FinishedResults(cfg, deadline, plan, x);
    InOrderListed(x.s.order, x.s.latest);
    forall id | id in x.s.latest
      ensures FromPlan(plan, id, x.s.latest[id]) && x.s.latest[id].jobId == id
    {}
    assert ResultIds(d.results) == x.s.order;
  }

  lemma ListsFollowRecord(cfg: Config, deadline: Deadline, plan: seq<JobPlan>, x: System, d: DispatchResult)
    requires AllTimed(cfg, deadline, x.history, x.times.log, x.now)
    requires forall job :: job in plan ==> Settled(cfg, Stopped(deadline, x), job, ViewOf(x, job))
    requires forall id :: id in d.failedJobIds <==> id in x.s.latest && x.s.latest[id].exitCode != 0
    requires forall id :: id in d.timedOutJobIds <==> id in x.s.latest && x.s.latest[id].timedOut
    ensures ListedByRecord(cfg, deadline, plan, x.times.log, d)
  {
    forall job | job in plan
      ensures job.jobId in d.failedJobIds <==> !EndedWell(cfg, deadline, x.times.log, job.jobId)
      ensures job.jobId in d.timedOutJobIds <==> !EndedInTime(cfg, deadline, x.times.log, job.jobId)
    {
      RecordDecides(cfg, deadline, x, job);
    }
  }

  // ----- the object's turns as steps of a run

  /** Submitting the first pending job, at a later time and with the flag perhaps raised, continues a run. */
  lemma RunSubmits(cfg: Config, deadline: Deadline, plan: seq<JobPlan>, run: seq<System>, now: real, abort: bool)
    returns (longer: seq<System>)
    requires Distinct(JobIds(plan)) && IsRun(cfg, deadline, plan, run)
    requires var x := run[|run| - 1];
      x.now <= now && (x.abort ==> abort) && x.s.pending != [] && |x.s.futures| < cfg.maxWorkers
    ensures IsRun(cfg, deadline, plan, longer)
    ensures var x := run[|run| - 1]; var y := longer[|longer| - 1];
      && y == System(SubmitNext(x.s, deadline, now, abort), now, abort, x.history,
                     Pooled(x.times, deadline, x.s.pending[0], now, abort))
      && Work(cfg, y.s) <= Work(cfg, x.s) && |y.s.pending| < |x.s.pending|
  {
    longer := RunEnvironment(cfg, deadline, plan, run, now, abort);
    var y := longer[|longer| - 1];
    RunKeepsInv(cfg, deadline, plan, longer, |longer| - 1);
    SubmitPendingWork(cfg, deadline, plan, y);
    var z := y.(s := SubmitNext(y.s, deadline, now, abort),
                times := Pooled(y.times, deadline, y.s.pending[0], now, abort));
    ExtendRun(cfg, deadline, plan, longer, SubmitPending, z);
    longer := longer + [z];
  }

  /** Handling a completion continues a run; y is the state in which the completion was awaited. */
  lemma RunCompletes(cfg: Config, deadline: Deadline, plan: seq<JobPlan>, run: seq<System>, y: System,
                     i: nat, readAt: real, outcome: Outcome, seen: bool, r: JobResult, abort: bool, now: real,
                     abortLater: bool)
    returns (longer: seq<System>)
    requires Distinct(JobIds(plan)) && IsRun(cfg, deadline, plan, run)
    requires var x := run[|run| - 1];
      x.s == y.s && x.history == y.history && x.times == y.times && x.now <= y.now <= now && (x.abort ==> y.abort)
    requires (y.abort ==> abort) && (abort ==> abortLater) && i < |y.s.futures|
    requires CanResult(cfg, deadline, y.s.futures[i], AttemptOf(y.s, y.s.futures[i].jobId), y, readAt, outcome, seen, r)
    ensures IsRun(cfg, deadline, plan, longer)
    ensures var z := longer[|longer| - 1];
      && z == System(Handle(y.s, cfg, deadline, i, r, abort, now, abortLater), now, abortLater, y.history + [r],
                     Handled(y.times, cfg, deadline, y.s.futures[i],
                             AttemptFor(y.times, cfg, deadline, y.s.futures[i], readAt, outcome, seen, y.now),
                             r, abort, now, abortLater))
      && Work(cfg, z.s) < Work(cfg, y.s)
  {
    var job := y.s.futures[i];
    longer := RunEnvironment(cfg, deadline, plan, run, y.now, abort);
    var z := longer[|longer| - 1];
    RunKeepsInv(cfg, deadline, plan, longer, |longer| - 1);
    HandleWork(cfg, deadline, plan, z, i, r, now, abortLater);
    var next := System(Handle(z.s, cfg, deadline, i, r, abort, now, abortLater), now, abortLater, z.history + [r],
                       Handled(z.times, cfg, deadline, job,
                               AttemptFor(z.times, cfg, deadline, job, readAt, outcome, seen, z.now),
                               r, abort, now, abortLater));
    ExtendRun(cfg, deadline, plan, longer, Complete(i, readAt, outcome, seen, abort, now, abortLater), next);
    longer := longer + [next];
  }

  /** Every future in the pool has a time at which it was put there. */
  lemma PooledSoFar(cfg: Config, deadline: Deadline, plan: seq<JobPlan>, run: seq<System>)
    requires Distinct(JobIds(plan)) && IsRun(cfg, deadline, plan, run)
    ensures var x := run[|run| - 1];
      forall j :: j in x.s.futures ==> j.jobId in x.times.submitted && x.times.submitted[j.jobId] <= x.now
  {
    AttemptsTimed(cfg, deadline, plan, run, |run| - 1);
    var x := run[|run| - 1];
    assert forall j :: j in x.s.futures ==> PooledInTime(deadline, x, j.jobId);
  }

  class LocalDispatcher {
    const cfg: Config

    var pending: seq<JobPlan>
    var futures: seq<JobPlan>
    var attempts: map<string, nat>
    var latest: map<string, JobResult>
    var order: seq<string>
    var timedOut: set<string>

    var clock: real
    var abortRequested: bool

    /** When the thread pool received each job. */
    var submitted: map<string, real>

    ghost var history: seq<JobResult>
    ghost var log: seq<Attempt>
    ghost var trace: seq<System>

    constructor (cfg: Config, clock: real)
      ensures this.cfg == cfg && this.clock == clock && !abortRequested
    {
      this.cfg, this.clock, this.abortRequested := cfg, clock, false;
      pending, futures, attempts, latest, order, timedOut := [], [], map[], map[], [], {};
      submitted, history, log, trace := map[], [], [], [];
    }

    function Tables(): (s: State)
      reads this
    {
      State(pending, futures, attempts, latest, order, timedOut)
    }

    ghost function Snapshot(): (x: System)
      reads this
    {
      System(Tables(), clock, abortRequested, history, Times(submitted, log))
    }

    /** What has happened so far is a run of the step system that ends in the present state. */
    ghost predicate Traced(deadline: Deadline, plan: seq<JobPlan>)
      reads this
    {
      Distinct(JobIds(plan)) && IsRun(cfg, deadline, plan, trace) && trace[|trace| - 1] == Snapshot()
    }

    /** The job's recorded result is returned, and it is what the job's attempts and the stop conditions allow. */
    ghost predicate SettledWith(deadline: Deadline, job: JobPlan, d: DispatchResult)
      reads this
    {
      && job.jobId in latest && latest[job.jobId] in d.results
      && Settled(cfg, Stopped(deadline, Snapshot()), job, ViewOf(Snapshot(), job))
    }

    method ReadClock() returns (now: real)
      modifies this`clock
      ensures now == clock && old(clock) <= clock
    {
      var elapsed: real := *;
      if elapsed > 0.0 {
        clock := clock + elapsed;
      }
      now := clock;
    }

    method ReadAbort() returns (abort: bool)
      modifies this`abortRequested
      ensures abort == abortRequested && (old(abortRequested) ==> abortRequested)
    {
      var raised: bool := *;
      abortRequested := abortRequested || raised;
      abort := abortRequested;
    }

    /** Waits until some future is done: any one of them, with any outcome. */
    method AwaitCompletion(deadline: Deadline)
      returns (i: nat, r: JobResult, ghost readAt: real, ghost outcome: Outcome, ghost seen: bool)
      requires futures != []
      requires forall j :: j in futures ==> j.jobId in submitted && submitted[j.jobId] <= clock
      modifies this`clock, this`abortRequested
      ensures old(clock) <= clock && (old(abortRequested) ==> abortRequested)
      ensures i < |futures|
      ensures CanResult(cfg, deadline, futures[i], AttemptOf(Tables(), futures[i].jobId), Snapshot(),
                        readAt, outcome, seen, r)
    {
      var now := ReadClock();
      var abort := ReadAbort();
      var pick: int := *;
      i := if 0 <= pick < |futures| then pick else 0;
      var job := futures[i];
      var begun: real, noticed: bool, exitCode: int, killed: bool, raised: bool := *, *, *, *, *;
      var start := if submitted[job.jobId] <= begun <= now then begun else submitted[job.jobId];
      var done := if raised then Raised else Ran(exitCode, killed);
      r := RunOne(cfg, deadline, job, AttemptOf(Tables(), job.jobId), start, done, noticed && abort);
      readAt, outcome, seen := start, done, noticed && abort;
    }

    method RecordResult(r: JobResult)
      modifies this`latest, this`order, this`timedOut
      ensures Tables() == Record(old(Tables()), r)
    {
      if r.jobId !in latest {
        order := order + [r.jobId];
      }
      latest := latest[r.jobId := r];
      if r.timedOut {
        timedOut := timedOut + {r.jobId};
      }
    }

    method MarkJob(job: JobPlan, scope: Scope)
      modifies this`latest, this`order, this`timedOut
      ensures Tables() == Marked(old(Tables()), job, scope)
    {
      if job.jobId !in latest {
        RecordResult(NotStarted(job, AttemptOf(Tables(), job.jobId), scope));
      }
    }

    /** Records a mark for the given job, if any, and for every pending job; jobs with a result keep it. */
    method GiveUpPending(extra: seq<JobPlan>, scope: Scope)
      modifies this`pending, this`latest, this`order, this`timedOut
      ensures Tables() == MarkPending(old(Tables()), extra, scope)
    {
      var jobs := extra + pending;
      ghost var marked := MarkPending(Tables(), extra, scope);
      pending := [];
      var k := 0;
      while k < |jobs|
        invariant 0 <= k <= |jobs|
        invariant MarkEach(Tables(), jobs[k..], scope) == marked
      {
        assert jobs[k..][0] == jobs[k] && jobs[k..][1..] == jobs[k + 1..];
        MarkJob(jobs[k], scope);
        k := k + 1;
      }
    }

    method SubmitJob(deadline: Deadline, job: JobPlan)
      modifies this`pending, this`futures, this`latest, this`order, this`timedOut, this`submitted,
               this`clock, this`abortRequested
      ensures old(clock) <= clock && (old(abortRequested) ==> abortRequested)
      ensures Tables() == Submit(old(Tables()), deadline, job, clock, abortRequested)
      ensures Times(submitted, log) == Pooled(old(Times(submitted, log)), deadline, job, clock, abortRequested)
    {
      var abort := ReadAbort();
      if abort {
        GiveUpPending([job], WatchScope);
        return;
      }
      var now := ReadClock();
      if Expired(deadline, now) {
        GiveUpPending([job], StageScope);
        return;
      }
      futures := futures + [job];
      submitted := submitted[job.jobId := now];
    }

    /** Submits pending jobs while the pool has room; afterwards nothing is pending unless the pool is full. */
    method FillPool(deadline: Deadline, ghost plan: seq<JobPlan>)
      requires cfg.maxWorkers >= 1 && Traced(deadline, plan)
      modifies this
      ensures Traced(deadline, plan) && history == old(history)
      ensures Work(cfg, Tables()) <= old(Work(cfg, Tables()))
      ensures pending != [] ==> |futures| >= cfg.maxWorkers
    {
      while pending != [] && |futures| < cfg.maxWorkers
        invariant Traced(deadline, plan) && history == old(history)
        invariant Work(cfg, Tables()) <= old(Work(cfg, Tables()))
        decreases |pending|
      {
        var job := pending[0];
        pending := pending[1..];
        SubmitJob(deadline, job);
        trace := RunSubmits(cfg, deadline, plan, trace, clock, abortRequested);
      }
    }

    /**
     Records the result of future i and decides what follows: give up, run the job again, or nothing.
     `abort` is the flag as read right after the result was recorded.
     */
    method HandleCompletion(deadline: Deadline, i: nat, r: JobResult) returns (ghost abort: bool)
      requires i < |futures|
      modifies this`pending, this`futures, this`attempts, this`latest, this`order, this`timedOut, this`submitted,
               this`clock, this`abortRequested
      ensures old(clock) <= clock && (old(abortRequested) ==> abort) && (abort ==> abortRequested)
      ensures Tables() == Handle(old(Tables()), cfg, deadline, i, r, abort, clock, abortRequested)
      ensures Times(submitted, log) ==
              if !abort && Retryable(cfg, r)
              then Pooled(old(Times(submitted, log)), deadline, old(futures[i]), clock, abortRequested)
              else old(Times(submitted, log))
    {
      var job := futures[i];
      futures := futures[..i] + futures[i + 1..];
      RecordResult(r);
      var stop := ReadAbort();
      abort := stop;
      if stop {
        GiveUpPending([], WatchScope);
      } else if Retryable(cfg, r) {
        attempts := attempts[r.jobId := r.attempt + 1];
        SubmitJob(deadline, job);
      }
    }

    /** Handles the completion of future i and keeps a record of the attempt. */
    method LogCompletion(deadline: Deadline, i: nat, r: JobResult, ghost readAt: real, ghost outcome: Outcome,
                         ghost seen: bool)
      returns (ghost abort: bool)
      requires i < |futures| && futures[i].jobId in submitted
      modifies this`pending, this`futures, this`attempts, this`latest, this`order, this`timedOut, this`submitted,
               this`history, this`log, this`clock, this`abortRequested
      ensures old(clock) <= clock && (old(abortRequested) ==> abort) && (abort ==> abortRequested)
      ensures Tables() == Handle(old(Tables()), cfg, deadline, i, r, abort, clock, abortRequested)
      ensures history == old(history) + [r]
      ensures Times(submitted, log) ==
              Handled(old(Times(submitted, log)), cfg, deadline, old(futures[i]),
                      AttemptFor(old(Times(submitted, log)), cfg, deadline, old(futures[i]), readAt, outcome, seen,
                                 old(clock)),
                      r, abort, clock, abortRequested)
    {
      history := history + [r];
      log := log + [AttemptFor(Times(submitted, log), cfg, deadline, futures[i], readAt, outcome, seen, clock)];
      abort := HandleCompletion(deadline, i, r);
    }

    /** One turn of the dispatch loop: wait for a completion, handle it, check the deadline, refill the pool. */
    method NextCompletion(deadline: Deadline, ghost plan: seq<JobPlan>)
      requires cfg.maxWorkers >= 1 && Traced(deadline, plan) && futures != []
      modifies this
      ensures Traced(deadline, plan) && |history| == old(|history|) + 1
      ensures Work(cfg, Tables()) < old(Work(cfg, Tables()))
      ensures pending != [] ==> |futures| >= cfg.maxWorkers
    {
      CompleteOne(deadline, plan);
      CheckDeadline(deadline, plan);
      FillPool(deadline, plan);
    }

    method CompleteOne(deadline: Deadline, ghost plan: seq<JobPlan>)
      requires Traced(deadline, plan) && futures != []
      modifies this
      ensures Traced(deadline, plan) && |history| == old(|history|) + 1
      ensures Work(cfg, Tables()) < old(Work(cfg, Tables()))
    {
      PooledSoFar(cfg, deadline, plan, trace);
      var i, r, readAt, outcome, seen := AwaitCompletion(deadline);
      ghost var y := Snapshot();
      ghost var abort := LogCompletion(deadline, i, r, readAt, outcome, seen);
      trace := RunCompletes(cfg, deadline, plan, trace, y, i, readAt, outcome, seen, r, abort, clock, abortRequested);
    }

    method CheckDeadline(deadline: Deadline, ghost plan: seq<JobPlan>)
      requires Traced(deadline, plan)
      modifies this
      ensures Traced(deadline, plan) && history == old(history)
      ensures Work(cfg, Tables()) <= old(Work(cfg, Tables()))
      ensures Expired(deadline, clock) ==> pending == []
    {
      var now := ReadClock();
      trace := RunEnvironment(cfg, deadline, plan, trace, clock, abortRequested);
      if Expired(deadline, now) {
        ghost var y := Snapshot();
        GiveUpPending([], StageScope);
        MarkAllWork(cfg, y.s, StageScope);
        ExtendRun(cfg, deadline, plan, trace, GiveUp, Snapshot());
        trace := trace + [Snapshot()];
      }
    }

    /** Empties the tables, queues the plan and works out the deadline. */
    method Start(plan: seq<JobPlan>) returns (deadline: Deadline)
      modifies this
      ensures Tables() == Initial(plan) && history == [] && submitted == map[] && log == []
      ensures deadline.None? <==> cfg.stageTimeout.None?
      ensures old(clock) <= clock && (deadline.Some? ==> deadline.value == clock + cfg.stageTimeout.value as real)
    {
      var start := ReadClock();
      attempts := map id | id in JobIds(plan) :: 0;
      pending, futures, latest, order, timedOut := plan, [], map[], [], {};
      submitted, history, log := map[], [], [];
      deadline := match cfg.stageTimeout
        case None => None
        case Some(t) => Some(start + t as real);
    }

    /** Fills the pool and takes completions until nothing is left to do. */
    method DrainPool(deadline: Deadline, ghost plan: seq<JobPlan>)
      requires cfg.maxWorkers >= 1 && Traced(deadline, plan)
      modifies this
      ensures Traced(deadline, plan) && pending == [] && futures == []
    {
      FillPool(deadline, plan);
      while futures != []
        invariant Traced(deadline, plan)
        invariant pending != [] ==> |futures| >= cfg.maxWorkers
        decreases Work(cfg, Tables())
      {
        NextCompletion(deadline, plan);
      }
    }

    /**
     Runs every job of the plan to a recorded result. Whatever the order of completions, their outcomes, the
     clock and the abort flag do, the run ends and is a run of the step system, every planned job has exactly
     one result, each job's attempts obey the retry discipline, and the lists of failed and timed-out jobs follow from
     what the executor did in the last attempts.
     */
    method RunJobs(plan: seq<JobPlan>) returns (r: Result<DispatchResult, DispatchError>, ghost deadline: Deadline)
      requires Distinct(JobIds(plan))
      modifies this
      ensures r.Err? <==> cfg.maxWorkers <= 0
      ensures r.Ok? ==> Traced(deadline, plan) && Accounted(plan, r.value)
      ensures r.Ok? ==> ListsJobs(r.value.failedJobIds, r.value.results, (x: JobResult) => x.exitCode != 0)
      ensures r.Ok? ==> ListsJobs(r.value.timedOutJobIds, r.value.results, (x: JobResult) => x.timedOut)
      ensures r.Ok? ==> |history| <= |plan| * Allowed(cfg) && AllTimed(cfg, deadline, history, log, clock)
      ensures deadline.None? <==> cfg.stageTimeout.None?
      ensures deadline.Some? ==> deadline.value >= old(clock) + cfg.stageTimeout.value as real
      ensures r.Ok? && deadline.Some? ==> forall n :: 0 <= n < |log| ==>
                deadline.value <= log[n].submittedAt + cfg.stageTimeout.value as real
      ensures r.Ok? ==> ListedByRecord(cfg, deadline, plan, log, r.value)
      ensures r.Ok? ==> forall job :: job in plan ==> SettledWith(deadline, job, r.value)
    {
      var stageDeadline := Start(plan);
      deadline := stageDeadline;
      if cfg.maxWorkers <= 0 {
        r := Err(InvalidPoolSize);
        return;
      }
      trace := [Snapshot()];
      DrainPool(stageDeadline, plan);
      CompletionsBounded(cfg, stageDeadline, plan, trace, |trace| - 1);
      AttemptsTimed(cfg, stageDeadline, plan, trace, |trace| - 1);
      DeadlineFromStart(cfg, stageDeadline, plan, trace, |trace| - 1);
      var d := CollectResults(stageDeadline, plan);
      ListsFollowRecord(cfg, stageDeadline, plan, Snapshot(), d);
      r := Ok(d);
    }

    method CollectResults(deadline: Deadline, plan: seq<JobPlan>) returns (d: DispatchResult)
      requires Traced(deadline, plan) && pending == [] && futures == []
      ensures Accounted(plan, d)
      ensures ListsJobs(d.failedJobIds, d.results, (x: JobResult) => x.exitCode != 0)
      ensures ListsJobs(d.timedOutJobIds, d.results, (x: JobResult) => x.timedOut)
      ensures forall id :: id in d.failedJobIds <==> id in latest && latest[id].exitCode != 0
      ensures forall id :: id in d.timedOutJobIds <==> id in latest && latest[id].timedOut
      ensures forall job :: job in plan ==> SettledWith(deadline, job, d)
    {
      ghost var x := Snapshot();
      RunKeepsInv(cfg, deadline, plan, trace, |trace| - 1);
      var results := InOrder(order, latest);
      var failed := SortIds(set id | id in latest && latest[id].exitCode != 0);
      var late := SortIds(timedOut);
      d := DispatchResult(results, failed, late);
      RecordedAccounts(cfg, deadline, plan, x, d);
      RecordedLists(plan, x.s, failed, (r: JobResult) => r.exitCode != 0);
      RecordedLists(plan, x.s, late, (r: JobResult) => r.timedOut);
    }
  }

  method SortIds(ids: set<string>) returns (r: seq<string>)
    ensures Sorted(r, StrLess) && Distinct(r)
    ensures forall id :: id in r <==> id in ids
  {
    var left := ids;
    r := [];
    StrLessWeak();
    while left != {}
      invariant left <= ids
      invariant Sorted(r, StrLess) && Distinct(r)
      invariant forall id :: id in r <==> id in ids - left
      decreases left
    {
      var id :| id in left;
      left := left - {id};
      InsertSorted(id, r, StrLess);
      InsertKeepsDistinct(id, r);
      r := Insert(id, r, StrLess);
    }
  }

  lemma InsertKeepsDistinct(x: string, s: seq<string>)
    requires Distinct(s) && x !in s
    ensures Distinct(Insert(x, s, StrLess)) && forall y :: y in Insert(x, s, StrLess) <==> y in s || y == x
  {
    if s != [] && StrLess(s[0], x) {
      InsertKeepsDistinct(x, s[1..]);
      assert s[0] !in s[1..];
    }
  }
}
