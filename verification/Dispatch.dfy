/**
 The controller of one dispatched stage, as a step system over values: which jobs wait, which are in
 flight, the latest result of each, and the environment it reads (clock and watch-abort flag).
 Completions arrive in any order with arbitrary outcomes. The class in Dispatcher.dfy runs these steps.
 */
module Dispatch {
  import opened Wrappers
  import opened Sequences
  import opened Jobs

  // ----- configuration, results

  datatype Config = Config(maxWorkers: int, maxRetries: int, jobTimeout: Option<int>, stageTimeout: Option<int>)

  datatype Scope = StageScope | JobScope | WatchScope

  datatype JobResult = JobResult(
    jobId: string, attempt: nat, exitCode: int, started: bool, timedOut: bool,
    scope: Option<Scope>, itemIds: seq<string>)

  /** What the executor did with a command: an exit code and a timeout flag, or an exception. */
  datatype Outcome = Ran(exitCode: int, timedOut: bool) | Raised

  // ----- time budget of one attempt

  type Deadline = Option<real>

  function RemainingStageSeconds(deadline: Deadline, now: real): (r: Option<nat>) {
    match deadline
    case None => None
    case Some(d) =>
      var remaining := d - now;
      if remaining <= 0.0 then Some(0)
      else Some(if remaining.Floor < 1 then 1 else remaining.Floor)
  }

  predicate Expired(deadline: Deadline, now: real) {
    RemainingStageSeconds(deadline, now) == Some(0)
  }

  function EffectiveTimeout(cfg: Config, deadline: Deadline, now: real): (r: Option<int>) {
    match (RemainingStageSeconds(deadline, now), cfg.jobTimeout)
    case (None, job) => job
    case (Some(stage), None) => Some(stage)
    case (Some(stage), Some(job)) => Some(if stage < job then stage else job)
  }

  /** The command of an attempt that reads the clock at `now` is started unless its budget is used up. */
  predicate StartsCommand(cfg: Config, deadline: Deadline, now: real) {
    match EffectiveTimeout(cfg, deadline, now)
    case None => true
    case Some(budget) => budget > 0
  }

  /**
   The result of one attempt. `now` is the time of the attempt's own clock reading and `abort` the watch
   flag when its command has ended.
   */
  function RunOne(cfg: Config, deadline: Deadline, job: JobPlan, attempt: nat,
                  now: real, outcome: Outcome, abort: bool): (r: JobResult)
    ensures r.jobId == job.jobId && r.attempt == attempt && r.itemIds == ItemIds(job.items)
    ensures r.exitCode == 0 <==>
            StartsCommand(cfg, deadline, now) && outcome.Ran? && outcome.exitCode == 0 && !abort
    ensures r.started <==> StartsCommand(cfg, deadline, now) && outcome.Ran?
    ensures r.timedOut <==> !StartsCommand(cfg, deadline, now)
                            || (outcome.Ran? && (outcome.timedOut || (abort && outcome.exitCode == 0)))
    ensures r.started && outcome.exitCode != 0 ==> r.exitCode == outcome.exitCode
  {
    if !StartsCommand(cfg, deadline, now) then
      NotStarted(job, attempt, StageScope)
    else
      match outcome
      case Raised => JobResult(job.jobId, attempt, 99, false, false, None, ItemIds(job.items))
      case Ran(rc, timedOut) =>
        if abort && rc == 0 then
          JobResult(job.jobId, attempt, 130, true, true, Some(WatchScope), ItemIds(job.items))
        else
          JobResult(job.jobId, attempt, rc, true, timedOut,
                    if timedOut then Some(TimeoutScope(cfg, deadline, now)) else None, ItemIds(job.items))
  }

  function TimeoutScope(cfg: Config, deadline: Deadline, now: real): (s: Scope) {
    if cfg.stageTimeout.Some?
       && (cfg.jobTimeout.None?
           || match EffectiveTimeout(cfg, deadline, now) case None => false case Some(t) => t < cfg.jobTimeout.value)
    then StageScope else JobScope
  }

  function NotStarted(job: JobPlan, attempt: nat, scope: Scope): (r: JobResult) {
    JobResult(job.jobId, attempt, if scope == WatchScope then 130 else 124, false, true,
              Some(scope), ItemIds(job.items))
  }

  /**
   A started command gets a whole-second budget of at least one second and no more than the job timeout,
   and the budget runs out less than one second after the stage deadline. Past the deadline nothing starts.
   */
  lemma TimeBudget(cfg: Config, deadline: Deadline, now: real)
    ensures StartsCommand(cfg, deadline, now) ==>
              match EffectiveTimeout(cfg, deadline, now)
              case None => deadline.None? && cfg.jobTimeout.None?
              case Some(b) =>
                && 1 <= b
                && (cfg.jobTimeout.Some? ==> b <= cfg.jobTimeout.value)
                && (deadline.Some? ==> now + b as real < deadline.value + 1.0)
    ensures Expired(deadline, now) ==> !StartsCommand(cfg, deadline, now)
    ensures Expired(deadline, now) <==> deadline.Some? && deadline.value <= now
  {}

  // ----- controller state

  datatype State = State(
    pending: seq<JobPlan>,
    futures: seq<JobPlan>,
    attempts: map<string, nat>,
    latest: map<string, JobResult>,
    order: seq<string>,
    timedOut: set<string>)

  function Initial(plan: seq<JobPlan>): (s: State) {
    State(plan, [], map id | id in JobIds(plan) :: 0, map[], [], {})
  }

  /** Stores a result as the latest one of its job; a job keeps the position of its first result. */
  function Record(s: State, r: JobResult): (s': State) {
    s.(latest := s.latest[r.jobId := r],
       order := if r.jobId in s.latest then s.order else s.order + [r.jobId],
       timedOut := if r.timedOut then s.timedOut + {r.jobId} else s.timedOut)
  }

  function AttemptOf(s: State, jobId: string): (n: nat) {
    if jobId in s.attempts then s.attempts[jobId] else 0
  }

  /** A job without a result gets a timeout mark; a job with one keeps it. */
  function Marked(s: State, job: JobPlan, scope: Scope): (s': State) {
    if job.jobId in s.latest then s else Record(s, NotStarted(job, AttemptOf(s, job.jobId), scope))
  }

  function MarkEach(s: State, jobs: seq<JobPlan>, scope: Scope): (s': State)
    decreases |jobs|
  {
    if jobs == [] then s else MarkEach(Marked(s, jobs[0], scope), jobs[1..], scope)
  }

  /** Gives up on the named job, if any, and on everything still pending. */
  function MarkPending(s: State, extra: seq<JobPlan>, scope: Scope): (s': State) {
    MarkEach(s.(pending := []), extra + s.pending, scope)
  }

  function Submit(s: State, deadline: Deadline, job: JobPlan, now: real, abort: bool): (s': State) {
    if abort then MarkPending(s, [job], WatchScope)
    else if Expired(deadline, now) then MarkPending(s, [job], StageScope)
    else s.(futures := s.futures + [job])
  }

  function SubmitNext(s: State, deadline: Deadline, now: real, abort: bool): (s': State)
    requires s.pending != []
  {
    Submit(s.(pending := s.pending[1..]), deadline, s.pending[0], now, abort)
  }

  predicate Retryable(cfg: Config, r: JobResult) {
    r.exitCode != 0 && !r.timedOut && r.attempt < cfg.maxRetries
  }

  /**
   Handles the completion of future i with result r. `abort` is the flag read right after recording the
   result; `now` and `abortLater` are read again if the job is submitted once more.
   */
  function Handle(s: State, cfg: Config, deadline: Deadline, i: nat, r: JobResult,
                  abort: bool, now: real, abortLater: bool): (s': State)
    requires i < |s.futures|
  {
    var job := s.futures[i];
    var recorded := Record(s.(futures := s.futures[..i] + s.futures[i + 1..]), r);
    if abort then
      MarkPending(recorded, [], WatchScope)
    else if Retryable(cfg, r) then
      Submit(recorded.(attempts := recorded.attempts[r.jobId := r.attempt + 1]), deadline, job, now, abortLater)
    else
      recorded
  }

  // ----- what is recorded of attempts

  /**
   One handled attempt: when its job was put into the pool, when the attempt read the clock to work out its
   time budget, that budget, what the executor did with its command if it was started, whether the attempt then
   saw the watch abort, and when its completion was handled.
   */
  datatype Attempt = Attempt(
    jobId: string, submittedAt: real, readAt: real, budget: Option<int>, outcome: Outcome, abortSeen: bool,
    handledAt: real)

  /** When each job was last put into the pool, and the record of the handled attempts. */
  datatype Times = Times(submitted: map<string, real>, log: seq<Attempt>)

  /** A job submitted at `now` enters the pool unless the watch has aborted or the deadline has passed. */
  function Pooled(t: Times, deadline: Deadline, job: JobPlan, now: real, abort: bool): (t': Times) {
    if abort || Expired(deadline, now) then t
    else t.(submitted := t.submitted[job.jobId := now])
  }

  /** The record of an attempt of the job whose completion is handled at `handledAt`. */
  function AttemptFor(t: Times, cfg: Config, deadline: Deadline, job: JobPlan, readAt: real, outcome: Outcome,
                      abortSeen: bool, handledAt: real): (a: Attempt)
    requires job.jobId in t.submitted
  {
    Attempt(job.jobId, t.submitted[job.jobId], readAt, EffectiveTimeout(cfg, deadline, readAt), outcome, abortSeen,
            handledAt)
  }

  /** An attempt of the job is recorded; if its result r allows it, the job may be submitted again at `now`. */
  function Handled(t: Times, cfg: Config, deadline: Deadline, job: JobPlan, a: Attempt, r: JobResult, abort: bool,
                   now: real, abortLater: bool): (t': Times) {
    var logged := t.(log := t.log + [a]);
    if !abort && Retryable(cfg, r) then Pooled(logged, deadline, job, now, abortLater) else logged
  }

  // ----- the whole system: controller, clock, abort flag, the history of handled completions and their record

  datatype System = System(s: State, now: real, abort: bool, history: seq<JobResult>, times: Times)

  datatype Action =
    | Tick(later: real)
    | RaiseAbort
    | SubmitPending
    | Complete(i: nat, readAt: real, outcome: Outcome, abortSeen: bool, abort: bool, now: real, abortLater: bool)
    | GiveUp

  /**
   One atomic step. A completed attempt read the clock in its own thread, at some time after its job was put
   into the pool and before its completion is handled.
   */
  ghost predicate Step(cfg: Config, deadline: Deadline, x: System, a: Action, y: System) {
    match a
    case Tick(later) =>
      x.now <= later && y == x.(now := later)
    case RaiseAbort =>
      y == x.(abort := true)
    case SubmitPending =>
      && x.s.pending != [] && |x.s.futures| < cfg.maxWorkers
      && y == x.(s := SubmitNext(x.s, deadline, x.now, x.abort),
                 times := Pooled(x.times, deadline, x.s.pending[0], x.now, x.abort))
    case Complete(i, readAt, outcome, abortSeen, abort, now, abortLater) =>
      && i < |x.s.futures|
      && (abortSeen ==> x.abort) && (abort <==> x.abort) && (abort ==> abortLater)
      && x.s.futures[i].jobId in x.times.submitted
      && x.times.submitted[x.s.futures[i].jobId] <= readAt <= x.now <= now
      && var job := x.s.futures[i];
         var r := RunOne(cfg, deadline, job, AttemptOf(x.s, job.jobId), readAt, outcome, abortSeen);
         y == System(Handle(x.s, cfg, deadline, i, r, abort, now, abortLater), now, abortLater, x.history + [r],
                     Handled(x.times, cfg, deadline, job,
                             AttemptFor(x.times, cfg, deadline, job, readAt, outcome, abortSeen, x.now),
                             r, abort, now, abortLater))
    case GiveUp =>
      && Expired(deadline, x.now)
      && y == x.(s := MarkPending(x.s, [], StageScope))
  }

  ghost predicate Next(cfg: Config, deadline: Deadline, x: System, y: System) {
    exists a :: Step(cfg, deadline, x, a, y)
  }

  /** A run: starts with every job pending and takes one step at a time. The stage timeout counts from the start. */
  ghost predicate IsRun(cfg: Config, deadline: Deadline, plan: seq<JobPlan>, run: seq<System>) {
    && run != []
    && (deadline.None? <==> cfg.stageTimeout.None?)
    && (deadline.Some? ==> deadline.value == run[0].now + cfg.stageTimeout.value as real)
    && run[0].s == Initial(plan) && run[0].history == [] && run[0].times == Times(map[], [])
    && forall j, k :: 0 <= j < |run| - 1 && k == j + 1 ==> Next(cfg, deadline, run[j], run[k])
  }

  // ----- invariant

  function AttemptsOf(history: seq<JobResult>, jobId: string): (r: seq<JobResult>)
  {
    if history == [] then []
    else
      var last := history[|history| - 1];
      AttemptsOf(history[..|history| - 1], jobId) + (if last.jobId == jobId then [last] else [])
  }

  /** What the tables say about one job. */
  datatype JobView = JobView(waits: bool, flies: bool, tries: seq<JobResult>, attempt: nat, latest: Option<JobResult>)

  ghost function ViewOf(x: System, job: JobPlan): (v: JobView) {
    JobView(job in x.s.pending, job in x.s.futures, AttemptsOf(x.history, job.jobId), AttemptOf(x.s, job.jobId),
            if job.jobId in x.s.latest then Some(x.s.latest[job.jobId]) else None)
  }

  /** Attempts 0, 1, 2, ... none skipped, and every attempt but the last one failed plainly below the limit. */
  ghost predicate Disciplined(cfg: Config, a: seq<JobResult>) {
    && (forall k :: 0 <= k < |a| ==> a[k].attempt == k)
    && (forall k :: 0 <= k < |a| - 1 ==> a[k].exitCode != 0 && !a[k].timedOut && k < cfg.maxRetries)
  }

  /** What has stopped the stage so far: a watch abort, the deadline, or both. */
  datatype Stop = Stop(abort: bool, expired: bool) {
    predicate Any() {
      abort || expired
    }

    /** The reason for marking jobs with the given scope. */
    predicate Explains(scope: Scope) {
      (scope == WatchScope && abort) || (scope == StageScope && expired)
    }
  }

  function Stopped(deadline: Deadline, x: System): (stop: Stop) {
    Stop(x.abort, deadline.Some? && deadline.value <= x.now)
  }

  ghost predicate Waiting(v: JobView) {
    !v.flies && v.tries == [] && v.attempt == 0 && v.latest == None
  }

  ghost predicate Running(cfg: Config, v: JobView) {
    && Disciplined(cfg, v.tries) && v.attempt == |v.tries|
    && (if v.tries == [] then v.latest == None
        else v.latest == Some(v.tries[|v.tries| - 1]) && Retryable(cfg, v.tries[|v.tries| - 1]))
  }

  /** The result of a job that never ran says so, and why: the watch aborted or the deadline passed. */
  predicate MarkedBy(stop: Stop, job: JobPlan, r: JobResult) {
    && r.jobId == job.jobId && r.itemIds == ItemIds(job.items)
    && !r.started && r.timedOut && r.attempt == 0
    && ((stop.abort && r.scope == Some(WatchScope) && r.exitCode == 130)
        || (stop.expired && r.scope == Some(StageScope) && r.exitCode == 124))
  }

  /**
   A settled job has a recorded result: its last attempt, or, if it never ran, a timeout mark. A plain failure
   below the retry limit, or a mark, is left only when the watch aborted or the deadline passed.
   */
  ghost predicate Settled(cfg: Config, stop: Stop, job: JobPlan, v: JobView) {
    && Disciplined(cfg, v.tries)
    && v.latest.Some?
    && var r := v.latest.value;
       if v.tries == [] then MarkedBy(stop, job, r)
       else r == v.tries[|v.tries| - 1]
            && (r.exitCode != 0 && !r.timedOut && r.attempt < cfg.maxRetries ==> stop.Any())
  }

  ghost predicate JobOk(cfg: Config, stop: Stop, job: JobPlan, v: JobView) {
    if v.waits then Waiting(v)
    else if v.flies then Running(cfg, v)
    else Settled(cfg, stop, job, v)
  }

  ghost predicate JobsOk(cfg: Config, deadline: Deadline, plan: seq<JobPlan>, x: System) {
    forall job :: job in plan ==> JobOk(cfg, Stopped(deadline, x), job, ViewOf(x, job))
  }

  /** The result tables agree with each other and with the plan. */
  ghost predicate TableInv(plan: seq<JobPlan>, s: State) {
    && Distinct(s.order)
    && (forall id :: id in s.order <==> id in s.latest)
    && (forall id :: id in s.timedOut <==> id in s.latest && s.latest[id].timedOut)
    && (forall id :: id in s.latest ==> FromPlan(plan, id, s.latest[id]))
  }

  ghost predicate FromPlan(plan: seq<JobPlan>, id: string, r: JobResult) {
    exists job :: job in plan && job.jobId == id == r.jobId && r.itemIds == ItemIds(job.items)
  }

  ghost predicate QueueInv(cfg: Config, plan: seq<JobPlan>, s: State) {
    && (forall j :: j in s.pending ==> j in plan) && Distinct(s.pending)
    && (forall j :: j in s.futures ==> j in plan) && Distinct(s.futures)
    && (s.futures == [] || |s.futures| <= cfg.maxWorkers)
  }

  ghost predicate Inv(cfg: Config, deadline: Deadline, plan: seq<JobPlan>, x: System) {
    && Distinct(JobIds(plan)) && TableInv(plan, x.s) && QueueInv(cfg, plan, x.s) && JobsOk(cfg, deadline, plan, x)
  }

  // ----- work left

  /** How often one job may run. */
  function Allowed(cfg: Config): (n: nat) {
    if cfg.maxRetries < 0 then 1 else cfg.maxRetries + 1
  }

  function RunsLeft(cfg: Config, s: State, job: JobPlan): (n: nat) {
    if AttemptOf(s, job.jobId) < Allowed(cfg) then Allowed(cfg) - AttemptOf(s, job.jobId) else 0
  }

  function FlightWork(cfg: Config, s: State, jobs: seq<JobPlan>): (n: nat) {
    if jobs == [] then 0
    else FlightWork(cfg, s, jobs[..|jobs| - 1]) + RunsLeft(cfg, s, jobs[|jobs| - 1])
  }

  /** How many more completions can be handled at most. */
  function Work(cfg: Config, s: State): (n: nat) {
    |s.pending| * Allowed(cfg) + FlightWork(cfg, s, s.futures)
  }
}
