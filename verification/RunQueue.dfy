/**
 The shared run queue and its workers, as values: records of runs and workers, and what each operation of
 the store does to them in one transaction. Times are whole numbers; the empty string is "no worker".
 */
module RunQueue {
  import opened Wrappers
  import opened Text

  datatype RunState = Queued | Running | Completed | Failed | Canceled | DryRun

  datatype RunRequest = RunRequest(
    priority: int, routingLabels: seq<string>,
    metadataPriority: Option<int>, metadataLabels: Option<seq<string>>)

  datatype RunResult = RunResult(ok: bool, state: RunState, summary: string)

  /** The state is stored three times: in the record, in its status and in the status of its response. */
  datatype Run = Run(
    state: RunState, statusState: RunState, responseState: RunState,
    claimedBy: string, queuedAt: int, createdAt: int, claimedAt: Option<int>,
    request: RunRequest, result: Option<RunResult>)

  datatype Worker = Worker(
    labels: seq<string>, capacity: int, activeLeases: int, health: string, createdAt: int, heartbeatAt: Option<int>)

  datatype Store = Store(runs: map<string, Run>, workers: map<string, Worker>)

  // ----- labels and priorities

  /** Trimmed, blank entries dropped, first occurrences kept. */
  function Normalized(values: seq<string>): (r: seq<string>) {
    if values == [] then []
    else
      var n := |values| - 1;
      var init := Normalized(values[..n]);
      var item := Trim(values[n]);
      if item == "" || item in init then init else init + [item]
  }

  function RoutingLabels(q: RunRequest): (r: seq<string>) {
    Normalized(if q.metadataLabels.Some? then q.metadataLabels.value else q.routingLabels)
  }

  function Priority(q: RunRequest): (p: int) {
    if q.metadataPriority.Some? then q.metadataPriority.value else q.priority
  }

  /** The labels a worker must have: those of the request itself, not of its metadata. */
  predicate Eligible(q: RunRequest, labels: seq<string>) {
    labels == [] || forall l :: l in Normalized(q.routingLabels) ==> l in labels
  }

  // ----- worker availability

  predicate HeartbeatStale(w: Worker, timeout: int, now: int) {
    var reference := if w.heartbeatAt.Some? then w.heartbeatAt.value else w.createdAt;
    timeout > 0 && now - reference > timeout
  }

  function ReportedHealth(w: Worker, timeout: int, now: int): (h: string) {
    var health := Lower(Trim(w.health));
    if HeartbeatStale(w, timeout, now) && health != "unhealthy" && health != "offline" then "stale" else health
  }

  predicate Available(w: Worker, timeout: int, now: int) {
    var health := ReportedHealth(w, timeout, now);
    health != "unhealthy" && health != "stale" && w.activeLeases < w.capacity
  }

  // ----- claim policies

  function LabelScore(q: RunRequest, labels: seq<string>): (n: nat) {
    if labels == [] then |RoutingLabels(q)|
    else |set l | l in RoutingLabels(q) && l in labels|
  }

  /** The numbers a policy compares, most important first; the run id breaks ties. */
  function PolicyNumbers(run: Run, policy: string, labels: seq<string>): (k: seq<int>) {
    if policy == "lifo" then [-run.queuedAt, -run.createdAt]
    else if policy == "priority" then [-Priority(run.request), run.queuedAt, run.createdAt]
    else if policy == "affinity" then
      [-(LabelScore(run.request, labels) as int), -Priority(run.request), run.queuedAt, run.createdAt]
    else [run.queuedAt, run.createdAt]
  }

  predicate NumbersLess(a: seq<int>, b: seq<int>) {
    b != [] && (a == [] || a[0] < b[0] || (a[0] == b[0] && NumbersLess(a[1..], b[1..])))
  }

  predicate KeyLess(a: seq<int>, x: string, b: seq<int>, y: string) {
    NumbersLess(a, b) || (a == b && StrLess(x, y))
  }

  predicate Before(runs: map<string, Run>, policy: string, labels: seq<string>, x: string, y: string)
    requires x in runs && y in runs
  {
    KeyLess(PolicyNumbers(runs[x], policy, labels), x, PolicyNumbers(runs[y], policy, labels), y)
  }

  function Candidates(runs: map<string, Run>, labels: seq<string>): (ids: set<string>)
    ensures ids <= runs.Keys
  {
    set id | id in runs && runs[id].state == Queued && Eligible(runs[id].request, labels)
  }

  predicate IsFirst(runs: map<string, Run>, policy: string, labels: seq<string>, ids: set<string>, x: string)
    requires ids <= runs.Keys
  {
    x in ids && forall y :: y in ids && y != x ==> Before(runs, policy, labels, x, y)
  }

  // ----- operations

  function PolicyName(policy: string): (p: string) {
    Lower(Trim(if policy == "" then "fifo" else policy))
  }

  function Create(s: Store, id: string, request: RunRequest, now: int): (t: Store) {
    var createdAt := if id in s.runs then s.runs[id].createdAt else now;
    s.(runs := s.runs[id := Run(Queued, Queued, Queued, "", now, createdAt, None, request, None)])
  }

  function NewWorker(now: int): (w: Worker) {
    Worker([], 1, 0, "healthy", now, None)
  }

  function WorkerOrNew(s: Store, id: string, now: int): (w: Worker) {
    if id in s.workers then s.workers[id] else NewWorker(now)
  }

  function Register(s: Store, id: string, labels: seq<string>, capacity: int, health: string, now: int): (t: Store) {
    var w := WorkerOrNew(s, id, now);
    s.(workers := s.workers[id := w.(
      labels := Normalized(labels),
      capacity := if capacity < 1 then 1 else capacity,
      health := if Trim(health) == "" then "healthy" else Trim(health))])
  }

  function HeartbeatWorker(s: Store, id: string, now: int): (t: Store) {
    if id in s.workers then s.(workers := s.workers[id := s.workers[id].(heartbeatAt := Some(now))]) else s
  }

  /** The worker as a claim sees it: created on first sight, labels replaced if any are given. */
  function ClaimingWorker(s: Store, id: string, labels: seq<string>, now: int): (w: Worker) {
    var w := WorkerOrNew(s, id, now);
    if labels == [] then w else w.(labels := labels)
  }

  predicate ClaimRefused(s: Store, worker: string, labels: seq<string>, timeout: int, now: int) {
    worker != "" && !Available(ClaimingWorker(s, worker, labels, now), timeout, now)
  }

  /** Hands run `id` to the worker. */
  function Grant(s: Store, id: string, worker: string, labels: seq<string>, now: int): (t: Store)
    requires id in s.runs
  {
    var run := s.runs[id].(state := Running, statusState := Running, responseState := Running,
                           claimedBy := worker, claimedAt := Some(now));
    var w := ClaimingWorker(s, worker, labels, now);
    Store(s.runs[id := run],
          if worker == "" then s.workers
          else s.workers[worker := w.(activeLeases := (if w.activeLeases < 0 then 0 else w.activeLeases) + 1,
                                      heartbeatAt := Some(now))])
  }

  function Release(s: Store, worker: string): (t: Store) {
    if worker != "" && worker in s.workers then
      var w := s.workers[worker];
      s.(workers := s.workers[worker := w.(activeLeases := if w.activeLeases - 1 < 0 then 0 else w.activeLeases - 1)])
    else s
  }

  function HeartbeatRun(s: Store, id: string, worker: string, now: int): (t: Store) {
    if id in s.runs && s.runs[id].statusState in {Queued, Running} then
      var t := s.(runs := s.runs[id := s.runs[id].(responseState := s.runs[id].statusState)]);
      if worker == "" then t else HeartbeatWorker(t, worker, now)
    else s
  }

  function SetState(run: Run, state: RunState): (r: Run) {
    run.(state := state, statusState := state, responseState := state)
  }

  function Cancel(s: Store, id: string): (t: Store) {
    if id in s.runs && s.runs[id].statusState != Canceled && s.runs[id].statusState != Completed then
      Release(s.(runs := s.runs[id := SetState(s.runs[id], Canceled)]), s.runs[id].claimedBy)
    else s
  }

  predicate Terminal(state: RunState) {
    state == Canceled || state == Completed || state == Failed
  }

  function Complete(s: Store, id: string, result: RunResult): (t: Store) {
    if id in s.runs && !Terminal(s.runs[id].state) then
      Release(s.(runs := s.runs[id := SetState(s.runs[id], result.state).(result := Some(result))]),
              s.runs[id].claimedBy)
    else s
  }

  // ----- steps

  datatype Action =
    | DoCreate(id: string, request: RunRequest, now: int)
    | DoRegister(worker: string, labels: seq<string>, capacity: int, health: string, now: int)
    | DoHeartbeatWorker(worker: string, now: int)
    | DoClaim(worker: string, labels: seq<string>, policy: string, now: int)
    | DoHeartbeatRun(id: string, worker: string, now: int)
    | DoCancel(id: string)
    | DoComplete(id: string, result: RunResult)

  /** One transaction. A claim takes the first candidate; if refused or without candidates it changes nothing. */
  ghost predicate Step(s: Store, timeout: int, a: Action, t: Store) {
    match a
    case DoCreate(id, request, now) => t == Create(s, id, request, now)
    case DoRegister(worker, labels, capacity, health, now) => t == Register(s, worker, labels, capacity, health, now)
    case DoHeartbeatWorker(worker, now) => t == HeartbeatWorker(s, worker, now)
    case DoClaim(worker, labels, policy, now) =>
      (exists id :: Grants(s, timeout, worker, labels, policy, now, id)
                    && t == Grant(s, id, worker, Normalized(labels), now))
      || (NoGrant(s, timeout, worker, labels, now) && t == s)
    case DoHeartbeatRun(id, worker, now) => t == HeartbeatRun(s, id, worker, now)
    case DoCancel(id) => t == Cancel(s, id)
    case DoComplete(id, result) => t == Complete(s, id, result)
  }

  predicate Grants(s: Store, timeout: int, worker: string, labels: seq<string>, policy: string, now: int, id: string) {
    var norm := Normalized(labels);
    && !ClaimRefused(s, worker, norm, timeout, now)
    && IsFirst(s.runs, PolicyName(policy), norm, Candidates(s.runs, norm), id)
  }

  predicate NoGrant(s: Store, timeout: int, worker: string, labels: seq<string>, now: int) {
    ClaimRefused(s, worker, Normalized(labels), timeout, now) || Candidates(s.runs, Normalized(labels)) == {}
  }
}
