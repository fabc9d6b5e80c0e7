/**
 Lease accounting: a worker's active leases against the runs it is running. What every operation does to
 the equation, exactly when an operation breaks it, and that guarded sequences of operations never do.
 */
module QueueLeases {
  import opened Wrappers
  import opened RunQueue

  /** The runs a worker is running. */
  function Held(runs: map<string, Run>, worker: string): (ids: set<string>)
    ensures forall id :: id in ids <==> id in runs && runs[id].state == Running && runs[id].claimedBy == worker
  {
    set id | id in runs && runs[id].state == Running && runs[id].claimedBy == worker
  }

  /** Every worker's active leases equal the number of its running runs. */
  ghost predicate LeasesExact(s: Store) {
    forall w :: w in s.workers && w != "" ==> s.workers[w].activeLeases == |Held(s.runs, w)|
  }

  /** The three stored copies of a state agree, and claims name registered workers. */
  ghost predicate Consistent(s: Store) {
    forall id :: id in s.runs ==> RunConsistent(s, s.runs[id])
  }

  predicate RunConsistent(s: Store, run: Run) {
    && run.state == run.statusState == run.responseState
    && (run.claimedBy != "" ==> run.claimedBy in s.workers)
  }

  /** After every operation, guarded or not, the stored copies of every state agree. */
  lemma StepKeepsConsistent(s: Store, timeout: int, a: Action, t: Store)
    requires Consistent(s) && Step(s, timeout, a, t)
    ensures Consistent(t)
  {}

  // ----- how one changed run changes the held sets

  /** Changing one run changes what a worker holds by that run at most. */
  lemma HeldAfter(runs: map<string, Run>, id: string, run: Run, w: string)
    ensures var before := id in runs && runs[id].state == Running && runs[id].claimedBy == w;
            var after := run.state == Running && run.claimedBy == w;
            |Held(runs[id := run], w)| == |Held(runs, w)| - (if before then 1 else 0) + (if after then 1 else 0)
  {
    var was, now := Held(runs, w), Held(runs[id := run], w);
    if run.state == Running && run.claimedBy == w {
      assert now == (was - {id}) + {id};
    } else {
      assert now == was - {id};
    }
  }

  // ----- exactly when an operation breaks the equation

  /** The run is held by a registered worker. */
  predicate HeldByWorker(s: Store, run: Run) {
    run.claimedBy != "" && run.claimedBy in s.workers
  }

  /**
   An operation that moves a run to a new state and releases its worker keeps the equation if the run was
   running and stops, or was not running, does not start, and the worker has no lease left to take.
   */
  predicate ReleaseFits(s: Store, run: Run, next: RunState) {
    HeldByWorker(s, run) ==>
      next != Running && (run.state == Running || s.workers[run.claimedBy].activeLeases == 0)
  }

  /** The condition under which an operation leaves lease accounting exact, checked before the operation. */
  predicate KeepsLeases(s: Store, a: Action) {
    match a
    case DoCreate(id, request, now) =>
      id in s.runs ==> !(s.runs[id].state == Running && HeldByWorker(s, s.runs[id]))
    case DoCancel(id) =>
      id in s.runs && s.runs[id].state != Canceled && s.runs[id].state != Completed ==>
        ReleaseFits(s, s.runs[id], Canceled)
    case DoComplete(id, result) =>
      id in s.runs && !Terminal(s.runs[id].state) ==> ReleaseFits(s, s.runs[id], result.state)
    case _ => true
  }

  lemma CreateLeases(s: Store, id: string, request: RunRequest, now: int)
    requires Consistent(s) && LeasesExact(s)
    ensures LeasesExact(Create(s, id, request, now)) <==> KeepsLeases(s, DoCreate(id, request, now))
  {
    var t := Create(s, id, request, now);
    forall w | w in s.workers && w != ""
      ensures t.workers[w].activeLeases == |Held(t.runs, w)| <==>
              !(id in s.runs && s.runs[id].state == Running && s.runs[id].claimedBy == w)
    {
      HeldAfter(s.runs, id, t.runs[id], w);
    }
  }

  lemma GrantLeases(s: Store, id: string, worker: string, labels: seq<string>, now: int)
    requires LeasesExact(s) && id in s.runs && s.runs[id].state == Queued
    requires worker !in s.workers ==> forall k :: k in s.runs ==> s.runs[k].claimedBy != worker || worker == ""
    ensures LeasesExact(Grant(s, id, worker, labels, now))
  {
    var t := Grant(s, id, worker, labels, now);
    forall w | w in t.workers && w != ""
      ensures t.workers[w].activeLeases == |Held(t.runs, w)|
    {
      HeldAfter(s.runs, id, t.runs[id], w);
      if w !in s.workers {
        assert Held(s.runs, w) == {};
      }
    }
  }

  /** Moving a run to another state and releasing its worker. */
  lemma ReleaseLeases(s: Store, id: string, run: Run, t: Store)
    requires LeasesExact(s) && id in s.runs && run.claimedBy == s.runs[id].claimedBy
    requires t == Release(s.(runs := s.runs[id := run]), run.claimedBy)
    ensures LeasesExact(t) <==> ReleaseFits(s, s.runs[id], run.state)
  {
    var c := run.claimedBy;
    forall w | w in s.workers && w != "" && w != c
      ensures t.workers[w].activeLeases == |Held(t.runs, w)|
    {
      HeldAfter(s.runs, id, run, w);
    }
    if c in s.workers && c != "" {
      HeldAfter(s.runs, id, run, c);
      if s.runs[id].state == Running {
        assert id in Held(s.runs, c);
      }
    }
  }

  lemma HeartbeatRunLeases(s: Store, id: string, worker: string, now: int)
    requires LeasesExact(s)
    ensures LeasesExact(HeartbeatRun(s, id, worker, now))
  {
    var t := HeartbeatRun(s, id, worker, now);
    forall w | w in t.workers && w != ""
      ensures t.workers[w].activeLeases == |Held(t.runs, w)|
    {
      if id in s.runs {
        HeldAfter(s.runs, id, t.runs[id], w);
        assert t.runs == s.runs[id := t.runs[id]];
      }
    }
  }

  /** From exact accounting, an operation leads to exact accounting if and only if its condition holds. */
  lemma LeasesKeptExactlyWhen(s: Store, timeout: int, a: Action, t: Store)
    requires Consistent(s) && LeasesExact(s) && Step(s, timeout, a, t)
    ensures LeasesExact(t) <==> KeepsLeases(s, a)
  {
    match a
    case DoCreate(id, request, now) => CreateLeases(s, id, request, now);
    case DoRegister(worker, labels, capacity, health, now) =>
    case DoHeartbeatWorker(worker, now) =>
    case DoClaim(worker, labels, policy, now) =>
      forall k | k in s.runs
        ensures RunConsistent(s, s.runs[k])
      {}
      if id :| Grants(s, timeout, worker, labels, policy, now, id)
               && t == Grant(s, id, worker, Normalized(labels), now) {
        GrantLeases(s, id, worker, Normalized(labels), now);
      }
    case DoHeartbeatRun(id, worker, now) => HeartbeatRunLeases(s, id, worker, now);
    case DoCancel(id) =>
      if id in s.runs {
        assert RunConsistent(s, s.runs[id]);
        ReleaseLeases(s, id, SetState(s.runs[id], Canceled),
                      Release(s.(runs := s.runs[id := SetState(s.runs[id], Canceled)]), s.runs[id].claimedBy));
      }
    case DoComplete(id, result) =>
      if id in s.runs {
        var run := SetState(s.runs[id], result.state).(result := Some(result));
        ReleaseLeases(s, id, run, Release(s.(runs := s.runs[id := run]), s.runs[id].claimedBy));
      }
  }

  // ----- guarded operations

  /** New runs get unused ids, results are terminal, and failed runs are not canceled. */
  predicate Guarded(s: Store, a: Action) {
    match a
    case DoCreate(id, request, now) => id !in s.runs
    case DoComplete(id, result) => Terminal(result.state)
    case DoCancel(id) => id in s.runs ==> s.runs[id].state != Failed
    case _ => true
  }

  /** No worker is registered with less capacity than it has active leases. */
  predicate KeepsCapacity(s: Store, a: Action) {
    a.DoRegister? && a.worker in s.workers ==>
      s.workers[a.worker].activeLeases <= (if a.capacity < 1 then 1 else a.capacity)
  }

  /** What guarded operations keep, besides exact leases: no dry runs, and queued runs are unclaimed. */
  ghost predicate Orderly(s: Store) {
    && Consistent(s) && LeasesExact(s)
    && (forall id :: id in s.runs ==>
          s.runs[id].state != DryRun && (s.runs[id].state == Queued ==> s.runs[id].claimedBy == ""))
    && (forall w :: w in s.workers ==> s.workers[w].activeLeases >= 0)
  }

  ghost predicate WithinCapacity(s: Store) {
    forall w :: w in s.workers ==> s.workers[w].activeLeases <= s.workers[w].capacity
  }

  lemma StepKeepsOrderly(s: Store, timeout: int, a: Action, t: Store)
    requires Orderly(s) && Guarded(s, a) && Step(s, timeout, a, t)
    ensures Orderly(t)
  {
    StepKeepsConsistent(s, timeout, a, t);
    LeasesKeptExactlyWhen(s, timeout, a, t);
    StepKeepsUnclaimed(s, timeout, a, t);
    StepKeepsLeasesPositive(s, timeout, a, t);
  }

  lemma StepKeepsUnclaimed(s: Store, timeout: int, a: Action, t: Store)
    requires Orderly(s) && Guarded(s, a) && Step(s, timeout, a, t)
    ensures forall id :: id in t.runs ==>
              t.runs[id].state != DryRun && (t.runs[id].state == Queued ==> t.runs[id].claimedBy == "")
  {}

  lemma StepKeepsLeasesPositive(s: Store, timeout: int, a: Action, t: Store)
    requires Step(s, timeout, a, t) && forall w :: w in s.workers ==> s.workers[w].activeLeases >= 0
    ensures forall w :: w in t.workers ==> t.workers[w].activeLeases >= 0
  {}

  /** From within capacity, an operation stays there if and only if it registers no worker below its leases. */
  lemma CapacityKeptExactlyWhen(s: Store, timeout: int, a: Action, t: Store)
    requires WithinCapacity(s) && Step(s, timeout, a, t)
    requires forall w :: w in s.workers ==> s.workers[w].activeLeases >= 0
    ensures WithinCapacity(t) <==> KeepsCapacity(s, a)
  {
    if a.DoRegister? {
      assert a.worker in t.workers;
    }
  }

  /** When a run that has not ended is released, its worker has a lease to give: clamping at zero never happens. */
  lemma ReleaseHasLease(s: Store, id: string)
    requires Orderly(s) && id in s.runs && !Terminal(s.runs[id].state) && s.runs[id].claimedBy != ""
    ensures s.runs[id].claimedBy in s.workers && s.workers[s.runs[id].claimedBy].activeLeases >= 1
  {}

  /** A sequence of operations with the stores between them. */
  ghost predicate IsTrace(timeout: int, actions: seq<Action>, stores: seq<Store>) {
    && |stores| == |actions| + 1
    && forall k :: 0 <= k < |actions| ==> Step(stores[k], timeout, actions[k], stores[k + 1])
  }

  lemma TraceStep(timeout: int, actions: seq<Action>, stores: seq<Store>, k: nat)
    requires IsTrace(timeout, actions, stores) && 0 < k < |stores|
    ensures Step(stores[k - 1], timeout, actions[k - 1], stores[k])
  {}

  ghost predicate AllGuarded(actions: seq<Action>, stores: seq<Store>)
    requires |stores| == |actions| + 1
  {
    forall k :: 0 <= k < |actions| ==> Guarded(stores[k], actions[k])
  }

  /**
   Lease conservation: starting from an empty store, after any guarded sequence of operations every worker's
   active leases equal the number of runs it is running.
   */
  lemma {:induction false} LeaseConservation(timeout: int, actions: seq<Action>, stores: seq<Store>, k: nat)
    requires IsTrace(timeout, actions, stores) && AllGuarded(actions, stores)
    requires stores[0] == Store(map[], map[]) && k < |stores|
    ensures Orderly(stores[k])
    ensures forall w :: w in stores[k].workers && w != "" ==>
              stores[k].workers[w].activeLeases == |Held(stores[k].runs, w)|
  {
    if k > 0 {
      LeaseConservation(timeout, actions, stores, k - 1);
      TraceStep(timeout, actions, stores, k);
      StepKeepsOrderly(stores[k - 1], timeout, actions[k - 1], stores[k]);
    }
  }

  ghost predicate AllKeepCapacity(actions: seq<Action>, stores: seq<Store>)
    requires |stores| == |actions| + 1
  {
    forall k :: 0 <= k < |actions| ==> KeepsCapacity(stores[k], actions[k])
  }

  lemma {:induction false} StaysWithinCapacity(timeout: int, actions: seq<Action>, stores: seq<Store>, k: nat)
    requires IsTrace(timeout, actions, stores) && AllGuarded(actions, stores) && AllKeepCapacity(actions, stores)
    requires stores[0] == Store(map[], map[]) && k < |stores|
    ensures WithinCapacity(stores[k])
  {
    if k > 0 {
      StaysWithinCapacity(timeout, actions, stores, k - 1);
      LeaseConservation(timeout, actions, stores, k - 1);
      TraceStep(timeout, actions, stores, k);
      CapacityKeptExactlyWhen(stores[k - 1], timeout, actions[k - 1], stores[k]);
    }
  }

  /** If moreover no registration cuts capacity below use, no worker ever runs more than its capacity. */
  lemma CapacityRespected(timeout: int, actions: seq<Action>, stores: seq<Store>, k: nat)
    requires IsTrace(timeout, actions, stores) && AllGuarded(actions, stores) && AllKeepCapacity(actions, stores)
    requires stores[0] == Store(map[], map[]) && k < |stores|
    ensures WithinCapacity(stores[k])
    ensures forall w :: w in stores[k].workers && w != "" ==>
              |Held(stores[k].runs, w)| <= stores[k].workers[w].capacity
  {
    LeaseConservation(timeout, actions, stores, k);
    StaysWithinCapacity(timeout, actions, stores, k);
  }

  // ----- each guard is needed

  const IDLE := Run(Queued, Queued, Queued, "", 0, 0, None, RunRequest(0, [], None, None), None)
  const BUSY := SetState(IDLE, Running).(claimedBy := "w")

  /** Canceling a run that has already failed takes a lease that belongs to another run. */
  lemma CancelFailedBreaks()
    ensures var s := Store(map["a" := SetState(BUSY, Failed), "b" := BUSY],
                           map["w" := NewWorker(0).(activeLeases := 1)]);
      Consistent(s) && LeasesExact(s) && !LeasesExact(Cancel(s, "a"))
  {
    var s := Store(map["a" := SetState(BUSY, Failed), "b" := BUSY], map["w" := NewWorker(0).(activeLeases := 1)]);
    assert Held(s.runs, "w") == {"b"};
    LeasesKeptExactlyWhen(s, 0, DoCancel("a"), Cancel(s, "a"));
  }

  /** Completing a run as still running gives its lease back while it keeps running. */
  lemma CompleteAsRunningBreaks(result: RunResult)
    requires result.state == Running
    ensures var s := Store(map["a" := BUSY], map["w" := NewWorker(0).(activeLeases := 1)]);
      Consistent(s) && LeasesExact(s) && !LeasesExact(Complete(s, "a", result))
  {
    var s := Store(map["a" := BUSY], map["w" := NewWorker(0).(activeLeases := 1)]);
    assert Held(s.runs, "w") == {"a"};
    LeasesKeptExactlyWhen(s, 0, DoComplete("a", result), Complete(s, "a", result));
  }

  /** Creating a run under the id of a running one forgets its lease. */
  lemma RecreateRunningBreaks(request: RunRequest)
    ensures var s := Store(map["a" := BUSY], map["w" := NewWorker(0).(activeLeases := 1)]);
      Consistent(s) && LeasesExact(s) && !LeasesExact(Create(s, "a", request, 0))
  {
    var s := Store(map["a" := BUSY], map["w" := NewWorker(0).(activeLeases := 1)]);
    assert Held(s.runs, "w") == {"a"};
    LeasesKeptExactlyWhen(s, 0, DoCreate("a", request, 0), Create(s, "a", request, 0));
  }
}
