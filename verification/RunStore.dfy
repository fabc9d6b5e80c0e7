/** The run store as an object: each public operation is one transaction on its run and worker records. */
module RunStore {
  import opened Wrappers
  import opened Text
  import opened RunQueue
  import opened QueueEffects
  import opened QueueOrder

  datatype ClaimOutcome = WorkerUnavailable | NothingToClaim | Claimed(runId: string)

  /** What a claim reports and does: refused, nothing to claim, or the first candidate handed to the worker. */
  predicate ClaimResult(s: Store, timeout: int, worker: string, labels: seq<string>, policy: string, now: int,
                        outcome: ClaimOutcome, t: Store) {
    match outcome
    case WorkerUnavailable => ClaimRefused(s, worker, Normalized(labels), timeout, now) && t == s
    case NothingToClaim => Candidates(s.runs, Normalized(labels)) == {} && t == s
    case Claimed(id) =>
      Grants(s, timeout, worker, labels, policy, now, id) && t == Grant(s, id, worker, Normalized(labels), now)
  }

  class SqliteRunStore {
    const heartbeatTimeout: int
    var runs: map<string, Run>
    var workers: map<string, Worker>

    constructor (heartbeatTimeout: int)
      ensures Contents() == Store(map[], map[]) && this.heartbeatTimeout == heartbeatTimeout
    {
      this.heartbeatTimeout, runs, workers := heartbeatTimeout, map[], map[];
    }

    function Contents(): (s: Store)
      reads this
    {
      Store(runs, workers)
    }

    method CreateRun(id: string, request: RunRequest, now: int)
      modifies this`runs
      ensures Step(old(Contents()), heartbeatTimeout, DoCreate(id, request, now), Contents())
    {
      var record := if id in runs then runs[id] else Run(Queued, Queued, Queued, "", now, now, None, request, None);
      record := record.(state := Queued, claimedBy := "", queuedAt := now, claimedAt := None);
      record := record.(request := request, responseState := Queued, statusState := Queued, result := None);
      runs := runs[id := record];
    }

    method RegisterWorker(worker: string, labels: seq<string>, capacity: int, health: string, now: int)
      modifies this`workers
      ensures Step(old(Contents()), heartbeatTimeout, DoRegister(worker, labels, capacity, health, now), Contents())
    {
      var record := if worker in workers then workers[worker] else NewWorker(now);
      record := record.(labels := Normalized(labels));
      record := record.(capacity := if capacity > 1 then capacity else 1);
      var trimmed := Trim(if health == "" then "healthy" else health);
      record := record.(health := if trimmed != "" then trimmed else "healthy");
      workers := workers[worker := record];
      assert Trim("") == "";
      assert Trim("healthy") == "healthy" by {
        TrimShape("healthy");
      }
    }

    method TouchWorker(worker: string, now: int)
      modifies this`workers
      ensures Contents() == HeartbeatWorker(old(Contents()), worker, now)
    {
      if worker in workers {
        workers := workers[worker := workers[worker].(heartbeatAt := Some(now))];
      }
    }

    /** The first of the given candidates in the order of the policy. */
    method SelectFirst(ids: set<string>, policy: string, labels: seq<string>) returns (first: string)
      requires ids != {} && ids <= runs.Keys
      ensures IsFirst(runs, policy, labels, ids, first)
    {
      first :| first in ids;
      var left := ids - {first};
      assert ids - left == {first};
      while left != {}
        invariant left <= ids
        invariant IsFirst(runs, policy, labels, ids - left, first)
        decreases left
      {
        var id :| id in left;
        ghost var z := Earlier(runs, policy, labels, id, first, ids - left);
        assert ids - (left - {id}) == (ids - left) + {id};
        if Before(runs, policy, labels, id, first) {
          first := id;
        }
        left := left - {id};
      }
      assert ids - left == ids;
    }

    /** Claims the first eligible queued run for a worker; a refused or empty claim changes nothing. */
    method ClaimNextRun(worker: string, labels: seq<string>, policy: string, now: int) returns (outcome: ClaimOutcome)
      modifies this
      ensures ClaimResult(old(Contents()), heartbeatTimeout, worker, labels, policy, now, outcome, Contents())
      ensures Step(old(Contents()), heartbeatTimeout, DoClaim(worker, labels, policy, now), Contents())
    {
      var norm := Normalized(labels);
      var record := ClaimingWorker(Contents(), worker, norm, now);
      if worker != "" && !Available(record, heartbeatTimeout, now) {
        return WorkerUnavailable;
      }
      var eligible := set id | id in runs && runs[id].state == Queued && Eligible(runs[id].request, norm);
      if eligible == {} {
        return NothingToClaim;
      }
      var first := SelectFirst(eligible, PolicyName(policy), norm);
      GrantRun(first, worker, norm, now);
      outcome := Claimed(first);
    }

    method GrantRun(id: string, worker: string, norm: seq<string>, now: int)
      requires id in runs
      modifies this
      ensures Contents() == Grant(old(Contents()), id, worker, norm, now)
    {
      var record := ClaimingWorker(Contents(), worker, norm, now);
      var run := runs[id];
      run := run.(statusState := Running, responseState := Running, state := Running);
      run := run.(claimedBy := worker, claimedAt := Some(now));
      runs := runs[id := run];
      if worker != "" {
        var leases := if record.activeLeases < 0 then 0 else record.activeLeases;
        record := record.(activeLeases := leases + 1, heartbeatAt := Some(now));
        workers := workers[worker := record];
      }
    }

    method HeartbeatRun(id: string, worker: string, now: int)
      modifies this
      ensures Step(old(Contents()), heartbeatTimeout, DoHeartbeatRun(id, worker, now), Contents())
    {
      if id !in runs || (runs[id].statusState != Queued && runs[id].statusState != Running) {
        return;
      }
      runs := runs[id := runs[id].(responseState := runs[id].statusState)];
      if worker != "" {
        TouchWorker(worker, now);
      }
    }

    method ReleaseLease(worker: string)
      modifies this`workers
      ensures Contents() == Release(old(Contents()), worker)
    {
      if worker != "" && worker in workers {
        var left := workers[worker].activeLeases - 1;
        workers := workers[worker := workers[worker].(activeLeases := if left > 0 then left else 0)];
      }
    }

    method CancelRun(id: string)
      modifies this
      ensures Step(old(Contents()), heartbeatTimeout, DoCancel(id), Contents())
    {
      if id !in runs || runs[id].statusState == Canceled || runs[id].statusState == Completed {
        return;
      }
      var record := runs[id];
      record := record.(statusState := Canceled, responseState := Canceled, state := Canceled);
      runs := runs[id := record];
      ReleaseLease(record.claimedBy);
    }

    method CompleteRun(id: string, result: RunResult)
      modifies this
      ensures Step(old(Contents()), heartbeatTimeout, DoComplete(id, result), Contents())
      ensures if id in old(runs) && Unfinished(old(runs)[id]) then
                && id in runs && Moved(old(runs)[id], result.state, runs[id]) && runs[id].result == Some(result)
                && runs == old(runs)[id := runs[id]]
              else Contents() == old(Contents())
    {
      if id !in runs || runs[id].state == Canceled || runs[id].state == Completed || runs[id].state == Failed {
        return;
      }
      var record := runs[id];
      record := record.(statusState := result.state, responseState := result.state, state := result.state);
      record := record.(result := Some(result));
      runs := runs[id := record];
      ReleaseLease(record.claimedBy);
    }
  }
}
