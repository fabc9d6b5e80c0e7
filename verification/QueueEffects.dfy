/** What each operation of the store changes, field by field, and that everything else stays. */
module QueueEffects {
  import opened Wrappers
  import opened Sequences
  import opened Text
  import opened RunQueue
  import opened QueueOrder

  /** The run may still be completed: it is neither canceled nor completed nor failed. */
  predicate Unfinished(run: Run) {
    run.state != Canceled && run.state != Completed && run.state != Failed
  }

  /** The worker has one lease less, unless it had none, and nothing else about the workers has changed. */
  ghost predicate OneLeaseLess(s: Store, worker: string, t: Store) {
    && t.workers.Keys == s.workers.Keys
    && forall w :: w in s.workers ==>
         t.workers[w] ==
         if w == worker && w != "" && s.workers[w].activeLeases > 0
         then s.workers[w].(activeLeases := s.workers[w].activeLeases - 1)
         else if w == worker && w != "" then s.workers[w].(activeLeases := 0)
         else s.workers[w]
  }

  /** The run is as it was but for its state, which all three copies give. */
  predicate Moved(before: Run, state: RunState, after: Run) {
    && after.state == state && after.statusState == state && after.responseState == state
    && after.claimedBy == before.claimedBy && after.claimedAt == before.claimedAt
    && after.queuedAt == before.queuedAt && after.createdAt == before.createdAt && after.request == before.request
  }

  /** Completing an unfinished run stores the result and takes over its state; any other run stays as it is. */
  lemma CompleteEffect(s: Store, timeout: int, id: string, result: RunResult, t: Store)
    requires Step(s, timeout, DoComplete(id, result), t)
    ensures if id in s.runs && Unfinished(s.runs[id]) then
              && id in t.runs && Moved(s.runs[id], result.state, t.runs[id]) && t.runs[id].result == Some(result)
              && t.runs == s.runs[id := t.runs[id]] && OneLeaseLess(s, s.runs[id].claimedBy, t)
            else t == s
  {}

  /** Canceling works on every run but a canceled or completed one, also on a failed run, and keeps its result. */
  lemma CancelEffect(s: Store, timeout: int, id: string, t: Store)
    requires Step(s, timeout, DoCancel(id), t)
    ensures if id in s.runs && s.runs[id].statusState != Canceled && s.runs[id].statusState != Completed then
              && id in t.runs && Moved(s.runs[id], Canceled, t.runs[id]) && t.runs[id].result == s.runs[id].result
              && t.runs == s.runs[id := t.runs[id]] && OneLeaseLess(s, s.runs[id].claimedBy, t)
            else t == s
  {}

  /** A created run is queued now, unclaimed and without a result; only its first creation time survives. */
  lemma CreateEffect(s: Store, timeout: int, id: string, request: RunRequest, now: int, t: Store)
    requires Step(s, timeout, DoCreate(id, request, now), t)
    ensures id in t.runs && t == s.(runs := s.runs[id := t.runs[id]])
    ensures var run := t.runs[id];
      && run.state == Queued && run.statusState == Queued && run.responseState == Queued
      && run.claimedBy == "" && run.claimedAt == None && run.result == None
      && run.request == request && run.queuedAt == now
      && run.createdAt == if id in s.runs then s.runs[id].createdAt else now
  {}

  /** A worker registers with its labels, room for at least one run, and the health it gives, or healthy. */
  lemma RegisterEffect(s: Store, timeout: int, worker: string, labels: seq<string>, capacity: int, health: string,
                       now: int, t: Store)
    requires Step(s, timeout, DoRegister(worker, labels, capacity, health, now), t)
    ensures worker in t.workers && t == s.(workers := s.workers[worker := t.workers[worker]])
    ensures var w := t.workers[worker];
      && (forall l :: l in w.labels <==> Asks(labels, l)) && Distinct(w.labels)
      && w.capacity >= 1 && (capacity >= 1 ==> w.capacity == capacity) && (capacity < 1 ==> w.capacity == 1)
      && w.health == (if Trim(health) != "" then Trim(health) else "healthy")
      && if worker in s.workers then
           w.activeLeases == s.workers[worker].activeLeases && w.createdAt == s.workers[worker].createdAt
           && w.heartbeatAt == s.workers[worker].heartbeatAt
         else
           w.activeLeases == 0 && w.createdAt == now && w.heartbeatAt == None
  {
    NormalizedExactly(labels);
  }

  /** Heartbeats only move the time of a known worker, and bring the response of a live run up to its status. */
  lemma HeartbeatEffect(s: Store, timeout: int, id: string, worker: string, now: int, t: Store)
    requires Step(s, timeout, DoHeartbeatWorker(worker, now), t)
             || (worker != "" && id in s.runs && s.runs[id].statusState in {Queued, Running}
                 && Step(s, timeout, DoHeartbeatRun(id, worker, now), t))
    ensures t.workers == if worker in s.workers
                         then s.workers[worker := s.workers[worker].(heartbeatAt := Some(now))]
                         else s.workers
    ensures t.runs.Keys == s.runs.Keys
    ensures forall other :: other in s.runs ==>
              t.runs[other] == s.runs[other]
              || (other == id && t.runs[id] == s.runs[id].(responseState := s.runs[id].statusState))
  {}

  /** The run is now run by the worker. */
  predicate Handed(before: Run, worker: string, now: int, after: Run) {
    && after.state == Running && after.statusState == Running && after.responseState == Running
    && after.claimedBy == worker && after.claimedAt == Some(now)
    && after.queuedAt == before.queuedAt && after.createdAt == before.createdAt
    && after.request == before.request && after.result == before.result
  }

  /** The worker, if named, has one lease more, the labels it gave, if any, and has just been heard of. */
  ghost predicate OneLeaseMore(s: Store, worker: string, labels: seq<string>, now: int, t: Store) {
    && t.workers.Keys == s.workers.Keys + (if worker == "" then {} else {worker})
    && (forall w :: w in s.workers && (w != worker || w == "") ==> t.workers[w] == s.workers[w])
    && (worker != "" ==>
          var w := t.workers[worker];
          && w.heartbeatAt == Some(now)
          && (!Unlabelled(labels) ==> forall l :: l in w.labels <==> Asks(labels, l))
          && if worker in s.workers then
               var was := s.workers[worker];
               w.activeLeases == (if was.activeLeases > 0 then was.activeLeases else 0) + 1
               && w.capacity == was.capacity && w.health == was.health && w.createdAt == was.createdAt
               && (Unlabelled(labels) ==> w.labels == was.labels)
             else
               w.activeLeases == 1 && w.capacity == 1 && w.health == "healthy" && w.createdAt == now
               && (Unlabelled(labels) ==> w.labels == []))
  }

  lemma GrantEffect(s: Store, id: string, worker: string, labels: seq<string>, now: int)
    requires id in s.runs
    ensures var t := Grant(s, id, worker, Normalized(labels), now);
      && id in t.runs && t.runs == s.runs[id := t.runs[id]] && Handed(s.runs[id], worker, now, t.runs[id])
      && OneLeaseMore(s, worker, labels, now, t)
  {
    NormalizedExactly(labels);
  }

  /**
   What a claim does: if the worker may claim and some run is claimable, the first of these in the order of the
   policy runs for the worker, which is created if need be, has one lease more and gives a sign of life. If not,
   nothing changes.
   */
  lemma ClaimEffect(s: Store, timeout: int, worker: string, labels: seq<string>, policy: string, now: int, t: Store)
    returns (id: string)
    requires Step(s, timeout, DoClaim(worker, labels, policy, now), t)
    ensures MayClaim(s, timeout, worker, now) && (exists x :: Claimable(s, labels, x)) ==>
            && Claimable(s, labels, id) && FirstClaimable(s, labels, policy, id)
            && id in t.runs && t.runs == s.runs[id := t.runs[id]] && Handed(s.runs[id], worker, now, t.runs[id])
            && OneLeaseMore(s, worker, labels, now, t)
    ensures !(MayClaim(s, timeout, worker, now) && exists x :: Claimable(s, labels, x)) ==> t == s
  {
    GrantsExactlyWhen(s, timeout, worker, labels, policy, now);
    id := "";
    if x :| Grants(s, timeout, worker, labels, policy, now, x) && t == Grant(s, x, worker, Normalized(labels), now) {
      id := x;
      GrantsFirst(s, timeout, worker, labels, policy, now, id);
      GrantEffect(s, id, worker, labels, now);
    } else {
      NoGrantExactly(s, timeout, worker, labels, policy, now);
    }
  }
}
