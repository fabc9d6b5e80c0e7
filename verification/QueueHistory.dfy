/** What runs go through over time: the life of a run's state, and fair waiting under the fifo policy. */
module QueueHistory {
  import opened Wrappers
  import opened RunQueue
  import opened QueueEffects
  import opened QueueLeases

  // ----- the life of a state

  /** Where an operation other than a creation may take a run. */
  predicate MayBecome(before: RunState, after: RunState) {
    match before
    case Completed => after == Completed
    case Canceled => after == Canceled
    case Failed => after == Failed || after == Canceled
    case _ => true
  }

  /** A result that puts its run back into the queue is not among the operation's arguments. */
  predicate NeverRequeues(a: Action) {
    a.DoComplete? ==> a.result.state != Queued
  }

  /**
   Without a new creation under its id, no run leaves completed or canceled, a failed run can only become
   canceled, and the result stored with a terminal state stays.
   */
  lemma StepRespectsLife(s: Store, timeout: int, a: Action, t: Store, id: string)
    requires Consistent(s) && Step(s, timeout, a, t) && id in s.runs
    requires a.DoCreate? ==> a.id != id
    ensures id in t.runs && MayBecome(s.runs[id].state, t.runs[id].state)
    ensures Terminal(s.runs[id].state) ==> t.runs[id].result == s.runs[id].result
    ensures t.runs[id].queuedAt == s.runs[id].queuedAt && t.runs[id].createdAt == s.runs[id].createdAt
    ensures t.runs[id].request == s.runs[id].request
    ensures t.runs[id].state == Queued && NeverRequeues(a) ==> s.runs[id].state == Queued
  {}

  predicate NotRecreated(actions: seq<Action>, j: nat, k: nat, id: string)
    requires j <= k <= |actions|
  {
    forall i :: j <= i < k && actions[i].DoCreate? ==> actions[i].id != id
  }

  /** The run has ended with the given result; it is still completed or canceled, or failed or since canceled. */
  predicate EndedWith(s: Store, id: string, state: RunState, result: Option<RunResult>) {
    id in s.runs && Terminal(s.runs[id].state) && MayBecome(state, s.runs[id].state) && s.runs[id].result == result
  }

  /** The result a run ends with is never replaced, however many operations follow, until its id is created anew. */
  lemma {:induction false} TerminalResultStays(timeout: int, actions: seq<Action>, stores: seq<Store>,
                                               j: nat, k: nat, id: string)
    requires IsTrace(timeout, actions, stores) && j <= k < |stores| && Consistent(stores[j])
    requires NotRecreated(actions, j, k, id)
    requires id in stores[j].runs && Terminal(stores[j].runs[id].state)
    ensures Consistent(stores[k])
    ensures EndedWith(stores[k], id, stores[j].runs[id].state, stores[j].runs[id].result)
  {
    if j < k {
      TerminalResultStays(timeout, actions, stores, j, k - 1, id);
      TraceStep(timeout, actions, stores, k);
      StepKeepsConsistent(stores[k - 1], timeout, actions[k - 1], stores[k]);
      StepRespectsLife(stores[k - 1], timeout, actions[k - 1], stores[k], id);
    }
  }

  // ----- states and results

  /** A completed or failed run holds a result, and the result says the same. */
  ghost predicate ResultsTell(s: Store) {
    forall id :: id in s.runs && (s.runs[id].state == Completed || s.runs[id].state == Failed) ==>
      s.runs[id].result.Some? && s.runs[id].result.value.state == s.runs[id].state
  }

  lemma StepKeepsResults(s: Store, timeout: int, a: Action, t: Store)
    requires Step(s, timeout, a, t) && ResultsTell(s)
    ensures ResultsTell(t)
  {
    match a
    case DoCreate(id, request, now) => CreateEffect(s, timeout, id, request, now, t);
    case DoCancel(id) => CancelEffect(s, timeout, id, t);
    case DoComplete(id, result) => CompleteEffect(s, timeout, id, result, t);
    case DoClaim(worker, labels, policy, now) =>
      var id := ClaimEffect(s, timeout, worker, labels, policy, now, t);
    case _ =>
  }

  /** From an empty store, after any operations, every completed or failed run holds a result with that state. */
  lemma {:induction false} ResultsAlwaysTell(timeout: int, actions: seq<Action>, stores: seq<Store>, k: nat)
    requires IsTrace(timeout, actions, stores) && stores[0] == Store(map[], map[]) && k < |stores|
    ensures ResultsTell(stores[k])
  {
    if k > 0 {
      ResultsAlwaysTell(timeout, actions, stores, k - 1);
      TraceStep(timeout, actions, stores, k);
      StepKeepsResults(stores[k - 1], timeout, actions[k - 1], stores[k]);
    }
  }

  // ----- first in, first out

  /** New runs have unused ids and queue strictly later than all known ones, and claims are unlabelled and fifo. */
  ghost predicate FifoAction(s: Store, a: Action) {
    && NeverRequeues(a)
    && (a.DoCreate? ==> a.id !in s.runs && forall id :: id in s.runs ==> s.runs[id].queuedAt < a.now)
    && (a.DoClaim? ==> Normalized(a.labels) == [] && PolicyName(a.policy) == "fifo")
  }

  ghost predicate FifoTrace(timeout: int, actions: seq<Action>, stores: seq<Store>) {
    IsTrace(timeout, actions, stores)
    && forall k :: 0 <= k < |actions| ==> FifoAction(stores[k], actions[k])
  }

  predicate Ahead(runs: map<string, Run>, x: string, y: string) {
    x in runs && y in runs && Before(runs, "fifo", [], x, y)
  }

  /** The run that an operation claims, if any: it was queued and then runs. */
  predicate Claims(s: Store, a: Action, t: Store, id: string) {
    a.DoClaim? && id in s.runs && id in t.runs && s.runs[id].state == Queued && t.runs[id].state != Queued
  }

  /** Under fifo the claimed run is ahead of every run that stays queued. */
  lemma ClaimTakesFirst(s: Store, timeout: int, a: Action, t: Store, id: string, other: string)
    requires FifoAction(s, a) && Step(s, timeout, a, t) && Claims(s, a, t, id)
    requires other in s.runs && s.runs[other].state == Queued && other != id
    ensures Ahead(s.runs, id, other) && !Claims(s, a, t, other)
  {}

  /** Everything queued lies behind run x. */
  ghost predicate AllBehind(s: Store, x: string) {
    && x in s.runs && s.runs[x].state != Queued
    && forall y :: y in s.runs && s.runs[y].state == Queued ==> Ahead(s.runs, x, y)
  }

  lemma StepKeepsBehind(s: Store, timeout: int, a: Action, t: Store, x: string)
    requires Consistent(s) && FifoAction(s, a) && Step(s, timeout, a, t) && AllBehind(s, x)
    ensures AllBehind(t, x)
  {}

  /** The copies of every state agree, and everything queued lies behind x. */
  ghost predicate SafelyBehind(s: Store, x: string) {
    Consistent(s) && AllBehind(s, x)
  }

  lemma BehindStep(timeout: int, actions: seq<Action>, stores: seq<Store>, k: nat, x: string)
    requires FifoTrace(timeout, actions, stores) && k < |actions| && SafelyBehind(stores[k], x)
    ensures SafelyBehind(stores[k + 1], x)
  {
    TraceStep(timeout, actions, stores, k + 1);
    StepKeepsConsistent(stores[k], timeout, actions[k], stores[k + 1]);
    StepKeepsBehind(stores[k], timeout, actions[k], stores[k + 1], x);
  }

  /** What each store passes on to the next one holds from there on. */
  lemma {:induction false} PassedOn(stores: seq<Store>, j: nat, k: nat, x: string)
    requires j <= k < |stores| && SafelyBehind(stores[j], x)
    requires forall i :: j <= i < k && SafelyBehind(stores[i], x) ==> SafelyBehind(stores[i + 1], x)
    ensures SafelyBehind(stores[k], x)
  {
    if j < k {
      PassedOn(stores, j, k - 1, x);
      assert SafelyBehind(stores[k - 1], x) ==> SafelyBehind(stores[k - 1 + 1], x);
    }
  }

  lemma BehindStays(timeout: int, actions: seq<Action>, stores: seq<Store>, j: nat, k: nat, x: string)
    requires FifoTrace(timeout, actions, stores) && j <= k < |stores| && SafelyBehind(stores[j], x)
    ensures SafelyBehind(stores[k], x)
  {
    forall i | j <= i < k && SafelyBehind(stores[i], x)
      ensures SafelyBehind(stores[i + 1], x)
    {
      BehindStep(timeout, actions, stores, i, x);
    }
    PassedOn(stores, j, k, x);
  }

  lemma ClaimedStaysAhead(timeout: int, actions: seq<Action>, stores: seq<Store>, j: nat, k: nat, x: string)
    requires FifoTrace(timeout, actions, stores) && j < k < |actions| && Consistent(stores[j])
    requires Claims(stores[j], actions[j], stores[j + 1], x)
    ensures SafelyBehind(stores[k], x)
  {
    ClaimedThenBehind(timeout, actions, stores, j, x);
    BehindStays(timeout, actions, stores, j + 1, k, x);
  }

  /** Runs are claimed in queue order: whatever is claimed later lies behind what was claimed earlier. */
  lemma FifoOrder(timeout: int, actions: seq<Action>, stores: seq<Store>, j: nat, k: nat, x: string, y: string)
    requires FifoTrace(timeout, actions, stores) && j < k < |actions| && Consistent(stores[j])
    requires Claims(stores[j], actions[j], stores[j + 1], x) && Claims(stores[k], actions[k], stores[k + 1], y)
    ensures Ahead(stores[k].runs, x, y)
  {
    ClaimedStaysAhead(timeout, actions, stores, j, k, x);
    QueuedIsBehind(stores[k], x, y);
  }

  lemma QueuedIsBehind(s: Store, x: string, y: string)
    requires SafelyBehind(s, x) && y in s.runs && s.runs[y].state == Queued
    ensures Ahead(s.runs, x, y)
  {}

  lemma ClaimedThenBehind(timeout: int, actions: seq<Action>, stores: seq<Store>, j: nat, x: string)
    requires FifoTrace(timeout, actions, stores) && j < |actions| && Consistent(stores[j])
    requires Claims(stores[j], actions[j], stores[j + 1], x)
    ensures SafelyBehind(stores[j + 1], x)
  {
    TraceStep(timeout, actions, stores, j + 1);
    StepKeepsConsistent(stores[j], timeout, actions[j], stores[j + 1]);
    ClaimedLeavesOthersBehind(stores[j], timeout, actions[j], stores[j + 1], x);
  }

  lemma ClaimedLeavesOthersBehind(s: Store, timeout: int, a: Action, t: Store, x: string)
    requires Consistent(s) && FifoAction(s, a) && Step(s, timeout, a, t) && Claims(s, a, t, x)
    ensures AllBehind(t, x)
  {
    forall y | y in t.runs && t.runs[y].state == Queued
      ensures Ahead(t.runs, x, y)
    {
      assert y in s.runs && y != x && s.runs[y].state == Queued;
      ClaimTakesFirst(s, timeout, a, t, x, y);
    }
  }

  // ----- bounded waiting

  /** The queued runs ahead of run x. */
  function QueueAhead(runs: map<string, Run>, x: string): (ids: set<string>)
  {
    set id | id in runs && runs[id].state == Queued && Ahead(runs, id, x)
  }

  /** Whether an operation is a successful claim. */
  predicate IsClaim(s: Store, a: Action, t: Store) {
    a.DoClaim? && s.runs != t.runs
  }

  function ClaimCount(actions: seq<Action>, stores: seq<Store>, k: nat): (n: nat)
    requires |stores| == |actions| + 1 && k <= |actions|
  {
    if k == 0 then 0
    else ClaimCount(actions, stores, k - 1) + if IsClaim(stores[k - 1], actions[k - 1], stores[k]) then 1 else 0
  }

  /** While x stays queued, nothing joins the queue ahead of it, and each successful claim takes one run from there. */
  lemma StepShrinksQueue(s: Store, timeout: int, a: Action, t: Store, x: string)
    requires Consistent(s) && FifoAction(s, a) && Step(s, timeout, a, t)
    requires x in s.runs && s.runs[x].state == Queued && x in t.runs && t.runs[x].state == Queued
    ensures |QueueAhead(t.runs, x)| + (if IsClaim(s, a, t) then 1 else 0) <= |QueueAhead(s.runs, x)|
  {
    NoneJoinsAhead(s, timeout, a, t, x);
    var was, now := QueueAhead(s.runs, x), QueueAhead(t.runs, x);
    SubsetSmaller(now, was);
    if IsClaim(s, a, t) {
      var first := ClaimLeavesQueue(s, timeout, a, t, x);
      SubsetSmaller(now, was - {first});
    }
  }

  lemma NoneJoinsAhead(s: Store, timeout: int, a: Action, t: Store, x: string)
    requires Consistent(s) && FifoAction(s, a) && Step(s, timeout, a, t)
    requires x in s.runs && s.runs[x].state == Queued && x in t.runs && t.runs[x].state == Queued
    ensures QueueAhead(t.runs, x) <= QueueAhead(s.runs, x)
  {
    StepRespectsLife(s, timeout, a, t, x);
    forall id | id in QueueAhead(t.runs, x)
      ensures id in QueueAhead(s.runs, x)
    {
      if id in s.runs {
        StepRespectsLife(s, timeout, a, t, id);
      }
    }
  }

  /** The run that a successful claim hands out was ahead of every run that stays queued. */
  lemma ClaimLeavesQueue(s: Store, timeout: int, a: Action, t: Store, x: string) returns (first: string)
    requires FifoAction(s, a) && Step(s, timeout, a, t) && IsClaim(s, a, t)
    requires x in s.runs && x in t.runs && t.runs[x].state == Queued
    ensures first in QueueAhead(s.runs, x) && first !in QueueAhead(t.runs, x)
  {
    first :| Grants(s, timeout, a.worker, a.labels, a.policy, a.now, first)
             && t == Grant(s, first, a.worker, [], a.now);
    ClaimTakesFirst(s, timeout, a, t, first, x);
  }

  lemma {:induction false} SubsetSmaller<T>(a: set<T>, b: set<T>)
    requires a <= b
    ensures |a| <= |b|
  {
    if a != {} {
      var x :| x in a;
      SubsetSmaller(a - {x}, b - {x});
    }
  }

  lemma {:induction false} StaysQueued(timeout: int, actions: seq<Action>, stores: seq<Store>,
                                       j: nat, k: nat, x: string)
    requires FifoTrace(timeout, actions, stores) && j <= k < |stores| && Consistent(stores[0])
    requires x in stores[0].runs && x in stores[k].runs && stores[k].runs[x].state == Queued
    ensures Consistent(stores[j]) && x in stores[j].runs && stores[j].runs[x].state == Queued
    decreases k - j
  {
    TraceConsistent(timeout, actions, stores, j, x);
    if j < k {
      StaysQueued(timeout, actions, stores, j + 1, k, x);
      TraceStep(timeout, actions, stores, j + 1);
      StepRespectsLife(stores[j], timeout, actions[j], stores[j + 1], x);
    }
  }

  lemma {:induction false} TraceConsistent(timeout: int, actions: seq<Action>, stores: seq<Store>, k: nat, x: string)
    requires FifoTrace(timeout, actions, stores) && k < |stores| && Consistent(stores[0]) && x in stores[0].runs
    ensures Consistent(stores[k]) && x in stores[k].runs
  {
    if k > 0 {
      TraceConsistent(timeout, actions, stores, k - 1, x);
      TraceStep(timeout, actions, stores, k);
      StepKeepsConsistent(stores[k - 1], timeout, actions[k - 1], stores[k]);
      StepRespectsLife(stores[k - 1], timeout, actions[k - 1], stores[k], x);
    }
  }

  /**
   Bounded waiting: as long as a run is still queued, there have been no more successful claims than there
   were queued runs ahead of it at the start. So with k runs ahead it is claimed by the (k + 1)-th
   successful claim at the latest, unless it is canceled or completed first.
   */
  lemma {:induction false} BoundedWaiting(timeout: int, actions: seq<Action>, stores: seq<Store>, k: nat, x: string)
    requires FifoTrace(timeout, actions, stores) && k <= |actions| && Consistent(stores[0])
    requires x in stores[0].runs && x in stores[k].runs && stores[k].runs[x].state == Queued
    ensures ClaimCount(actions, stores, k) + |QueueAhead(stores[k].runs, x)| <= |QueueAhead(stores[0].runs, x)|
  {
    if k > 0 {
      StaysQueued(timeout, actions, stores, k - 1, k, x);
      BoundedWaiting(timeout, actions, stores, k - 1, x);
      TraceStep(timeout, actions, stores, k);
      assert FifoAction(stores[k - 1], actions[k - 1]);
      StepShrinksQueue(stores[k - 1], timeout, actions[k - 1], stores[k], x);
    }
  }
}
