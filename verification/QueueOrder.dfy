/** The claim policies order the queue totally: among candidates there is exactly one first run. */
module QueueOrder {
  import opened Wrappers
  import opened Sequences
  import opened Text
  import opened RunQueue

  lemma {:induction false} NumbersLessTransitive(a: seq<int>, b: seq<int>, c: seq<int>)
    requires NumbersLess(a, b) && NumbersLess(b, c)
    ensures NumbersLess(a, c)
  {
    if a != [] && a[0] == b[0] == c[0] {
      NumbersLessTransitive(a[1..], b[1..], c[1..]);
    }
  }

  lemma {:induction false} NumbersLessTotal(a: seq<int>, b: seq<int>)
    ensures NumbersLess(a, b) || NumbersLess(b, a) || a == b
    ensures !NumbersLess(a, a)
    ensures NumbersLess(a, b) ==> !NumbersLess(b, a)
  {
    if a != [] && b != [] {
      NumbersLessTotal(a[1..], b[1..]);
      assert a == [a[0]] + a[1..] && b == [b[0]] + b[1..];
    } else if a != [] {
      NumbersLessTotal(a[1..], []);
    }
  }

  lemma KeyLessTransitive(a: seq<int>, x: string, b: seq<int>, y: string, c: seq<int>, z: string)
    requires KeyLess(a, x, b, y) && KeyLess(b, y, c, z)
    ensures KeyLess(a, x, c, z)
  {
    if NumbersLess(a, b) && NumbersLess(b, c) {
      NumbersLessTransitive(a, b, c);
    } else if a == b && b == c {
      StrLessTransitive(x, y, z);
    }
  }

  lemma KeyLessTotal(a: seq<int>, x: string, b: seq<int>, y: string)
    ensures x != y ==> KeyLess(a, x, b, y) || KeyLess(b, y, a, x)
    ensures !(KeyLess(a, x, b, y) && KeyLess(b, y, a, x))
  {
    NumbersLessTotal(a, b);
    StrLessTotal(x, y);
    StrLessIrreflexive(x);
    if StrLess(x, y) && StrLess(y, x) {
      StrLessTransitive(x, y, x);
    }
  }

  /** Among any candidates some run comes first. */
  lemma {:induction false} FirstExists(runs: map<string, Run>, policy: string, labels: seq<string>, ids: set<string>)
    returns (x: string)
    requires ids != {} && ids <= runs.Keys
    ensures IsFirst(runs, policy, labels, ids, x)
    decreases ids
  {
    x :| x in ids;
    var rest := ids - {x};
    assert ids == rest + {x};
    if rest != {} {
      var y := FirstExists(runs, policy, labels, rest);
      x := Earlier(runs, policy, labels, x, y, rest);
    }
  }

  /** The earlier of a new run and the first of the others comes first of them all. */
  lemma Earlier(runs: map<string, Run>, policy: string, labels: seq<string>, x: string, y: string, rest: set<string>)
    returns (z: string)
    requires rest <= runs.Keys && x in runs && x !in rest && IsFirst(runs, policy, labels, rest, y)
    ensures z == (if Before(runs, policy, labels, x, y) then x else y)
    ensures IsFirst(runs, policy, labels, rest + {x}, z)
  {
    var key := (id: string) requires id in runs => PolicyNumbers(runs[id], policy, labels);
    KeyLessTotal(key(x), x, key(y), y);
    if Before(runs, policy, labels, x, y) {
      z := x;
      forall w | w in rest && w != y
        ensures Before(runs, policy, labels, x, w)
      {
        KeyLessTransitive(key(x), x, key(y), y, key(w), w);
      }
    } else {
      z := y;
    }
  }

  /** No two runs are both first: the run id breaks every tie. */
  lemma FirstUnique(runs: map<string, Run>, policy: string, labels: seq<string>, ids: set<string>, x: string, y: string)
    requires ids <= runs.Keys && IsFirst(runs, policy, labels, ids, x) && IsFirst(runs, policy, labels, ids, y)
    ensures x == y
  {
    KeyLessTotal(PolicyNumbers(runs[x], policy, labels), x, PolicyNumbers(runs[y], policy, labels), y);
  }

  /** x is before y in the lexicographic order of two pairs of numbers and then of the names. */
  predicate EarlierOf(x1: int, x2: int, x: string, y1: int, y2: int, y: string) {
    x1 < y1 || (x1 == y1 && (x2 < y2 || (x2 == y2 && StrLess(x, y))))
  }

  // ----- labels and priorities as requests give them

  /** The label is, without its outer blanks, among the given values; blank values ask for nothing. */
  ghost predicate Asks(values: seq<string>, l: string) {
    l != "" && exists i :: 0 <= i < |values| && Trim(values[i]) == l
  }

  predicate Unlabelled(values: seq<string>) {
    forall i :: 0 <= i < |values| ==> Trim(values[i]) == ""
  }

  /** The different labels among the values. */
  ghost function LabelSet(values: seq<string>): (labels: set<string>)
    ensures forall l :: l in labels <==> Asks(values, l)
  {
    set i | 0 <= i < |values| && Trim(values[i]) != "" :: Trim(values[i])
  }

  lemma AsksSnoc(init: seq<string>, last: string, l: string)
    ensures Asks(init + [last], l) <==> Asks(init, l) || (l == Trim(last) && l != "")
  {
    if Asks(init, l) {
      var i :| 0 <= i < |init| && Trim(init[i]) == l;
      assert Trim((init + [last])[i]) == l;
    }
    assert (init + [last])[|init|] == last;
  }

  lemma {:induction false} NormalizedAsks(values: seq<string>, l: string)
    ensures l in Normalized(values) <==> Asks(values, l)
  {
    if values != [] {
      var n := |values| - 1;
      NormalizedAsks(values[..n], l);
      assert values == values[..n] + [values[n]];
      AsksSnoc(values[..n], values[n], l);
    }
  }

  lemma {:induction false} NormalizedDistinct(values: seq<string>)
    ensures Distinct(Normalized(values))
  {
    if values != [] {
      NormalizedDistinct(values[..|values| - 1]);
    }
  }

  lemma {:induction false} DistinctSize(s: seq<string>, members: set<string>)
    requires Distinct(s) && forall l :: l in s <==> l in members
    ensures |s| == |members|
  {
    if s != [] {
      var n := |s| - 1;
      assert s == s[..n] + [s[n]];
      DistinctSize(s[..n], members - {s[n]});
    }
  }

  /** Normalizing keeps each label that is asked for, once. */
  lemma NormalizedExactly(values: seq<string>)
    ensures forall l :: l in Normalized(values) <==> Asks(values, l)
    ensures Distinct(Normalized(values))
    ensures Normalized(values) == [] <==> Unlabelled(values)
    ensures |Normalized(values)| == |LabelSet(values)|
  {
    forall l
      ensures l in Normalized(values) <==> Asks(values, l)
    {
      NormalizedAsks(values, l);
    }
    NormalizedDistinct(values);
    DistinctSize(Normalized(values), LabelSet(values));
    if Normalized(values) != [] {
      assert Asks(values, Normalized(values)[0]);
    } else {
      forall i | 0 <= i < |values|
        ensures Trim(values[i]) == ""
      {
        assert !Asks(values, Trim(values[i]));
      }
    }
  }

  /** The values that name the labels of a request for the affinity policy: its metadata's, if it has any. */
  function LabelValues(q: RunRequest): (values: seq<string>) {
    match q.metadataLabels
    case Some(values) => values
    case None => q.routingLabels
  }

  /** How many different labels of the request the worker has; a worker without labels counts for all. */
  ghost function SharedLabels(q: RunRequest, labels: seq<string>): (n: nat) {
    |if Unlabelled(labels) then LabelSet(LabelValues(q)) else LabelSet(LabelValues(q)) * LabelSet(labels)|
  }

  /** The metadata's priority counts before the request's own. */
  predicate MoreUrgent(a: RunRequest, b: RunRequest) {
    match (a.metadataPriority, b.metadataPriority)
    case (Some(p), Some(q)) => p > q
    case (Some(p), None) => p > b.priority
    case (None, Some(q)) => a.priority > q
    case (None, None) => a.priority > b.priority
  }

  predicate AsUrgent(a: RunRequest, b: RunRequest) {
    !MoreUrgent(a, b) && !MoreUrgent(b, a)
  }

  lemma SharedLabelsScore(q: RunRequest, labels: seq<string>)
    ensures LabelScore(q, Normalized(labels)) == SharedLabels(q, labels)
  {
    NormalizedExactly(labels);
    NormalizedExactly(LabelValues(q));
    if !Unlabelled(labels) {
      assert (set l | l in RoutingLabels(q) && l in Normalized(labels)) == LabelSet(LabelValues(q)) * LabelSet(labels);
    }
  }

  /**
   What being claimed first means, policy by policy, whatever the case of the policy's name and its outer blanks;
   an unknown policy or none counts as fifo.
   */
  ghost predicate ClaimedBefore(runs: map<string, Run>, policy: string, labels: seq<string>, x: string, y: string)
    requires x in runs && y in runs
  {
    var a, b := runs[x], runs[y];
    var oldest := EarlierOf(a.queuedAt, a.createdAt, x, b.queuedAt, b.createdAt, y);
    var urgent := MoreUrgent(a.request, b.request) || (AsUrgent(a.request, b.request) && oldest);
    var m, n := SharedLabels(a.request, labels), SharedLabels(b.request, labels);
    match Lower(Trim(policy))
    case "lifo" =>
      a.queuedAt > b.queuedAt
      || (a.queuedAt == b.queuedAt && (a.createdAt > b.createdAt || (a.createdAt == b.createdAt && StrLess(x, y))))
    case "priority" => urgent
    case "affinity" => m > n || (m == n && urgent)
    case _ => oldest
  }

  lemma NumbersLessCons(a: int, s: seq<int>, b: int, t: seq<int>)
    ensures NumbersLess([a] + s, [b] + t) <==> a < b || (a == b && NumbersLess(s, t))
    ensures [a] + s == [b] + t <==> a == b && s == t
  {}

  lemma PairLess(a: int, b: int, x: string, c: int, d: int, y: string)
    ensures KeyLess([a, b], x, [c, d], y) <==> EarlierOf(a, b, x, c, d, y)
  {
    assert [a, b] == [a] + [b] && [c, d] == [c] + [d];
    NumbersLessCons(a, [b], c, [d]);
    assert [b] == [b] + [] && [d] == [d] + [];
    NumbersLessCons(b, [], d, []);
  }

  lemma TripleLess(p: int, a: int, b: int, x: string, q: int, c: int, d: int, y: string)
    ensures KeyLess([p, a, b], x, [q, c, d], y) <==> p < q || (p == q && EarlierOf(a, b, x, c, d, y))
  {
    assert [p, a, b] == [p] + [a, b] && [q, c, d] == [q] + [c, d];
    NumbersLessCons(p, [a, b], q, [c, d]);
    PairLess(a, b, x, c, d, y);
  }

  lemma QuadrupleLess(m: int, p: int, a: int, b: int, x: string, n: int, q: int, c: int, d: int, y: string)
    ensures KeyLess([m, p, a, b], x, [n, q, c, d], y) <==>
            m < n || (m == n && (p < q || (p == q && EarlierOf(a, b, x, c, d, y))))
  {
    assert [m, p, a, b] == [m] + [p, a, b] && [n, q, c, d] == [n] + [q, c, d];
    NumbersLessCons(m, [p, a, b], n, [q, c, d]);
    TripleLess(p, a, b, x, q, c, d, y);
  }

  lemma NameOfPolicy(policy: string)
    ensures PolicyName(policy) == if policy == "" then "fifo" else Lower(Trim(policy))
    ensures Lower(Trim("")) == ""
  {
    TrimShape("fifo");
    assert Trim("") == "";
    assert Lower("fifo") == "fifo";
  }

  /** The order of a policy, given the priorities p and q and the label scores m and n of two runs. */
  predicate OrderedBy(name: string, a: Run, x: string, p: int, m: int, b: Run, y: string, q: int, n: int) {
    var oldest := EarlierOf(a.queuedAt, a.createdAt, x, b.queuedAt, b.createdAt, y);
    match name
    case "lifo" =>
      a.queuedAt > b.queuedAt
      || (a.queuedAt == b.queuedAt && (a.createdAt > b.createdAt || (a.createdAt == b.createdAt && StrLess(x, y))))
    case "priority" => p > q || (p == q && oldest)
    case "affinity" => m > n || (m == n && (p > q || (p == q && oldest)))
    case _ => oldest
  }

  lemma KeysOrder(runs: map<string, Run>, name: string, labels: seq<string>, x: string, y: string)
    requires x in runs && y in runs
    ensures var a, b := runs[x], runs[y];
      Before(runs, name, labels, x, y) <==>
      OrderedBy(name, a, x, Priority(a.request), LabelScore(a.request, labels),
                b, y, Priority(b.request), LabelScore(b.request, labels))
  {
    var a, b := runs[x], runs[y];
    var p, q := -Priority(a.request), -Priority(b.request);
    if name == "lifo" {
      PairLess(-a.queuedAt, -a.createdAt, x, -b.queuedAt, -b.createdAt, y);
    } else if name == "priority" {
      TripleLess(p, a.queuedAt, a.createdAt, x, q, b.queuedAt, b.createdAt, y);
    } else if name == "affinity" {
      var m, n := -(LabelScore(a.request, labels) as int), -(LabelScore(b.request, labels) as int);
      QuadrupleLess(m, p, a.queuedAt, a.createdAt, x, n, q, b.queuedAt, b.createdAt, y);
    } else {
      PairLess(a.queuedAt, a.createdAt, x, b.queuedAt, b.createdAt, y);
    }
  }

  lemma UrgencyIsPriority(a: RunRequest, b: RunRequest)
    ensures MoreUrgent(a, b) <==> Priority(a) > Priority(b)
    ensures AsUrgent(a, b) <==> Priority(a) == Priority(b)
  {}

  /** The policies' keys order runs as the policies are meant to. */
  lemma PolicyMeaning(runs: map<string, Run>, policy: string, labels: seq<string>, x: string, y: string)
    requires x in runs && y in runs
    ensures Before(runs, PolicyName(policy), Normalized(labels), x, y) <==> ClaimedBefore(runs, policy, labels, x, y)
  {
    KeysOrder(runs, PolicyName(policy), Normalized(labels), x, y);
    NameOfPolicy(policy);
    SharedLabelsScore(runs[x].request, labels);
    SharedLabelsScore(runs[y].request, labels);
    UrgencyIsPriority(runs[x].request, runs[y].request);
  }

  // ----- who may claim what

  /** When a worker was last heard of: its last heartbeat, or its creation. */
  function LastHeardOf(w: Worker): (time: int) {
    match w.heartbeatAt
    case Some(time) => time
    case None => w.createdAt
  }

  /**
   The worker is unnamed, not yet known, or has room, is neither unhealthy nor stale, and has been heard of in time
   or reports itself offline. A timeout that is not positive never runs out.
   */
  predicate MayClaim(s: Store, timeout: int, worker: string, now: int) {
    worker != "" && worker in s.workers ==>
      var w := s.workers[worker];
      var health := Lower(Trim(w.health));
      w.activeLeases < w.capacity && health != "unhealthy" && health != "stale"
      && (timeout > 0 && now - LastHeardOf(w) > timeout ==> health == "offline")
  }

  /** A queued run that asks for no label the worker lacks; a worker without labels may take any. */
  ghost predicate Claimable(s: Store, labels: seq<string>, id: string) {
    && id in s.runs && s.runs[id].state == Queued
    && (Unlabelled(labels) || forall l :: Asks(s.runs[id].request.routingLabels, l) ==> Asks(labels, l))
  }

  /** The run comes before every other claimable one. */
  ghost predicate FirstClaimable(s: Store, labels: seq<string>, policy: string, id: string) {
    id in s.runs
    && forall other :: Claimable(s, labels, other) && other != id ==> ClaimedBefore(s.runs, policy, labels, id, other)
  }

  lemma CandidatesExactly(s: Store, labels: seq<string>, id: string)
    ensures id in Candidates(s.runs, Normalized(labels)) <==> Claimable(s, labels, id)
  {
    NormalizedExactly(labels);
    if id in s.runs {
      NormalizedExactly(s.runs[id].request.routingLabels);
    }
  }

  /** A claim is refused exactly if the worker may not claim. A worker the store has not seen yet always may. */
  lemma ClaimRefusedExactlyWhen(s: Store, worker: string, labels: seq<string>, timeout: int, now: int)
    ensures ClaimRefused(s, worker, labels, timeout, now) <==> !MayClaim(s, timeout, worker, now)
  {
    if worker !in s.workers {
      TrimShape("healthy");
      assert Lower("healthy") == "healthy";
    }
  }

  /** A claim hands out a run exactly if the worker may claim and some run is claimable. */
  lemma GrantsExactlyWhen(s: Store, timeout: int, worker: string, labels: seq<string>, policy: string, now: int)
    ensures (exists id :: Grants(s, timeout, worker, labels, policy, now, id)) <==>
            MayClaim(s, timeout, worker, now) && exists id :: Claimable(s, labels, id)
  {
    var norm := Normalized(labels);
    ClaimRefusedExactlyWhen(s, worker, norm, timeout, now);
    if id :| Claimable(s, labels, id) {
      CandidatesExactly(s, labels, id);
      if !ClaimRefused(s, worker, norm, timeout, now) {
        var x := FirstExists(s.runs, PolicyName(policy), norm, Candidates(s.runs, norm));
        assert Grants(s, timeout, worker, labels, policy, now, x);
      }
    }
    if id :| Grants(s, timeout, worker, labels, policy, now, id) {
      CandidatesExactly(s, labels, id);
    }
  }

  /** The run handed out is exactly the first of the claimable ones in the order of the policy. */
  lemma GrantsFirst(s: Store, timeout: int, worker: string, labels: seq<string>, policy: string, now: int, id: string)
    ensures Grants(s, timeout, worker, labels, policy, now, id) <==>
            MayClaim(s, timeout, worker, now) && Claimable(s, labels, id) && FirstClaimable(s, labels, policy, id)
  {
    var norm := Normalized(labels);
    ClaimRefusedExactlyWhen(s, worker, norm, timeout, now);
    CandidatesExactly(s, labels, id);
    if id in s.runs {
      forall other
        ensures other in Candidates(s.runs, norm) <==> Claimable(s, labels, other)
        ensures other in s.runs ==> (Before(s.runs, PolicyName(policy), norm, id, other)
                                     <==> ClaimedBefore(s.runs, policy, labels, id, other))
      {
        CandidatesExactly(s, labels, other);
        if other in s.runs {
          PolicyMeaning(s.runs, policy, labels, id, other);
        }
      }
    }
  }

  /** A claim without an outcome: the worker may not claim or no run is claimable. */
  lemma NoGrantExactly(s: Store, timeout: int, worker: string, labels: seq<string>, policy: string, now: int)
    ensures NoGrant(s, timeout, worker, labels, now) <==>
            !(MayClaim(s, timeout, worker, now) && exists id :: Claimable(s, labels, id))
  {
    var ids := Candidates(s.runs, Normalized(labels));
    ClaimRefusedExactlyWhen(s, worker, Normalized(labels), timeout, now);
    if id :| Claimable(s, labels, id) {
      CandidatesExactly(s, labels, id);
    }
    if ids != {} {
      var id :| id in ids;
      CandidatesExactly(s, labels, id);
    }
  }

  /** A worker with room that reports itself offline is handed a run, however old its heartbeat is. */
  lemma OfflineWorkerGranted(s: Store, timeout: int, worker: string, labels: seq<string>, policy: string, now: int)
    returns (id: string)
    requires worker in s.workers && Lower(Trim(s.workers[worker].health)) == "offline"
    requires s.workers[worker].activeLeases < s.workers[worker].capacity
    requires timeout > 0 && now - LastHeardOf(s.workers[worker]) > timeout
    requires exists run :: Claimable(s, labels, run)
    ensures Grants(s, timeout, worker, labels, policy, now, id)
  {
    GrantsExactlyWhen(s, timeout, worker, labels, policy, now);
    id :| Grants(s, timeout, worker, labels, policy, now, id);
  }

  // ----- labels of the metadata

  /** A labelled worker that may take a run by its labels. */
  ghost predicate Serves(labels: seq<string>, q: RunRequest) {
    !Unlabelled(labels) && forall l :: Asks(q.routingLabels, l) ==> Asks(labels, l)
  }

  /**
   Every labelled worker that may take a run has all the labels that its affinity score counts exactly if those
   labels are among the ones the request itself asks for.
   */
  lemma RoutingLabelsRequiredExactly(q: RunRequest)
    ensures (forall labels :: Serves(labels, q) ==> LabelSet(LabelValues(q)) <= LabelSet(labels))
       <==> LabelSet(LabelValues(q)) <= LabelSet(q.routingLabels)
  {
    var counted := LabelSet(LabelValues(q));
    if l :| l in counted && l !in LabelSet(q.routingLabels) {
      var has := if l == "a" then "b" else "a";
      OneLabel(has);
      var labels := if Unlabelled(q.routingLabels) then [has] else q.routingLabels;
      assert Serves(labels, q) && l !in LabelSet(labels);
    }
  }

  lemma OneLabel(l: string)
    requires Trimmed(l)
    ensures LabelSet([l]) == {l} && !Unlabelled([l])
  {
    TrimShape(l);
    assert Trim([l][0]) == l;
    forall k
      ensures Asks([l], k) <==> k == l
    {}
  }

  /**
   A run whose metadata asks for one label is handed to a worker that has only another one: any queued run that
   itself asks for none, under any policy, in a store that holds no other run.
   */
  lemma MetadataLabelsIgnored(s: Store, id: string, run: Run, timeout: int, worker: string, needed: string, has: string,
                              policy: string, now: int)
    requires s.runs == map[id := run] && run.state == Queued && worker !in s.workers
    requires run.request.routingLabels == [] && run.request.metadataLabels == Some([needed])
    requires Trimmed(needed) && Trimmed(has) && needed != has
    ensures Grants(s, timeout, worker, [has], policy, now, id)
    ensures LabelSet(LabelValues(run.request)) == {needed} && LabelSet([has]) == {has}
  {
    OneLabel(needed);
    OneLabel(has);
    GrantsFirst(s, timeout, worker, [has], policy, now, id);
  }

  /** A claim has exactly one outcome. */
  lemma ClaimDeterministic(s: Store, timeout: int, worker: string, labels: seq<string>, policy: string, now: int,
                           t: Store, u: Store)
    requires Step(s, timeout, DoClaim(worker, labels, policy, now), t)
    requires Step(s, timeout, DoClaim(worker, labels, policy, now), u)
    ensures t == u
  {
    var norm := Normalized(labels);
    if !NoGrant(s, timeout, worker, labels, now) {
      var x :| Grants(s, timeout, worker, labels, policy, now, x) && t == Grant(s, x, worker, norm, now);
      var y :| Grants(s, timeout, worker, labels, policy, now, y) && u == Grant(s, y, worker, norm, now);
      FirstUnique(s.runs, PolicyName(policy), norm, Candidates(s.runs, norm), x, y);
    }
  }

  /** A claim always has an outcome. */
  lemma ClaimTotal(s: Store, timeout: int, worker: string, labels: seq<string>, policy: string, now: int)
    ensures exists t :: Step(s, timeout, DoClaim(worker, labels, policy, now), t)
  {
    var norm := Normalized(labels);
    if NoGrant(s, timeout, worker, labels, now) {
      assert Step(s, timeout, DoClaim(worker, labels, policy, now), s);
    } else {
      var x := FirstExists(s.runs, PolicyName(policy), norm, Candidates(s.runs, norm));
      assert Grants(s, timeout, worker, labels, policy, now, x);
      assert Step(s, timeout, DoClaim(worker, labels, policy, now), Grant(s, x, worker, norm, now));
    }
  }
}
