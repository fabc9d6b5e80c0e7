/** Turning collected items into numbered jobs: by chunks, by repetition, or by splitting. */
module Planner {
  import opened Wrappers
  import opened Sequences
  import opened Text
  import opened Jobs
  import opened Splitting
  import opened Strategies

  datatype PlanResult = PlanResult(jobs: seq<JobPlan>, itemsTotal: nat, chunkSize: nat)

  datatype PlanError =
    | BadChunkSize
    | BadExecutionCount
    | BadSplitCount
    | UnsupportedMode
    | SplitFailed(error: SplitError)

  function JobId(n: nat): (id: string) {
    "job-" + ZeroPadded(n, 4)
  }

  /** Jobs are called job-0001, job-0002, ... */
  lemma JobIdReads(n: nat)
    ensures var id := JobId(n); |id| >= 4 && id[..4] == "job-" && Renders(id[4..], n, 4)
  {
    ZeroPaddedRenders(n, 4);
    assert ("job-" + ZeroPadded(n, 4))[4..] == ZeroPadded(n, 4);
  }

  ghost predicate Numbered(jobs: seq<JobPlan>) {
    forall i :: 0 <= i < |jobs| ==> jobs[i].jobId == JobId(i + 1)
  }

  ghost predicate AllNonEmpty(jobs: seq<JobPlan>) {
    forall i :: 0 <= i < |jobs| ==> jobs[i].items != []
  }

  /** Jobs numbered in sequence have distinct ids. */
  lemma NumberedDistinct(jobs: seq<JobPlan>)
    requires Numbered(jobs)
    ensures Distinct(JobIds(jobs))
  {
    forall i, j | 0 <= i < j < |jobs|
      ensures JobIds(jobs)[i] != JobIds(jobs)[j]
    {
      if JobId(i + 1) == JobId(j + 1) {
        assert JobId(i + 1)[4..] == ZeroPadded(i + 1, 4);
        assert JobId(j + 1)[4..] == ZeroPadded(j + 1, 4);
        ZeroPaddedInjective(i + 1, j + 1, 4);
      }
    }
  }

  lemma {:induction false} RepeatMultiset<T>(a: seq<T>, b: seq<T>, n: nat)
    requires multiset(a) == multiset(b)
    ensures multiset(Repeat(a, n)) == multiset(Repeat(b, n))
  {
    if n > 0 {
      RepeatMultiset(a, b, n - 1);
    }
  }

  lemma {:induction false} RepeatCounts<T>(s: seq<T>, n: nat, x: T)
    ensures multiset(Repeat(s, n))[x] == n * multiset(s)[x]
    ensures |Repeat(s, n)| == n * |s|
  {
    if n > 0 {
      RepeatCounts(s, n - 1, x);
      MultisetOfSum(Repeat(s, n - 1), s, x);
      assert n * multiset(s)[x] == (n - 1) * multiset(s)[x] + multiset(s)[x];
      assert n * |s| == (n - 1) * |s| + |s|;
    }
  }

  /** The jobs in the making: numbered, none empty. */
  ghost predicate Building(jobs: seq<JobPlan>, items: seq<TestItem>) {
    Numbered(jobs) && AllNonEmpty(jobs) && AllItems(jobs) == items
  }

  method AppendJob(jobs: seq<JobPlan>, items: seq<TestItem>) returns (r: seq<JobPlan>)
    requires Building(jobs, AllItems(jobs)) && items != []
    ensures Building(r, AllItems(jobs) + items)
    ensures r == jobs + [JobPlan(JobId(|jobs| + 1), items)] && JobGroups(r) == JobGroups(jobs) + [items]
  {
    r := jobs + [JobPlan(JobId(|jobs| + 1), items)];
    AllItemsSnoc(jobs, JobPlan(JobId(|jobs| + 1), items));
  }

  /** The groups that hold anything. */
  function NonEmpty(groups: seq<seq<TestItem>>): (r: seq<seq<TestItem>>) {
    if groups == [] then []
    else
      var n := |groups| - 1;
      NonEmpty(groups[..n]) + if groups[n] == [] then [] else [groups[n]]
  }

  /** The groups that hold anything, in order. */
  lemma {:induction false} NonEmptyExactly(groups: seq<seq<TestItem>>) returns (at: seq<nat>)
    ensures Selected(groups, (g: seq<TestItem>) => if g == [] then None else Some(g), NonEmpty(groups), at)
  {
    at := [];
    if groups != [] {
      var init := groups[..|groups| - 1];
      var f := (g: seq<TestItem>) => if g == [] then None else Some(g);
      at := NonEmptyExactly(init);
      at := SelectedSnoc(groups, f, NonEmpty(init), at);
      assert NonEmpty(init) + [] == NonEmpty(init);
    }
  }

  /** One job per non-empty group, in order, all groups repeated. */
  method RepeatGroups(groups: seq<seq<TestItem>>, repeats: nat) returns (jobs: seq<JobPlan>)
    ensures Building(jobs, Repeat(Flatten(groups), repeats))
    ensures JobGroups(jobs) == Repeat(NonEmpty(groups), repeats)
  {
    jobs := [];
    for n := 0 to repeats
      invariant Building(jobs, Repeat(Flatten(groups), n))
      invariant JobGroups(jobs) == Repeat(NonEmpty(groups), n)
    {
      jobs := AppendGroups(jobs, groups);
    }
  }

  method AppendGroups(jobs: seq<JobPlan>, groups: seq<seq<TestItem>>) returns (r: seq<JobPlan>)
    requires Building(jobs, AllItems(jobs))
    ensures Building(r, AllItems(jobs) + Flatten(groups))
    ensures JobGroups(r) == JobGroups(jobs) + NonEmpty(groups)
  {
    r := jobs;
    ghost var done := AllItems(jobs);
    assert groups[..0] == [];
    assert done + Flatten(groups[..0]) == done;
    for g := 0 to |groups|
      invariant Building(r, done + Flatten(groups[..g]))
      invariant JobGroups(r) == JobGroups(jobs) + NonEmpty(groups[..g])
    {
      GroupNext(groups, g, done, JobGroups(jobs));
      if groups[g] != [] {
        r := AppendJob(r, groups[g]);
      }
    }
    assert groups[..|groups|] == groups;
  }

  lemma GroupNext(groups: seq<seq<TestItem>>, g: nat, done: seq<TestItem>, before: seq<seq<TestItem>>)
    requires g < |groups|
    ensures done + Flatten(groups[..g + 1]) == (done + Flatten(groups[..g])) + groups[g]
    ensures before + NonEmpty(groups[..g + 1]) ==
            (before + NonEmpty(groups[..g])) + if groups[g] == [] then [] else [groups[g]]
  {
    assert groups[..g + 1] == groups[..g] + [groups[g]];
    assert groups[..g + 1][..g] == groups[..g];
    FlattenSnoc(groups[..g], groups[g]);
  }

  /** One job per item, the whole list repeated. */
  method RepeatItems(items: seq<TestItem>, repeats: nat) returns (jobs: seq<JobPlan>)
    ensures Building(jobs, Repeat(items, repeats))
    ensures forall j :: j in jobs ==> |j.items| == 1
  {
    jobs := [];
    for n := 0 to repeats
      invariant Building(jobs, Repeat(items, n))
      invariant forall j :: j in jobs ==> |j.items| == 1
    {
      ghost var done := Repeat(items, n);
      for i := 0 to |items|
        invariant Building(jobs, done + items[..i])
        invariant forall j :: j in jobs ==> |j.items| == 1
      {
        jobs := AppendJob(jobs, [items[i]]);
        assert items[..i + 1] == items[..i] + [items[i]];
      }
      assert items[..|items|] == items;
    }
  }

  /** Every job but the last has the given size, and the last one has no more. */
  ghost predicate Chunked(jobs: seq<JobPlan>, size: nat) {
    && (forall i :: 0 <= i < |jobs| ==> |jobs[i].items| <= size)
    && (forall i :: 0 <= i < |jobs| - 1 ==> |jobs[i].items| == size)
  }

  /** Consecutive chunks of the given size; only the last one may be shorter. */
  method ChunkItems(items: seq<TestItem>, chunkSize: nat) returns (jobs: seq<JobPlan>)
    requires chunkSize >= 1
    ensures Building(jobs, items)
    ensures Chunked(jobs, chunkSize)
  {
    jobs := [];
    var i := 0;
    while i < |items|
      invariant 0 <= i && Building(jobs, UpTo(items, i))
      invariant forall k :: 0 <= k < |jobs| ==> |jobs[k].items| <= chunkSize
      invariant forall k :: 0 <= k < |jobs| - 1 ==> |jobs[k].items| == chunkSize
      invariant i <= |items| && jobs != [] ==> |jobs[|jobs| - 1].items| == chunkSize
      decreases |items| - i
    {
      var end := if i + chunkSize <= |items| then i + chunkSize else |items|;
      UpToNext(items, i, end, i + chunkSize);
      jobs := AppendJob(jobs, items[i..end]);
      i := i + chunkSize;
    }
    assert UpTo(items, i) == items;
  }

  /** The first i items, or all if there are fewer. */
  function UpTo(items: seq<TestItem>, i: nat): (r: seq<TestItem>) {
    if i <= |items| then items[..i] else items
  }

  lemma UpToNext(items: seq<TestItem>, i: nat, end: nat, next: nat)
    requires i <= end <= |items| && (end == next || (end == |items| && next > end))
    ensures UpTo(items, i) + items[i..end] == UpTo(items, next)
  {}

  /** The size of the largest job, or the default if there are no jobs. */
  ghost predicate IsLargest(jobs: seq<JobPlan>, size: nat, default: nat) {
    && (jobs == [] ==> size == default)
    && (jobs != [] ==> exists j :: j in jobs && |j.items| == size)
    && forall j :: j in jobs ==> |j.items| <= size
  }

  method LargestJob(jobs: seq<JobPlan>, default: nat) returns (size: nat)
    ensures IsLargest(jobs, size, default)
  {
    if jobs == [] {
      return default;
    }
    size := |jobs[0].items|;
    for i := 1 to |jobs|
      invariant exists j :: j in jobs && |j.items| == size
      invariant forall k :: 0 <= k < i ==> |jobs[k].items| <= size
    {
      if size < |jobs[i].items| {
        size := |jobs[i].items|;
      }
    }
  }

  /**
   A plan holds the collected list, or one job per non-empty split group in order, repeated as asked.
   */
  ghost predicate PlansItems(items: seq<TestItem>, split: SplitSpec, manifest: seq<seq<string>>, weights: Weights,
                             repeats: nat, jobs: seq<JobPlan>) {
    if split.count > 1 || (split.manifestPath.Some? && split.manifestPath.value != "") then
      exists groups :: GroupsFor(items, split, manifest, weights, groups)
                       && JobGroups(jobs) == Repeat(NonEmpty(groups), repeats)
                       && AllItems(jobs) == Repeat(Flatten(groups), repeats)
    else
      AllItems(jobs) == Repeat(items, repeats)
  }

  /** A well-formed plan of the given items. */
  ghost predicate GoodPlan(items: seq<TestItem>, split: SplitSpec, manifest: seq<seq<string>>, weights: Weights,
                           repeats: nat, p: PlanResult) {
    && Numbered(p.jobs) && Distinct(JobIds(p.jobs)) && AllNonEmpty(p.jobs)
    && PlansItems(items, split, manifest, weights, repeats, p.jobs)
    && p.itemsTotal == |items| * repeats
    && forall j :: j in p.jobs ==> |j.items| <= p.chunkSize
  }

  method PlanSplit(items: seq<TestItem>, chunkSize: nat, split: SplitSpec, repeats: nat,
                   manifest: seq<seq<string>>, weights: Weights)
    returns (r: Result<PlanResult, SplitError>)
    requires split.Enabled()
    ensures r.Ok? ==> GoodPlan(items, split, manifest, weights, repeats, r.value)
    ensures r.Ok? ==> IsLargest(r.value.jobs, r.value.chunkSize, chunkSize)
    ensures r.Err? <==> split.HasManifest() && (manifest == [] || !ManifestFits(items, manifest))
    ensures r.Err? ==> SplitFault(items, manifest, r.error)
  {
    var groups := SplitItems(items, split, manifest, weights);
    if groups.Err? {
      return Err(groups.error);
    }
    var p := PlanGroups(items, chunkSize, split, repeats, manifest, weights, groups.value);
    r := Ok(p);
  }

  method PlanGroups(items: seq<TestItem>, chunkSize: nat, split: SplitSpec, repeats: nat,
                    manifest: seq<seq<string>>, weights: Weights, groups: seq<seq<TestItem>>)
    returns (p: PlanResult)
    requires split.Enabled() && GroupsFor(items, split, manifest, weights, groups)
    ensures GoodPlan(items, split, manifest, weights, repeats, p)
    ensures IsLargest(p.jobs, p.chunkSize, chunkSize)
  {
    var jobs := RepeatGroups(groups, repeats);
    var largest := LargestJob(jobs, chunkSize);
    SplitPlanGood(items, split, manifest, weights, repeats, groups, jobs, largest, chunkSize);
    p := PlanResult(jobs, |items| * repeats, largest);
  }

  lemma SplitPlanGood(items: seq<TestItem>, split: SplitSpec, manifest: seq<seq<string>>, weights: Weights,
                      repeats: nat, groups: seq<seq<TestItem>>, jobs: seq<JobPlan>, size: nat, default: nat)
    requires split.Enabled() && GroupsFor(items, split, manifest, weights, groups)
    requires Building(jobs, Repeat(Flatten(groups), repeats)) && JobGroups(jobs) == Repeat(NonEmpty(groups), repeats)
    requires IsLargest(jobs, size, default)
    ensures GoodPlan(items, split, manifest, weights, repeats, PlanResult(jobs, |items| * repeats, size))
  {
    NumberedDistinct(jobs);
    assert PlansItems(items, split, manifest, weights, repeats, jobs);
  }

  method PlanWhole(items: seq<TestItem>, chunkSize: nat, split: SplitSpec, mode: string, executionCount: nat,
                   manifest: seq<seq<string>>, weights: Weights)
    returns (p: PlanResult)
    requires !split.Enabled() && chunkSize >= 1
    ensures GoodPlan(items, split, manifest, weights, if mode == "repeat" then executionCount else 1, p)
    ensures mode == "repeat" ==> p.chunkSize == 1
    ensures mode != "repeat" ==> Chunked(p.jobs, chunkSize) && p.chunkSize == chunkSize
  {
    if mode == "repeat" {
      var jobs := RepeatItems(items, executionCount);
      NumberedDistinct(jobs);
      return PlanResult(jobs, |items| * executionCount, 1);
    }
    var jobs := ChunkItems(items, chunkSize);
    NumberedDistinct(jobs);
    assert Repeat(items, 1) == Repeat(items, 0) + items == items;
    p := PlanResult(jobs, |items|, chunkSize);
  }

  /** Without a manifest, the jobs hold exactly the collected items times the repeat count. */
  lemma PlanKeepsItems(items: seq<TestItem>, split: SplitSpec, manifest: seq<seq<string>>, weights: Weights,
                       repeats: nat, jobs: seq<JobPlan>)
    requires PlansItems(items, split, manifest, weights, repeats, jobs) && !split.HasManifest()
    ensures multiset(AllItems(jobs)) == multiset(Repeat(items, repeats))
  {
    if split.Enabled() {
      var groups :| GroupsFor(items, split, manifest, weights, groups)
                    && AllItems(jobs) == Repeat(Flatten(groups), repeats);
      RepeatMultiset(Flatten(groups), items, repeats);
    }
  }

  /** With a manifest, they do exactly when the manifest lists no id in two groups. */
  lemma ManifestPlanKeepsItems(items: seq<TestItem>, split: SplitSpec, manifest: seq<seq<string>>, weights: Weights,
                               repeats: nat, jobs: seq<JobPlan>)
    requires PlansItems(items, split, manifest, weights, repeats, jobs) && split.HasManifest() && repeats >= 1
    ensures multiset(AllItems(jobs)) == multiset(Repeat(items, repeats)) <==> GroupsDisjoint(manifest)
  {
    var groups := ManifestGroups(manifest);
    assert AllItems(jobs) == Repeat(Flatten(groups), repeats);
    ManifestConserves(items, manifest);
    if multiset(AllItems(jobs)) == multiset(Repeat(items, repeats)) {
      forall x
        ensures multiset(Flatten(groups))[x] == multiset(items)[x]
      {
        RepeatCounts(Flatten(groups), repeats, x);
        RepeatCounts(items, repeats, x);
        CancelFactor(repeats, multiset(Flatten(groups))[x], multiset(items)[x]);
      }
    } else if multiset(Flatten(groups)) == multiset(items) {
      RepeatMultiset(Flatten(groups), items, repeats);
    }
  }

  lemma CancelFactor(n: nat, a: nat, b: nat)
    requires n >= 1 && n * a == n * b
    ensures a == b
  {}

  predicate ArgumentsOk(chunkSize: int, mode: string, executionCount: int, splitCount: int) {
    chunkSize > 0 && executionCount > 0 && splitCount > 0 && (mode == "once" || mode == "repeat")
  }

  /** Every item is in the list exactly n times as often as it was collected, and nothing else is. */
  ghost predicate HoldsEach(list: seq<TestItem>, items: seq<TestItem>, n: nat) {
    forall x :: multiset(list)[x] == n * multiset(items)[x]
  }

  /** A manifest is used that lists some item in two groups. */
  ghost predicate SplitsBadly(manifestPath: Option<string>, manifest: seq<seq<string>>) {
    manifestPath.Some? && manifestPath.value != "" && !GroupsDisjoint(manifest)
  }

  lemma RepeatHoldsEach(list: seq<TestItem>, items: seq<TestItem>, n: nat)
    ensures HoldsEach(list, items, n) <==> multiset(list) == multiset(Repeat(items, n))
  {
    forall x
      ensures multiset(Repeat(items, n))[x] == n * multiset(items)[x]
    {
      RepeatCounts(items, n, x);
    }
  }

  /** When a plan holds the items as often as asked: always, but for manifests that list an id twice. */
  lemma PlanHoldsEach(items: seq<TestItem>, split: SplitSpec, manifest: seq<seq<string>>, weights: Weights,
                      repeats: nat, jobs: seq<JobPlan>)
    requires PlansItems(items, split, manifest, weights, repeats, jobs) && repeats >= 1
    ensures HoldsEach(AllItems(jobs), items, repeats) <==> !SplitsBadly(split.manifestPath, manifest)
  {
    RepeatHoldsEach(AllItems(jobs), items, repeats);
    if split.HasManifest() {
      ManifestPlanKeepsItems(items, split, manifest, weights, repeats, jobs);
    } else {
      PlanKeepsItems(items, split, manifest, weights, repeats, jobs);
    }
  }

  /** A manifest is asked for but was not loaded or does not fit the items. */
  ghost predicate ManifestBad(items: seq<TestItem>, manifestPath: Option<string>, manifest: seq<seq<string>>) {
    manifestPath.Some? && manifestPath.value != "" && (manifest == [] || !ManifestFits(items, manifest))
  }

  /** The first thing wrong with the arguments, or else with the manifest. */
  ghost predicate PlanFault(items: seq<TestItem>, chunkSize: int, mode: string, executionCount: int, splitCount: int,
                            manifest: seq<seq<string>>, e: PlanError)
  {
    if chunkSize <= 0 then e == BadChunkSize
    else if executionCount <= 0 then e == BadExecutionCount
    else if splitCount <= 0 then e == BadSplitCount
    else if mode != "once" && mode != "repeat" then e == UnsupportedMode
    else e.SplitFailed? && SplitFault(items, manifest, e.error)
  }

  /**
   Plans the jobs of a stage. Job ids are distinct, no job is empty, and the jobs hold every collected item once,
   or in mode "repeat" as often as asked, unless a manifest lists some item in two groups.
   */
  method Plan(items: seq<TestItem>, chunkSize: int, mode: string, executionCount: int, splitCount: int,
              manifestPath: Option<string>, manifest: seq<seq<string>>, weights: Weights)
    returns (r: Result<PlanResult, PlanError>)
    ensures r.Err? <==> !ArgumentsOk(chunkSize, mode, executionCount, splitCount)
                        || ManifestBad(items, manifestPath, manifest)
    ensures r.Err? ==> PlanFault(items, chunkSize, mode, executionCount, splitCount, manifest, r.error)
    ensures r.Ok? ==> GoodPlan(items, SplitSpec(splitCount, manifestPath), manifest, weights,
                               if mode == "repeat" then executionCount else 1, r.value)
    ensures r.Ok? ==>
            if splitCount > 1 || (manifestPath.Some? && manifestPath.value != "")
            then IsLargest(r.value.jobs, r.value.chunkSize, chunkSize)
            else if mode == "repeat" then r.value.chunkSize == 1
            else Chunked(r.value.jobs, chunkSize) && r.value.chunkSize == chunkSize
    ensures r.Ok? && mode == "once" ==> r.value.itemsTotal == |items|
    ensures r.Ok? && mode == "repeat" ==> r.value.itemsTotal == |items| * executionCount
    ensures r.Ok? && mode == "once" ==>
            (HoldsEach(AllItems(r.value.jobs), items, 1) <==> !SplitsBadly(manifestPath, manifest))
    ensures r.Ok? && mode == "repeat" ==>
            (HoldsEach(AllItems(r.value.jobs), items, executionCount) <==> !SplitsBadly(manifestPath, manifest))
  {
    if chunkSize <= 0 {
      return Err(BadChunkSize);
    }
    if executionCount <= 0 {
      return Err(BadExecutionCount);
    }
    if splitCount <= 0 {
      return Err(BadSplitCount);
    }
    var split := SplitSpec(splitCount, manifestPath);
    if mode != "once" && mode != "repeat" {
      return Err(UnsupportedMode);
    }
    ghost var repeats := if mode == "repeat" then executionCount else 1;
    if split.Enabled() {
      var p := PlanSplit(items, chunkSize, split, if mode == "repeat" then executionCount else 1, manifest, weights);
      if p.Err? {
        return Err(SplitFailed(p.error));
      }
      PlanHoldsEach(items, split, manifest, weights, repeats, p.value.jobs);
      return Ok(p.value);
    }
    var p := PlanWhole(items, chunkSize, split, mode, executionCount, manifest, weights);
    PlanHoldsEach(items, split, manifest, weights, repeats, p.jobs);
    r := Ok(p);
  }
}
