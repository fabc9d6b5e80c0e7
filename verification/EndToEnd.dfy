/** Planning followed by dispatching: what becomes of every collected item. */
module EndToEnd {
  import opened Wrappers
  import opened Sequences
  import opened Jobs
  import opened Dispatch
  import opened Dispatcher
  import opened Splitting
  import opened Planner

  /** The item ids named by all results, in result order. */
  function ReportedItems(results: seq<JobResult>): (ids: seq<string>) {
    Flatten(seq(|results|, i requires 0 <= i < |results| => results[i].itemIds))
  }

  /** The item ids of the planned job with the given id. */
  ghost function IdsOfJob(plan: seq<JobPlan>, id: string): (ids: seq<string>) {
    if exists j :: j in plan && j.jobId == id then
      var j :| j in plan && j.jobId == id; ItemIds(j.items)
    else []
  }

  lemma IdsOfJobIs(plan: seq<JobPlan>, j: JobPlan)
    requires Distinct(JobIds(plan)) && j in plan
    ensures IdsOfJob(plan, j.jobId) == ItemIds(j.items)
  {}

  lemma {:induction false} PlanItemIds(plan: seq<JobPlan>, jobs: seq<JobPlan>)
    requires Distinct(JobIds(plan)) && forall j :: j in jobs ==> j in plan
    ensures Flatten(Mapped(JobIds(jobs), (id: string) => IdsOfJob(plan, id))) == ItemIds(AllItems(jobs))
  {
    var f := (id: string) => IdsOfJob(plan, id);
    if jobs == [] {
      assert Mapped(JobIds(jobs), f) == [];
    } else {
      var n := |jobs| - 1;
      assert jobs == jobs[..n] + [jobs[n]];
      PlanItemIds(plan, jobs[..n]);
      PlanItemIdsSnoc(plan, jobs[..n], jobs[n]);
    }
  }

  lemma PlanItemIdsSnoc(plan: seq<JobPlan>, init: seq<JobPlan>, last: JobPlan)
    requires Distinct(JobIds(plan)) && last in plan
    ensures var f := (id: string) => IdsOfJob(plan, id);
      Flatten(Mapped(JobIds(init + [last]), f)) == Flatten(Mapped(JobIds(init), f)) + ItemIds(last.items)
    ensures ItemIds(AllItems(init + [last])) == ItemIds(AllItems(init)) + ItemIds(last.items)
  {
    var f := (id: string) => IdsOfJob(plan, id);
    AllItemsSnoc(init, last);
    IdsOfJobIs(plan, last);
    assert JobIds(init + [last]) == JobIds(init) + [last.jobId];
    assert Mapped(JobIds(init + [last]), f) == Mapped(JobIds(init), f) + [ItemIds(last.items)];
    FlattenSnoc(Mapped(JobIds(init), f), ItemIds(last.items));
  }

  /** Accounting: the results name exactly the items of the plan, each as often as the plan holds it. */
  lemma ResultsAccountForPlan(plan: seq<JobPlan>, d: DispatchResult)
    requires Distinct(JobIds(plan)) && Accounted(plan, d)
    ensures multiset(ReportedItems(d.results)) == multiset(ItemIds(AllItems(plan)))
  {
    var f := (id: string) => IdsOfJob(plan, id);
    PlanItemIds(plan, plan);
    FlattenPermuted(ResultIds(d.results), JobIds(plan), f);
    ReportedByJob(plan, d.results);
  }

  lemma ReportedByJob(plan: seq<JobPlan>, results: seq<JobResult>)
    requires Distinct(JobIds(plan)) && forall r :: r in results ==> FromPlan(plan, r.jobId, r)
    ensures ReportedItems(results) == Flatten(Mapped(ResultIds(results), (id: string) => IdsOfJob(plan, id)))
  {
    var f := (id: string) => IdsOfJob(plan, id);
    forall i | 0 <= i < |results|
      ensures results[i].itemIds == f(results[i].jobId)
    {
      var r := results[i];
      assert r in results;
      var j :| j in plan && j.jobId == r.jobId && r.itemIds == ItemIds(j.items);
      IdsOfJobIs(plan, j);
    }
    assert Mapped(ResultIds(results), f) == seq(|results|, i requires 0 <= i < |results| => results[i].itemIds);
  }

  datatype StageError = PlanFailed(plan: PlanError) | DispatchFailed(dispatch: DispatchError)

  /** Every collected id is reported n times as often as it was collected, and nothing else is. */
  ghost predicate ReportsEach(results: seq<JobResult>, items: seq<TestItem>, n: nat) {
    forall id :: multiset(ReportedItems(results))[id] == n * multiset(ItemIds(items))[id]
  }

  /** Every id is as frequent among the ids of items as its item is among the items. */
  lemma IdCounts(items: seq<TestItem>, id: string)
    ensures multiset(ItemIds(items))[id] == multiset(items)[TestItem(id)]
  {
    if items == [] {
      assert ItemIds(items) == [];
    } else {
      var n := |items| - 1;
      IdCounts(items[..n], id);
      assert items == items[..n] + [items[n]];
      assert ItemIds(items) == ItemIds(items[..n]) + [items[n].id];
    }
  }

  /** The results report each collected id as often as the plan holds the item. */
  lemma ReportsWhatIsHeld(items: seq<TestItem>, jobs: seq<JobPlan>, d: DispatchResult, n: nat)
    requires Distinct(JobIds(jobs)) && Accounted(jobs, d)
    ensures ReportsEach(d.results, items, n) <==> HoldsEach(AllItems(jobs), items, n)
  {
    ResultsAccountForPlan(jobs, d);
    var held := AllItems(jobs);
    forall id
      ensures multiset(ReportedItems(d.results))[id] == multiset(held)[TestItem(id)]
      ensures multiset(ItemIds(items))[id] == multiset(items)[TestItem(id)]
    {
      IdCounts(held, id);
      IdCounts(items, id);
    }
    if ReportsEach(d.results, items, n) {
      forall x: TestItem
        ensures multiset(held)[x] == n * multiset(items)[x]
      {
        assert x == TestItem(x.id);
        assert multiset(ReportedItems(d.results))[x.id] == n * multiset(ItemIds(items))[x.id];
      }
    }
  }

  /** The stage fails for the first reason there is: the plan's, or else the dispatcher's. */
  ghost predicate StageFault(items: seq<TestItem>, chunkSize: int, mode: string, executionCount: int, splitCount: int,
                             manifestPath: Option<string>, manifest: seq<seq<string>>, e: StageError) {
    if ArgumentsOk(chunkSize, mode, executionCount, splitCount) && !ManifestBad(items, manifestPath, manifest)
    then e == DispatchFailed(InvalidPoolSize)
    else e.PlanFailed? && PlanFault(items, chunkSize, mode, executionCount, splitCount, manifest, e.plan)
  }

  /** Dispatches planned jobs: the results report each item as often as the jobs hold it. */
  method RunPlan(items: seq<TestItem>, jobs: seq<JobPlan>, ghost n: nat, dispatcher: LocalDispatcher)
    returns (r: Result<DispatchResult, DispatchError>)
    requires Distinct(JobIds(jobs))
    modifies dispatcher
    ensures r.Err? <==> dispatcher.cfg.maxWorkers <= 0
    ensures r.Ok? ==> (ReportsEach(r.value.results, items, n) <==> HoldsEach(AllItems(jobs), items, n))
  {
    var d, _ := dispatcher.RunJobs(jobs);
    if d.Ok? {
      ReportsWhatIsHeld(items, jobs, d.value, n);
    }
    r := d;
  }

  /**
   Plans a stage and dispatches it. It fails exactly on bad arguments, a bad manifest or an empty pool. If it
   does not, then whatever the completion order, outcomes, retries, abort or deadline, the results name every
   collected item once, or in mode "repeat" as often as asked, unless a manifest lists some item in two groups.
   */
  method RunStage(items: seq<TestItem>, chunkSize: int, mode: string, executionCount: int, splitCount: int,
                  manifestPath: Option<string>, manifest: seq<seq<string>>, weights: Weights,
                  dispatcher: LocalDispatcher)
    returns (r: Result<DispatchResult, StageError>)
    modifies dispatcher
    ensures r.Err? <==> !ArgumentsOk(chunkSize, mode, executionCount, splitCount)
                        || ManifestBad(items, manifestPath, manifest) || dispatcher.cfg.maxWorkers <= 0
    ensures r.Err? ==> StageFault(items, chunkSize, mode, executionCount, splitCount, manifestPath, manifest, r.error)
    ensures r.Ok? && mode == "once" ==>
            (ReportsEach(r.value.results, items, 1) <==> !SplitsBadly(manifestPath, manifest))
    ensures r.Ok? && mode == "repeat" ==>
            (ReportsEach(r.value.results, items, executionCount) <==> !SplitsBadly(manifestPath, manifest))
  {
    var plan := Plan(items, chunkSize, mode, executionCount, splitCount, manifestPath, manifest, weights);
    if plan.Err? {
      return Err(PlanFailed(plan.error));
    }
    var d := RunPlan(items, plan.value.jobs, if mode == "repeat" then executionCount else 1, dispatcher);
    r := if d.Err? then Err(DispatchFailed(d.error)) else Ok(d.value);
  }
}
