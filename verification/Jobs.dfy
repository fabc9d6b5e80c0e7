/** Units of work: collected items and the jobs that group them. */
module Jobs {
  import opened Sequences

  datatype TestItem = TestItem(id: string)

  datatype JobPlan = JobPlan(jobId: string, items: seq<TestItem>)

  function ItemIds(items: seq<TestItem>): (r: seq<string>) {
    seq(|items|, i requires 0 <= i < |items| => items[i].id)
  }

  function JobIds(jobs: seq<JobPlan>): (r: seq<string>)
    ensures |r| == |jobs| && forall i :: 0 <= i < |jobs| ==> r[i] == jobs[i].jobId
  {
    seq(|jobs|, i requires 0 <= i < |jobs| => jobs[i].jobId)
  }

  /** The item lists of the jobs, in plan order. */
  function JobGroups(jobs: seq<JobPlan>): (r: seq<seq<TestItem>>)
  {
    seq(|jobs|, i requires 0 <= i < |jobs| => jobs[i].items)
  }

  /** The items of all jobs, in plan order. */
  function AllItems(jobs: seq<JobPlan>): (r: seq<TestItem>) {
    Flatten(JobGroups(jobs))
  }

  lemma AllItemsSnoc(jobs: seq<JobPlan>, j: JobPlan)
    ensures JobGroups(jobs + [j]) == JobGroups(jobs) + [j.items]
    ensures AllItems(jobs + [j]) == AllItems(jobs) + j.items
  {
    assert JobGroups(jobs + [j]) == JobGroups(jobs) + [j.items];
    FlattenSnoc(JobGroups(jobs), j.items);
  }
}
