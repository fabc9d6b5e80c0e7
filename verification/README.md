# TestFabric: a verified model

TestFabric collects test items, splits them into jobs, dispatches the jobs with retries and deadlines, gates
the stages of a run by lifecycle group, and hands runs to workers through a shared queue with leases. This
project models those components in Dafny and proves what they promise over all inputs, all runs and all
interleavings.

| file | models |
|---|---|
| `Dispatch.dfy`, `DispatchSafety.dfy`, `Dispatcher.dfy` | the job dispatcher: its step system, what holds over all its runs, and the object that runs those steps |
| `Balance.dfy`, `Splitting.dfy`, `Strategies.dfy` | greedy load balancing, the round-robin, weighted and manifest splits |
| `Planner.dfy`, `EndToEnd.dfy` | jobs from items; planning followed by dispatching |
| `RunQueue.dfy`, `QueueOrder.dfy`, `QueueEffects.dfy`, `QueueLeases.dfy`, `QueueHistory.dfy`, `RunStore.dfy` | runs, workers, claim policies, the effect of each operation, lease accounting, fair waiting, and the store object |
| `EventPaging.dfy` | paging through the events of a run |
| `SequenceMatch.dfy` | the incremental, buffer-trimming watch sequence matcher |
| `CommandScript.dfy`, `ScriptRuns.dfy` | the compiler from suite steps to a shell script; an interpreter for the script, with its variables, exports and directory changes |
| `SuiteMeaning.dfy`, `StepPlaces.dfy`, `Directories.dfy` | what a suite means and exactly when its script means the same; exactly when steps are run where the suite wants them |
| `Redaction.dfy` | masking secrets in text and nested data |
| `Targets.dfy`, `NestedTargets.dfy`, `TargetsRoundTrip.dfy`, `LoadedTargets.dfy`, `OrderedDict.dfy` | target inventories: dump and load |
| `ScopedNames.dfy` | report file names with job id and attempt |
| `Lifecycle.dfy` | stage gating |
| `Jobs.dfy`, `Sequences.dfy`, `Sorting.dfy`, `Text.dfy`, `Wrappers.dfy` | shared vocabulary |

Objects that the program updates in place (`LocalDispatcher`, `SqliteRunStore`, `SequenceState`) are classes
whose methods are proved against functions on values; what those functions mean is proved in lemmas. Clock
readings, the watch-abort flag, the order of completions and the outcomes of commands are arbitrary. Weights
are real numbers, times of the store are whole numbers. Dictionaries whose order matters are sequences of pairs.

Results that go against what one might expect of the program:

- Canceling a run that has already failed gives its worker's lease back a second time
  (`QueueLeases.CancelFailedBreaks`); so does completing a run as still running, and creating a run under the id
  of a running one loses a lease. `QueueLeases.LeasesKeptExactlyWhen` says exactly when an operation keeps the
  accounting exact.
- A worker that reports itself offline is handed runs, even with a stale heartbeat
  (`QueueOrder.OfflineWorkerGranted`).
- A manifest split accepts an item id in two groups and then runs that item twice (`Strategies.SharedItemFits`); the
  items are kept exactly when no id is listed in two groups (`Strategies.ManifestConserves`, `EndToEnd.RunStage`).
- A target inventory survives dump and load exactly when every target has a group, no group is named `hosts` or
  `file`, and in a group `all` no host named `hosts` has a field and no host named `children` has a mapping of hosts
  in its transport settings (`TargetsRoundTrip.LoadDumpRoundTrip`, `TargetsRoundTrip.ChildrenLost`).
- Redaction can put a secret together again from the text around the mask: under the default mask `***`, the secret
  `ab*` turns `abab*` into `ab***` (`Redaction.DefaultMaskLeak`). Exactly which masks hide a lone secret is
  `Redaction.LoneSecretExact`; for lists of secrets that may contain each other, `Redaction.CoresExact`.
- Which labels a worker needs is read from the request itself, although the label score of the affinity policy counts
  the labels in the request's metadata: a run whose metadata asks for a label goes to a worker without it
  (`QueueOrder.MetadataLabelsIgnored`). Workers have the labels of the metadata exactly when the request itself asks
  for them too (`QueueOrder.RoutingLabelsRequiredExactly`).
- The environment of a step is exported into the shell that keeps the script's own variables. A step that sets
  `failed_hard` to 1 makes a job fail in which nothing failed (`SuiteMeaning.ExportedFailure`), one that is always run
  and sets it to 0 hides an earlier failure (`SuiteMeaning.ExportedSuccess`), and one that sets `BASE` moves the steps
  after it (`StepPlaces.ExportedBaseMoves`). The script means what the suite means exactly when no step sets
  `failed_hard` or `failed_soft` and none but the last sets `BASE` (`SuiteMeaning.ScriptMeansExactly`).
- With the local executor the base directory is `.`, so a step starts from wherever the step before it was run: a step
  in `d` after a step in `d` is run in `d/d` (`StepPlaces.SecondStepNested`). `StepPlaces.AllInPlaceExactly` says for
  which suites steps are run where the suite wants them, whatever commands do.

## Model

| member | source | states |
|---|---|---|
| `Dispatch.RunOne` | testfabric/orchestrator/dispatch/threaded.py:206-416 | an attempt reports its own job, attempt number and items; its exit code is 0 exactly if it was started in time, the command exited with 0 and no watch abort was seen, and another exit code of the command is kept; it counts as timed out exactly if it was not started in time, the executor said so, or an abort was seen after exit code 0 |
| `DispatchSafety.MarkEachLatest` | testfabric/orchestrator/dispatch/threaded.py:178-204 | giving up marks exactly the listed jobs that have no result, with their current attempt number, and changes no recorded result |
| `DispatchSafety.MarkAllKeepsInv` | testfabric/orchestrator/dispatch/threaded.py:178-204 | giving up on everything pending, once the watch has aborted or the deadline has passed, keeps the invariant |
| `DispatchSafety.HandleKeepsInv` | testfabric/orchestrator/dispatch/threaded.py:434-464 | handling a completion keeps every planned job waiting, in flight or settled, whether it gives up, retries or neither, and whatever the abort flag and clock do meanwhile |
| `DispatchSafety.StepKeepsInv` | testfabric/orchestrator/dispatch/threaded.py:418-471 | every atomic step of the dispatcher and its environment keeps the invariant |
| `DispatchSafety.RunKeepsInv` | testfabric/orchestrator/dispatch/threaded.py:418-471 | conservation: in every state of every run each planned job is exactly one of waiting, in flight once, or settled, at most max_workers are in flight, and the tables agree |
| `DispatchSafety.FinalResultsFrozen` | testfabric/orchestrator/dispatch/threaded.py:434-470 | a job recorded as successful or timed out is never run again and neither its result nor its attempts ever change |
| `DispatchSafety.SettledFrozen` | testfabric/orchestrator/dispatch/threaded.py:434-470 | a settled job stays settled, with its result and its attempts, for the rest of the run |
| `DispatchSafety.AttemptsWithinLimit` | testfabric/orchestrator/dispatch/threaded.py:434-464 | attempts of a job are numbered 0, 1, 2, ... with none skipped, no more than max_retries + 1, and all but the last failed plainly |
| `DispatchSafety.AttemptsTimed` | testfabric/orchestrator/dispatch/threaded.py:84-99 | in every state of every run, each handled attempt has recorded times submission <= own clock reading <= handling; it was submitted before the deadline; its recorded budget is at least 1 second and at most the job timeout, runs out by the deadline unless it is that one second (so less than a second after it), and is the largest such whole number; it was turned away exactly if its own reading was past the deadline or the job timeout allows no time; a timeout is put down to the limit that cut the budget; attempts of one job never overlap in time; the result of an attempt has exit code 0 exactly if it was launched, its recorded command exited with 0 and it saw no abort; otherwise it has the command's code, or 130 for an abort, 99 for an exception, 124 if it was turned away; it is marked late exactly if it was turned away, timed out by the executor, or aborted after exit code 0 |
| `DispatchSafety.RunOneTimed` | testfabric/orchestrator/dispatch/threaded.py:206-211 | whatever the executor does, the result of one attempt fits its recorded times, budget and outcome in this way |
| `DispatchSafety.HandleWork` | testfabric/orchestrator/dispatch/threaded.py:448-464 | every handled completion strictly lowers the number of completions still possible |
| `DispatchSafety.CompletionsBounded` | testfabric/orchestrator/dispatch/threaded.py:434-471 | no run handles more than jobs times allowed attempts completions |
| `DispatchSafety.FinishedResults` | testfabric/orchestrator/dispatch/threaded.py:479-481 | with nothing pending or in flight the recorded ids are the planned ids, each once, and every job is settled: by its last attempt, which failed plainly below the retry limit only if something stopped the stage, or by a mark that says why it never ran, exit code 130 only after a watch abort and 124 only past the deadline |
| `DispatchSafety.RecordDecides` | testfabric/orchestrator/dispatch/threaded.py:434-464 | a settled job counts as successful, or as in time, exactly if its last recorded attempt was, and never if it had none |
| `DispatchSafety.StoppedStartsNothing` | testfabric/orchestrator/dispatch/threaded.py:418-426 | once the watch has aborted or the deadline has passed nothing enters the pool any more: what is in flight later was in flight then, and exactly those jobs have been completed since that left the pool |
| `Dispatcher.RunSubmits` | testfabric/orchestrator/dispatch/threaded.py:418-432 | submitting the first pending job continues a run of the step system and adds no work |
| `Dispatcher.RunCompletes` | testfabric/orchestrator/dispatch/threaded.py:434-464 | handling a completion continues a run of the step system and takes work away |
| `Dispatcher.LocalDispatcher.RecordResult` | testfabric/orchestrator/dispatch/threaded.py:440-443 | a result replaces the job's earlier one in place and late jobs are remembered |
| `Dispatcher.LocalDispatcher.GiveUpPending` | testfabric/orchestrator/dispatch/threaded.py:178-204 | empties the pending list and marks the jobs without a result |
| `Dispatcher.LocalDispatcher.SubmitJob` | testfabric/orchestrator/dispatch/threaded.py:418-426 | a job goes to the pool unless the watch aborted or the deadline passed, in that order |
| `Dispatcher.LocalDispatcher.FillPool` | testfabric/orchestrator/dispatch/threaded.py:431-432 | afterwards nothing is pending unless the pool is full; the steps taken extend a run |
| `Dispatcher.LocalDispatcher.HandleCompletion` | testfabric/orchestrator/dispatch/threaded.py:436-464 | records, then gives up, retries or does nothing |
| `Dispatcher.LocalDispatcher.AwaitCompletion` | testfabric/orchestrator/dispatch/threaded.py:435-438 | any one of the futures may be the next to end, with any outcome, after it read the clock at any time since its submission; the outcome is recorded |
| `Dispatcher.LocalDispatcher.LogCompletion` | testfabric/orchestrator/dispatch/threaded.py:436-464 | handling a completion adds the attempt, its times and its outcome to the record |
| `Dispatcher.LocalDispatcher.CompleteOne` | testfabric/orchestrator/dispatch/threaded.py:435-464 | waiting for a completion and handling it continues a run of the step system |
| `Dispatcher.LocalDispatcher.CheckDeadline` | testfabric/orchestrator/dispatch/threaded.py:466-467 | past the deadline nothing stays pending |
| `Dispatcher.LocalDispatcher.NextCompletion` | testfabric/orchestrator/dispatch/threaded.py:434-471 | one turn of the loop handles one completion, strictly reduces the work left and refills the pool |
| `Dispatcher.LocalDispatcher.RunJobs` | testfabric/orchestrator/dispatch/threaded.py:28-505 | fails exactly for an empty pool; otherwise it ends, is a run of the step system, returns one result per planned job, lists exactly the failed and the timed-out jobs in order, all attempts kept to their times and budgets, and every job is settled: a plain failure below the retry limit remains only after an abort or the deadline. By the record alone, a job is listed as failed unless its last attempt was launched, exited with 0 and saw no abort, and as timed out unless its last attempt was in time |
| `Dispatcher.LocalDispatcher.CollectResults` | testfabric/orchestrator/dispatch/threaded.py:479-505 | the returned lists name exactly the jobs whose recorded result failed or timed out, sorted |
| `Balance.GreedyUnique` | testfabric/orchestrator/plan/strategies.py:28-32 | the greedy assignment, with ties going to the first group, is unique |
| `Balance.LoadsAddUp` | testfabric/orchestrator/plan/strategies.py:28-32 | whatever the assignment, the group loads add up to the total weight |
| `Balance.GreedyBound` | testfabric/orchestrator/plan/strategies.py:28-32 | no greedy load exceeds average + (1 - 1/m) times the largest weight |
| `Balance.GreedySpread` | testfabric/orchestrator/plan/strategies.py:28-32 | greedy loads differ by at most the largest weight |
| `Balance.RoomForOneMore` | testfabric/orchestrator/plan/strategies.py:23-32 | if all items weigh more than a third of c and some assignment stays within c, the least-loaded group has room for the next item |
| `Balance.HeaviestFirstBound` | testfabric/orchestrator/plan/strategies.py:23-32 | taking items heaviest first, no load exceeds (4/3 - 1/(3m)) times the largest load of any other assignment |
| `Splitting.CountSplit` | testfabric/orchestrator/plan/strategies.py:7-11 | item i lies at position i / n of group i % n, sizes differ by at most one, the item multiset is kept |
| `Splitting.DealtRecovers` | testfabric/orchestrator/plan/strategies.py:7-11 | round-robin groups determine the item list, its length included |
| `Splitting.WeightedCountSplit` | testfabric/orchestrator/plan/strategies.py:14-32 | the groups are those of the greedy assignment of the items sorted by falling weight and then id; the item multiset is kept |
| `Splitting.WeightedSplitNearOptimal` | testfabric/orchestrator/plan/strategies.py:14-32 | no group is loaded more than (4/3 - 1/(3m)) times the largest load of any other division of the same items into m groups |
| `Splitting.WeightedSplitNearAverage` | testfabric/orchestrator/plan/strategies.py:14-32 | no group exceeds the average by more than (1 - 1/m) times the largest weight |
| `Splitting.WeightedSplitSpread` | testfabric/orchestrator/plan/strategies.py:14-32 | group loads differ by at most the largest weight |
| `Splitting.WeightedSplitOrderFree` | testfabric/orchestrator/plan/strategies.py:23-32 | the groups do not depend on the order of the items |
| `Splitting.GroupLoadAdds` | testfabric/orchestrator/plan/strategies.py:25-31 | the load of a group is the sum of the given weights of its items, where an item without one counts 1 |
| `Splitting.HeaviestFirstOrder` | testfabric/orchestrator/plan/strategies.py:23-26 | items are dealt out by falling weight, equally heavy ones by rising id, and none is lost |
| `Strategies.IndexItems` | testfabric/orchestrator/plan/strategies.py:36-41 | the index maps exactly the collected ids, and duplicates are noticed exactly when there are any |
| `Strategies.ResolveGroup` | testfabric/orchestrator/plan/strategies.py:50-65 | a group resolves exactly when its trimmed non-blank ids are distinct and known, and then to those items in order; the error is that of the first entry that repeats an earlier one or is unknown, and names it |
| `Strategies.ManifestSplit` | testfabric/orchestrator/plan/strategies.py:35-70 | succeeds exactly when ids are unique, no group repeats an id, all are known and every item is covered; otherwise the error is the first fault: repeated item ids, else that of the first bad entry of the first bad group, else missing coverage |
| `Strategies.KeysExactly` | testfabric/orchestrator/plan/strategies.py:52-55 | the ids of a manifest group are its entries without outer blanks, in order, without blank ones |
| `Strategies.ManifestGroupsExactly` | testfabric/orchestrator/plan/strategies.py:49-65 | one group of items for each manifest group that lists any, in order |
| `Strategies.RejectedUnique` | testfabric/orchestrator/plan/strategies.py:35-70 | the error of a manifest split is determined by items and manifest |
| `Strategies.ManifestConserves` | testfabric/orchestrator/plan/strategies.py:35-70 | a fitting manifest keeps the item multiset exactly when no id is listed in two groups |
| `Strategies.SharedItemFits` | testfabric/orchestrator/plan/strategies.py:35-70 | a manifest that lists the only item in two groups is accepted and puts the item into both |
| `Strategies.SplitItems` | testfabric/orchestrator/plan/strategies.py:73-90 | which strategy applies and what it promises; fails exactly for a manifest that is not loaded or does not fit, with exactly that error |
| `Planner.NumberedDistinct` | testfabric/orchestrator/plan/job_planner.py:69-82 | jobs numbered in sequence have distinct zero-padded ids |
| `Planner.JobIdReads` | testfabric/orchestrator/plan/job_planner.py:69-69 | job ids are job- and the job's number in at least four digits |
| `Planner.NonEmptyExactly` | testfabric/orchestrator/plan/job_planner.py:66-68 | exactly the groups that hold anything become jobs, in order |
| `Planner.RepeatGroups` | testfabric/orchestrator/plan/job_planner.py:64-70 | one job per non-empty group, in order, for every repetition |
| `Planner.RepeatItems` | testfabric/orchestrator/plan/job_planner.py:74-79 | one job per item for every repetition |
| `Planner.ChunkItems` | testfabric/orchestrator/plan/job_planner.py:81-83 | consecutive chunks, all of the chunk size but the last |
| `Planner.LargestJob` | testfabric/orchestrator/plan/job_planner.py:71-71 | the size of the largest job, or the chunk size if there are no jobs |
| `Planner.Plan` | testfabric/orchestrator/plan/job_planner.py:30-85 | fails exactly on bad arguments or a bad manifest, with the first error in this order, the exact fault of the manifest included; otherwise distinct ids, no empty job, and the items of the list, chunked or repeated, or of the split groups. In mode once itemsTotal is the number of items and the jobs hold each once, in mode repeat both are executionCount times as much, exactly unless a manifest lists some item in two groups |
| `Planner.PlanKeepsItems` | testfabric/orchestrator/plan/job_planner.py:57-85 | without a manifest the jobs hold exactly the collected multiset times the repeat count |
| `Planner.ManifestPlanKeepsItems` | testfabric/orchestrator/plan/job_planner.py:57-72 | with a manifest they do exactly when no id is listed in two groups |
| `EndToEnd.ResultsAccountForPlan` | testfabric/orchestrator/dispatch/threaded.py:479-505 | the results of a dispatched plan name exactly the item multiset of the plan |
| `EndToEnd.ReportsWhatIsHeld` | testfabric/orchestrator/dispatch/threaded.py:479-505 | the results of a dispatched plan report each collected id as often as the plan holds its item |
| `EndToEnd.RunStage` | testfabric/orchestrator/plan/job_planner.py:30-85 | planning and dispatching fails exactly on bad arguments, a bad manifest or an empty pool, with the first of these errors; otherwise every collected id is reported as often as it was collected in mode once and executionCount times as often in mode repeat, and nothing else, exactly unless a manifest lists some item in two groups |
| `QueueOrder.PolicyMeaning` | testfabric/api/store.py:336-353 | whatever the case of the policy's name, the sort keys order runs as the policy means: oldest, newest, highest priority (the metadata's before the request's own), most different labels of the request that the worker has, ties by age and then run id; an unknown policy is fifo |
| `QueueOrder.NormalizedExactly` | testfabric/api/store.py:325-333 | normalizing keeps exactly the labels asked for, without outer blanks and each once |
| `QueueOrder.ClaimRefusedExactlyWhen` | testfabric/api/store.py:360-420 | a claim is refused exactly for a known worker that is full, unhealthy or stale, or has not been heard of in time without reporting itself offline |
| `QueueOrder.GrantsExactlyWhen` | testfabric/api/store.py:671-717 | a claim hands out a run exactly if some queued run asks for no label the worker lacks, and the worker is unnamed or unknown, or has room, is neither unhealthy nor stale, and has a recent heartbeat or reports itself offline |
| `QueueOrder.GrantsFirst` | testfabric/api/store.py:671-717 | the run handed out is exactly the first in the order of the policy among the queued runs that ask for no label the worker lacks |
| `QueueOrder.OfflineWorkerGranted` | testfabric/api/store.py:387-420 | a worker with room that reports itself offline is handed a run although its heartbeat is stale |
| `QueueOrder.RoutingLabelsRequiredExactly` | testfabric/api/store.py:335-340 | all labelled workers that may take a run have the labels of its metadata exactly if the request itself asks for those labels |
| `QueueOrder.MetadataLabelsIgnored` | testfabric/api/store.py:503-510 | a run whose metadata asks for one label is handed to a worker that has only another one |
| `QueueOrder.FirstExists` | testfabric/api/store.py:704-717 | among any candidates some run comes first |
| `QueueOrder.FirstUnique` | testfabric/api/store.py:481-500 | under every policy only one run comes first, because the run id breaks ties |
| `QueueOrder.ClaimDeterministic` | testfabric/api/store.py:671-717 | a claim has only one possible outcome |
| `QueueOrder.ClaimTotal` | testfabric/api/store.py:671-717 | a claim always has an outcome |
| `QueueEffects.CompleteEffect` | testfabric/api/store.py:880-935 | completing a run that has not ended stores the result, puts its state into all three copies and gives the worker's lease back; any other run is left alone |
| `QueueEffects.CancelEffect` | testfabric/api/store.py:830-878 | every run but a canceled or completed one becomes canceled in all three copies, keeps its result, and gives its worker's lease back |
| `QueueEffects.CreateEffect` | testfabric/api/store.py:586-622 | a created run is queued now, unclaimed and without a result, and keeps its first creation time |
| `QueueEffects.RegisterEffect` | testfabric/api/store.py:624-641 | a worker registers with its labels, a capacity of at least one and its health or healthy; its leases stay |
| `QueueEffects.HeartbeatEffect` | testfabric/api/store.py:643-828 | heartbeats move only the time of a known worker and bring the response of a live run up to its status |
| `QueueEffects.ClaimEffect` | testfabric/api/store.py:671-784 | a claim that may be made hands the first claimable run of the policy to the worker, which gains a lease and is heard of; any other claim changes nothing |
| `QueueLeases.StepKeepsConsistent` | testfabric/api/store.py:586-935 | after every operation the state in the record, in its status and in its response agree |
| `QueueLeases.LeasesKeptExactlyWhen` | testfabric/api/store.py:586-935 | from exact lease accounting an operation leads to exact accounting if and only if a condition on its arguments and the record holds |
| `QueueLeases.CapacityKeptExactlyWhen` | testfabric/api/store.py:624-784 | workers stay within capacity if and only if no registration sets capacity below the active leases |
| `QueueLeases.ReleaseHasLease` | testfabric/api/store.py:471-472 | a release by a run that has not ended finds at least one lease, so clamping at zero never happens |
| `QueueLeases.LeaseConservation` | testfabric/api/store.py:586-935 | after any guarded sequence of operations from an empty store, active leases equal the number of runs the worker is running |
| `QueueLeases.CapacityRespected` | testfabric/api/store.py:586-935 | if moreover capacity is not cut below use, no worker ever runs more than its capacity |
| `QueueLeases.CancelFailedBreaks` | testfabric/api/store.py:830-876 | canceling a failed run takes a lease that belongs to another run |
| `QueueLeases.CompleteAsRunningBreaks` | testfabric/api/store.py:880-933 | completing a run as running gives its lease back while it keeps running |
| `QueueLeases.RecreateRunningBreaks` | testfabric/api/store.py:586-620 | creating a run under the id of a running one forgets its lease |
| `QueueHistory.StepRespectsLife` | testfabric/api/store.py:671-935 | without a new creation no run leaves completed or canceled, a failed run only becomes canceled, and a terminal result stays |
| `QueueHistory.TerminalResultStays` | testfabric/api/store.py:786-935 | a result stored with a terminal state is never replaced by any later sequence of operations |
| `QueueHistory.ResultsAlwaysTell` | testfabric/api/store.py:586-935 | from an empty store, after any operations, every completed or failed run holds a result with exactly that state |
| `QueueHistory.ClaimTakesFirst` | testfabric/api/store.py:671-784 | under fifo the claimed run is ahead of every run that stays queued |
| `QueueHistory.FifoOrder` | testfabric/api/store.py:481-500 | under fifo with later queue times for new runs, runs are claimed in strictly increasing key order |
| `QueueHistory.StepShrinksQueue` | testfabric/api/store.py:671-784 | while a run stays queued nothing joins ahead of it and each successful claim takes one run from ahead of it |
| `QueueHistory.BoundedWaiting` | testfabric/api/store.py:671-784 | a queued run with k queued runs ahead sees at most k successful claims before it is claimed, canceled or completed |
| `RunStore.SqliteRunStore.CreateRun` | testfabric/api/store.py:586-622 | puts a fresh queued record under the id, keeping only the creation time of an old one |
| `RunStore.SqliteRunStore.RegisterWorker` | testfabric/api/store.py:624-641 | sets labels, capacity of at least 1 and health; leases are untouched |
| `RunStore.SqliteRunStore.SelectFirst` | testfabric/api/store.py:713-717 | finds the first candidate in the order of the policy |
| `RunStore.SqliteRunStore.ClaimNextRun` | testfabric/api/store.py:671-784 | a refused or empty claim changes nothing; otherwise the first eligible queued run goes to the worker, which gains a lease |
| `RunStore.SqliteRunStore.GrantRun` | testfabric/api/store.py:742-766 | the record becomes running for the worker, which gains a lease and a heartbeat |
| `RunStore.SqliteRunStore.ReleaseLease` | testfabric/api/store.py:471-478 | takes one lease from a known worker, never below zero |
| `RunStore.SqliteRunStore.HeartbeatRun` | testfabric/api/store.py:786-828 | touches only queued and running runs and the heartbeat of a known worker |
| `RunStore.SqliteRunStore.CancelRun` | testfabric/api/store.py:830-878 | cancels unless completed or canceled, and releases the worker |
| `RunStore.SqliteRunStore.CompleteRun` | testfabric/api/store.py:880-935 | stores the result and its state in all three copies unless the run has ended, and releases the worker |
| `EventPaging.GetRunEvents` | testfabric/api/store.py:1103-1143 | answers at the first poll that finds the run unknown, news, an ended run, no follow or a passed deadline: nothing for an unknown run, else a page that starts at the offset, is as long as the limit allows, and gives the offset after it and the length of the list |
| `EventPaging.FollowIsPrefix` | testfabric/api/store.py:1103-1143 | following next_offset over a growing list yields exactly the prefix up to the offset, whatever the limits, and the whole list exactly when the offset has reached the total of the last page |
| `EventPaging.FollowAdvances` | testfabric/api/store.py:1124-1136 | every call moves on if anything is new, by at most its limit, and reaches the end if the limit allows |
| `SequenceMatch.ScanComplete` | testfabric/watch/runtime.py:801-819 | leftmost-greedy scanning gets past n patterns exactly when they occur in order without overlap |
| `SequenceMatch.ScanStaysAhead` | testfabric/watch/runtime.py:802-812 | if the next n patterns can be placed at all, the leftmost-greedy scan gets past them |
| `SequenceMatch.FeedAllScans` | testfabric/watch/runtime.py:790-819 | whatever the chunks, and despite trimming, the index is that of one scan of the whole text |
| `SequenceMatch.ChunkingIrrelevant` | testfabric/watch/runtime.py:790-819 | any two chunkings of a text reach the same index and completion |
| `SequenceMatch.CompleteExactlyWhenEmbedded` | testfabric/watch/runtime.py:790-819 | the sequence completes exactly when all patterns occur in order without overlap |
| `SequenceMatch.OneToken` | testfabric/watch/runtime.py:798-819 | a token is returned by exactly one call if the sequence completes, the one that completes it, and by none otherwise; it is the patterns in order with arrows between them |
| `SequenceMatch.SequenceState.TakeMatch` | testfabric/watch/runtime.py:810-817 | moves past a match and trims the buffer beyond 8192 characters |
| `SequenceMatch.SequenceState.MatchSequence` | testfabric/watch/runtime.py:790-819 | one call with more text has the effect of the value-level matcher |
| `CommandScript.MakeScript` | testfabric/execution/suites/command.py:141-238 | fails exactly if some environment key of a picked step is no shell name (with or without a final newline), and names the first such key; otherwise the script of the picked steps |
| `CommandScript.PickedExactly` | testfabric/execution/suites/command.py:141-148 | the picked steps are the steps at strictly increasing positions, exactly those whose names are wanted |
| `CommandScript.PickedUnique` | testfabric/execution/suites/command.py:141-148 | only one list of steps is picked in this way |
| `CommandScript.StepNameIs` | testfabric/execution/suites/command.py:20-22 | a step is called by its given name without outer blanks, else step- and its position in three digits |
| `CommandScript.EnvKeyExactly` | testfabric/execution/suites/command.py:29-29 | a key is accepted exactly if it is a letter or underscore followed by letters, digits and underscores, perhaps with a newline at the end |
| `CommandScript.MakeBlock` | testfabric/execution/suites/command.py:172-229 | the lines of one step, which run exactly its command: its words, else bash -lc with its bash text, else sh -lc with its shell text, else nothing; fails exactly for an invalid environment key, and names the first |
| `ScriptRuns.RunStepLines` | testfabric/execution/suites/command.py:186-229 | the block of a step has the effect of the step, its exports included |
| `ScriptRuns.SkipBody` | testfabric/execution/suites/command.py:191-229 | skipping a block ends exactly at its own end |
| `ScriptRuns.ScriptPerforms` | testfabric/execution/suites/command.py:158-236 | the script, line by line, has the effect of its steps one after the other: the exit code, the commands in order, each with the same words and in the same directory, and the script's variables, whatever the variables were before and whatever commands, directories and exported values do, given all that ran before and where the shell is |
| `ScriptRuns.StepRunsExactlyWhen` | testfabric/execution/suites/command.py:32-47 | a step runs its command, word for word as its fields give it, exactly when it is always or every failure flag raised before it, by a hard failure or an export, has been cleared by an export since; it runs nothing exactly if it is held back or its words are missing and its bash and shell texts are blank |
| `ScriptRuns.ExitsOneExactlyWhen` | testfabric/execution/suites/command.py:231-236 | the job exits 1 exactly when a raised failure flag has not been cleared by the end, unless a directory stopped it |
| `ScriptRuns.BlockedByFailure` | testfabric/execution/suites/command.py:184-217 | if no step exports failed_hard, a flag stands exactly when some earlier step that ran has failed hard |
| `ScriptRuns.RunsInOrder` | testfabric/execution/suites/command.py:172-173 | commands run in suite order, each at most once |
| `SuiteMeaning.UntouchedMeans` | testfabric/execution/suites/command.py:158-236 | interpreting the script of a suite that leaves failed_hard, failed_soft and, before its last step, BASE alone gives the exit code, the commands run in order, each with the words that the step's fields give and in the same directory, and the failure flags of the direct semantics |
| `SuiteMeaning.ScriptMeansExactly` | testfabric/execution/suites/command.py:158-236 | the script means what the suite means, whatever commands, directories and exported values do, if and only if no step exports failed_hard or failed_soft and none but the last exports BASE |
| `SuiteMeaning.ExportedFailure` | testfabric/execution/suites/command.py:196-200 | a step that exports failed_hard with 1 makes a job exit 1 in which nothing failed |
| `SuiteMeaning.ExportedSuccess` | testfabric/execution/suites/command.py:196-200 | a step that is always run and exports failed_hard with 0 makes a job exit 0 in which a step failed hard |
| `StepPlaces.AllInPlaceExactly` | testfabric/execution/suites/command.py:192-193 | every step that is run is run in base/workdir, whatever commands, directories and exported values do, exactly when of any two steps that may be run one right after the other the second comes to its place from that of the first, and steps after an export of BASE have absolute workdirs |
| `StepPlaces.AbsoluteBaseInPlace` | testfabric/execution/suites/command.py:151-153 | with an absolute base every step that is run is run in base/workdir exactly when steps after an export of BASE have absolute workdirs |
| `StepPlaces.LocalRejoinsExactly` | testfabric/execution/suites/command.py:154-156 | with the base "." a step comes to its place after another one exactly if its workdir is absolute or goes up far enough to leave what that one's workdir added |
| `StepPlaces.LocalStepsNest` | testfabric/execution/suites/command.py:154-156 | with workdirs that never go up, exactly if the earlier workdir amounts to "." |
| `StepPlaces.SecondStepNested` | testfabric/execution/suites/command.py:154-193 | with the base "." the second of two successful steps with workdir d is run in d/d |
| `StepPlaces.ExportedBaseMoves` | testfabric/execution/suites/command.py:192-200 | a step after one that exports BASE with /x is run below /x, whatever the base |
| `Directories.SamePlaceExactly` | testfabric/execution/suites/command.py:192-193 | a path leads to one place from two directories exactly if it is absolute or goes up to a common ancestor |
| `Redaction.NormalizedValues` | testfabric/redaction.py:111-117 | the distinct non-empty values, longest first |
| `Redaction.RedactTextLoop` | testfabric/redaction.py:75-81 | replaces the values one after the other in such an order |
| `Redaction.RedactedClean` | testfabric/redaction.py:75-81 | if every secret contains a listed one that differs from the mask wherever they overlap, no secret occurs in the redacted text |
| `Redaction.LoneSecretExact` | testfabric/redaction.py:75-81 | for every secret and mask: the secret on its own is removed from all texts exactly when at no offset it agrees with the mask it overlaps without having come up before |
| `Redaction.RedactIdempotent` | testfabric/redaction.py:75-81 | redacting again changes nothing, even if equally long values come in another order |
| `Redaction.UnborderedExact` | testfabric/redaction.py:75-81 | a lone secret without a border is removed from all texts exactly when it differs from the mask at every overlap |
| `Redaction.CoresExact` | testfabric/redaction.py:75-81 | secrets that may contain each other, longer ones replaced first: if the innermost ones never overlap themselves or each other and no other secret comes up around one, all are removed from all texts exactly when no innermost one agrees with the mask at any overlap |
| `Redaction.LongestFirst` | testfabric/redaction.py:111-117 | the order of replacement takes every secret before those that occur in it |
| `Redaction.UnrelatedExact` | testfabric/redaction.py:75-81 | secrets that never overlap themselves or each other are removed from all texts exactly when none agrees with the mask at any overlap |
| `Redaction.EmptyMaskExact` | testfabric/redaction.py:75-81 | with an empty mask a lone secret is removed from all texts exactly when it repeats one letter |
| `Redaction.SecretInMaskUncovered` | testfabric/redaction.py:75-81 | a secret that is part of the mask is uncovered by its own redaction |
| `Redaction.DefaultMaskLeak` | testfabric/redaction.py:75-81 | under the default mask the secret ab* comes back: abab* becomes ab*** |
| `Redaction.RedactedDataClean` | testfabric/redaction.py:83-100 | no secret remains in any string in value position, and the values of secret fields, recognised by their keys, are the mask |
| `Redaction.RedactKeepsShape` | testfabric/redaction.py:83-100 | at any depth the value of a field whose key is one of the given names becomes the mask, other texts are redacted, and keys, lengths, order and other values are kept |
| `Redaction.SecretFieldExactly` | testfabric/redaction.py:102-108 | a field is secret exactly if its key agrees with one of the given non-blank names character by character, up to case, dashes for underscores and outer whitespace |
| `Redaction.SpellingIrrelevant` | testfabric/redaction.py:102-108 | keys that differ only in case, in dashes for underscores or in outer whitespace are treated alike |
| `Redaction.CleanDataUnchanged` | testfabric/redaction.py:83-100 | data without secrets is left as it is |
| `Redaction.RedactDataIdempotent` | testfabric/redaction.py:83-100 | redacting data twice is redacting it once |
| `Targets.LoadGroupedTargets` | testfabric/workers/targets.py:114-145 | the loop over groups and hosts loads the listings one after the other |
| `Targets.LoadHost` | testfabric/workers/targets.py:122-144 | a host met for the first time is taken as it is, one met again is merged; blank names are passed over |
| `Targets.DumpGroupedTargets` | testfabric/workers/targets.py:159-177 | every target goes into each of its groups, or into default |
| `TargetsRoundTrip.ListedExactly` | testfabric/workers/targets.py:114-126 | the hosts of exactly those sections are loaded that are mappings of hosts and whose names, without outer blanks, are neither empty nor file |
| `TargetsRoundTrip.MergeLaterWins` | testfabric/workers/targets.py:127-142 | of two readings of a host the later wins per field and key, and groups are joined and sorted |
| `TargetsRoundTrip.AddressIsFirstGiven` | testfabric/workers/targets.py:33-39 | the address is the first given of address, host, hostname and ansible_host |
| `TargetsRoundTrip.HostRead` | testfabric/workers/targets.py:31-53 | a host is read with the groups it is listed under and those it names, sorted, its name and credential without outer blanks, or its own id and none, and its transport as it is |
| `TargetsRoundTrip.LabelsRead` | testfabric/workers/targets.py:21-28 | a label is read from the last entry with its key |
| `TargetsRoundTrip.LabelsUnread` | testfabric/workers/targets.py:21-28 | a key that no entry has is not read, and blank keys are passed over |
| `TargetsRoundTrip.LoadedBack` | testfabric/workers/targets.py:114-177 | loading the dump finds every target with groups, none of them file, as it was |
| `TargetsRoundTrip.NestedExactly` | testfabric/workers/targets.py:76-111 | the hierarchical reader finds something in a dump exactly if in a group all a host named hosts has a field or one named children has a mapping of hosts in its transport settings |
| `TargetsRoundTrip.HostsGroupLost` | testfabric/workers/targets.py:63-73 | a group named hosts is read as the host list and its targets lose their groups |
| `TargetsRoundTrip.FileGroupLost` | testfabric/workers/targets.py:114-119 | a target in a group named file does not come back, nor does one without groups |
| `TargetsRoundTrip.LoadDumpRoundTrip` | testfabric/workers/targets.py:148-177 | loading the dump of a non-empty inventory gives it back sorted by host id if and only if every target has a group, no group is named hosts or file, and in a group all no host named hosts has a field and no host named children has a mapping of hosts in its transport settings |
| `TargetsRoundTrip.ChildrenLost` | testfabric/workers/targets.py:92-104 | a host named children in a group all whose transport settings hold a mapping of hosts does not come back |
| `LoadedTargets.LoadedInventoryNormal` | testfabric/workers/targets.py:63-156 | loading leaves every inventory in normal shape: trimmed, distinct host ids, sorted groups |
| `LoadedTargets.LoadDumpLoad` | testfabric/workers/targets.py:148-177 | an inventory loaded from any document that is not hierarchical is given back by dumping and loading it exactly under the same condition |
| `ScopedNames.MatchExact` | testfabric/artifacts/collector.py:110-124 | the parser accepts exactly the names that fit the pattern, with exactly the job id and attempt that fit |
| `ScopedNames.FitsUnique` | testfabric/artifacts/collector.py:115-124 | at most one job id and attempt fit a file name |
| `ScopedNames.RoundTrip` | testfabric/execution/suites/pytest.py:152-159 | parsing a printed name gives back job id and attempt, also for job ids that contain text like -a3 |
| `ScopedNames.NamesDistinct` | testfabric/execution/suites/pytest.py:152-159 | different jobs or attempts never share a file name |
| `ScopedNames.ScopedNameShape` | testfabric/execution/suites/pytest.py:152-159 | a printed name is the configured name with - job id -a attempt put before its last dot or at its end |
| `ScopedNames.FitsShape` | testfabric/artifacts/collector.py:110-124 | a name that fits is one of this form, perhaps with a newline at the end |
| `Lifecycle.RunStages` | testfabric/orchestrator/orchestrator.py:230-291 | the stage loop yields the gated results, and is ok exactly when every executed stage is |
| `Lifecycle.EveryStageGated` | testfabric/orchestrator/plan/lifecycle.py:14-34 | a stage is skipped exactly when it is neither setup nor always and an earlier executed non-teardown stage failed with no setup and no executed teardown in between; setup stages always run |
| `Lifecycle.GroupOpenIrrelevant` | testfabric/orchestrator/plan/lifecycle.py:14-34 | group_open never influences which stages run |

## Left out

- Executors, Docker, SSH, git, HTTP and the command line: foreign calls. What an executor does with a command is an arbitrary exit code and timeout flag, or an exception.
- Threads: a completion is one atomic step, in any order. Building the command and emitting events do not raise.
- Dispatcher results carry no timestamps, durations or messages (the times of attempts are recorded beside them), and the watch failure reason is not returned.
- SQL, JSON and validation in the store, and everything stored there beyond states, times, labels, priorities, claims and results: each operation is one transaction on maps. Run ids arrive trimmed and non-empty, generated ids are not modelled, and neither are the returned records; operations on unknown runs change nothing.
- Redaction.RedactedClean: regular-expression patterns are not modelled. The condition is shown to be necessary for the lists of `CoresExact`; for lists whose innermost secrets overlap themselves or each other it is sufficient but not necessary: `["aa"]` under an empty mask is always clean.
- Redaction.CoresExact: lists in which another secret comes up where an innermost one is written between a beginning and an end of itself, such as `["abab*", "ab*"]`, are left out.
- Redaction.Redactor: the names of secret fields are given; the program's list of default names is left out.
- Redaction.Data: `Other` also stands for values such as frozensets and bytes, which are returned unchanged with any secrets inside them.
- SequenceMatch.FeedAllScans: patterns are literal non-empty strings, not regular expressions; the rest of the watch runtime (sources, actions, deduplication) is left out.
- ScriptRuns.ScriptPerforms: quoting, redirection and variable expansion always succeed, and a workdir is taken as it is written and followed by name without links, `-` and `CDPATH`. Of the exported variables `failed_hard`, `failed_soft` and `BASE` are followed; variables that the shell itself reads, such as `IFS` or `PWD`, are not. Interactive suites are left out.
- Targets.LoadTargetsMapping: of the hierarchical form only where its reader finds hosts is modelled; what it makes of the fields of such a host is a parameter, and in the program it may also raise an error. In a normal inventory the fields are as loading leaves them.
- Text.Trim: whitespace and letter case are those of ASCII, digits in file names are the ten ASCII digits.
- Splitting.WeightOf: weights are real numbers; rounding of floating-point sums is not modelled.
- Collecting items, reports, artifacts, health probes, worker pool counters, event follow sleeping and rendering: I/O or straight-line code that would add easy members.
