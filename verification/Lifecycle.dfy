/** Which stages of a run are executed: failures block the rest of their lifecycle group. */
module Lifecycle {

  datatype Mode = Run | Setup | Teardown

  datatype Stage = Stage(mode: Mode, always: bool)

  datatype LifecycleState = LifecycleState(groupFailed: bool, groupOpen: bool)

  function BeforeStage(state: LifecycleState, stage: Stage): (r: LifecycleState) {
    if stage.mode == Setup then LifecycleState(false, true)
    else if state.groupOpen then state
    else LifecycleState(state.groupFailed, true)
  }

  predicate ShouldExecute(stage: Stage, state: LifecycleState) {
    !state.groupFailed || stage.always
  }

  function AfterStage(state: LifecycleState, stage: Stage, ok: bool): (r: LifecycleState) {
    if stage.mode == Teardown then LifecycleState(false, false)
    else LifecycleState(state.groupFailed || !ok, state.groupOpen)
  }

  datatype StageResult = Executed(ok: bool) | Skipped

  /** What the results so far say: some executed stage failed and nothing has cleared the failure since. */
  ghost predicate Blocked(stages: seq<Stage>, results: seq<StageResult>, i: nat)
    requires i <= |results| <= |stages|
  {
    exists j :: 0 <= j < i && FailsGroup(stages[j], results[j])
                && forall k :: j < k < i ==> !Clears(stages[k], results[k])
  }

  predicate FailsGroup(stage: Stage, result: StageResult) {
    result == Executed(false) && stage.mode != Teardown
  }

  predicate Clears(stage: Stage, result: StageResult) {
    stage.mode == Setup || (stage.mode == Teardown && result.Executed?)
  }

  /** A stage is skipped exactly when it is neither setup nor always and an uncleared failure precedes it. */
  ghost predicate Gated(stages: seq<Stage>, results: seq<StageResult>, i: nat)
    requires i < |results| <= |stages|
  {
    results[i] == Skipped <==> stages[i].mode != Setup && !stages[i].always && Blocked(stages, results, i)
  }

  lemma GatedPrefix(stages: seq<Stage>, results: seq<StageResult>, r: StageResult, i: nat)
    requires i < |results| < |stages| && Gated(stages, results, i)
    ensures Gated(stages, results + [r], i)
  {}

  /** What happens to one stage in the given state, and the state it leaves. */
  function Visit(state: LifecycleState, stage: Stage, ok: bool): (r: (StageResult, LifecycleState)) {
    var before := BeforeStage(state, stage);
    if ShouldExecute(stage, before) then (Executed(ok), AfterStage(before, stage, ok)) else (Skipped, before)
  }

  /** The results so far are gated by one another, and the state remembers whether a failure blocks. */
  ghost predicate Tracks(stages: seq<Stage>, results: seq<StageResult>, state: LifecycleState) {
    && |results| <= |stages|
    && (forall i :: 0 <= i < |results| ==> Gated(stages, results, i))
    && (state.groupFailed <==> Blocked(stages, results, |results|))
  }

  lemma VisitTracks(stages: seq<Stage>, results: seq<StageResult>, state: LifecycleState, ok: bool)
    requires Tracks(stages, results, state) && |results| < |stages|
    ensures var (r, next) := Visit(state, stages[|results|], ok); Tracks(stages, results + [r], next)
  {
    var (r, next) := Visit(state, stages[|results|], ok);
    forall i | 0 <= i < |results|
      ensures Gated(stages, results + [r], i)
    {
      GatedPrefix(stages, results, r, i);
    }
  }

  /** The results of the stages when the loop is entered in the given state; oks[i] is how stage i would end. */
  function RunFrom(stages: seq<Stage>, oks: seq<bool>, state: LifecycleState): (results: seq<StageResult>)
    requires |oks| == |stages|
    ensures |results| == |stages|
    ensures forall i :: 0 <= i < |results| ==> results[i] == Skipped || results[i] == Executed(oks[i])
  {
    if stages == [] then []
    else
      var (r, next) := Visit(state, stages[0], oks[0]);
      [r] + RunFrom(stages[1..], oks[1..], next)
  }

  /** Every executed stage ended well. */
  predicate AllOk(results: seq<StageResult>) {
    forall i :: 0 <= i < |results| ==> results[i] != Executed(false)
  }

  lemma AllOkSnoc(results: seq<StageResult>, r: StageResult)
    ensures AllOk(results + [r]) <==> AllOk(results) && r != Executed(false)
  {
    var next := results + [r];
    assert next[|results|] == r;
    assert forall i :: 0 <= i < |results| ==> next[i] == results[i];
  }

  /** The results so far, followed by those of the loop entered at stage n. */
  ghost function Whole(stages: seq<Stage>, oks: seq<bool>, done: seq<StageResult>, state: LifecycleState)
    : (results: seq<StageResult>)
    requires |done| <= |oks| == |stages|
  {
    done + RunFrom(stages[|done|..], oks[|done|..], state)
  }

  /** Visiting the next stage changes nothing about the whole. */
  lemma WholeKept(stages: seq<Stage>, oks: seq<bool>, done: seq<StageResult>, state: LifecycleState)
    requires |done| < |oks| == |stages|
    ensures var (r, next) := Visit(state, stages[|done|], oks[|done|]);
      Whole(stages, oks, done + [r], next) == Whole(stages, oks, done, state)
  {
    var n := |done|;
    var (r, next) := Visit(state, stages[n], oks[n]);
    assert stages[n..][1..] == stages[n + 1..] && oks[n..][1..] == oks[n + 1..];
    Regroup(done, r, RunFrom(stages[n + 1..], oks[n + 1..], next));
  }

  lemma Regroup(a: seq<StageResult>, r: StageResult, b: seq<StageResult>)
    ensures a + ([r] + b) == (a + [r]) + b
  {}

  const FRESH := LifecycleState(false, false)

  /** The stage loop; the run is ok exactly when every executed stage is. */
  method RunStages(stages: seq<Stage>, oks: seq<bool>) returns (results: seq<StageResult>, overall: bool)
    requires |oks| == |stages|
    ensures results == RunFrom(stages, oks, FRESH)
    ensures overall <==> forall i :: 0 <= i < |results| ==> results[i] != Executed(false)
  {
    results, overall := [], true;
    var state := LifecycleState(false, false);
    ghost var whole := RunFrom(stages, oks, FRESH);
    assert Whole(stages, oks, [], FRESH) == whole by {
      assert stages[0..] == stages && oks[0..] == oks;
    }
    for n := 0 to |stages|
      invariant |results| == n && Whole(stages, oks, results, state) == whole
      invariant overall <==> AllOk(results)
    {
      var stage := stages[n];
      var result := Skipped;
      WholeKept(stages, oks, results, state);
      ghost var visit := Visit(state, stage, oks[n]);
      state := BeforeStage(state, stage);
      if ShouldExecute(stage, state) {
        result := Executed(oks[n]);
        overall := overall && oks[n];
        state := AfterStage(state, stage, oks[n]);
      }
      assert (result, state) == visit;
      AllOkSnoc(results, result);
      results := results + [result];
    }
  }

  /** Every stage has a result, gated by the results before it. */
  ghost predicate AllGated(stages: seq<Stage>, results: seq<StageResult>) {
    |results| == |stages| && forall i :: 0 <= i < |results| ==> Gated(stages, results, i)
  }

  lemma {:induction false} RunFromTracks(stages: seq<Stage>, oks: seq<bool>, done: seq<StageResult>,
                                         state: LifecycleState)
    requires |oks| == |stages| && Tracks(stages, done, state)
    ensures AllGated(stages, Whole(stages, oks, done, state))
    decreases |stages| - |done|
  {
    var n := |done|;
    if n < |stages| {
      var (r, next) := Visit(state, stages[n], oks[n]);
      VisitTracks(stages, done, state, oks[n]);
      RunFromTracks(stages, oks, done + [r], next);
      WholeKept(stages, oks, done, state);
    } else {
      assert Whole(stages, oks, done, state) == done;
    }
  }

  /**
   Lifecycle gating: a stage is skipped exactly when it is neither setup nor always and some earlier executed
   non-teardown stage failed with no setup stage and no executed teardown stage in between.
   */
  lemma EveryStageGated(stages: seq<Stage>, oks: seq<bool>, i: nat)
    requires |oks| == |stages| && i < |stages|
    ensures Gated(stages, RunFrom(stages, oks, FRESH), i)
    ensures stages[i].mode == Setup ==> RunFrom(stages, oks, FRESH)[i].Executed?
  {
    RunFromTracks(stages, oks, [], FRESH);
    assert Whole(stages, oks, [], FRESH) == RunFrom(stages, oks, FRESH) by {
      assert stages[0..] == stages && oks[0..] == oks;
    }
  }

  /** Whether a group is open never influences which stages run. */
  lemma {:induction false} GroupOpenIrrelevant(stages: seq<Stage>, oks: seq<bool>, a: LifecycleState, b: LifecycleState)
    requires |oks| == |stages| && a.groupFailed == b.groupFailed
    ensures RunFrom(stages, oks, a) == RunFrom(stages, oks, b)
  {}
}
