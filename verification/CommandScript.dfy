/** The command runner compiles the picked steps of a suite into the lines of one shell script. */
module CommandScript {
  import opened Wrappers
  import opened Text

  // ----- suites

  datatype Step = Step(
    name: Option<string>, workdir: string, env: seq<(string, string)>, cmd: seq<string>, bash: string, shell: string,
    stdoutTo: string, stderrTo: string, continueOnFail: bool, always: bool)

  function StepName(s: Step, i: nat): (name: string) {
    var given := if s.name.Some? then Trim(s.name.value) else "";
    if given != "" then given else "step-" + ZeroPadded(i + 1, 3)
  }

  /** A step is called by its given name without outer blanks, else step-001, step-002, ... by position. */
  lemma StepNameIs(s: Step, i: nat)
    ensures var name := StepName(s, i);
      if s.name.Some? && Trim(s.name.value) != "" then name == Trim(s.name.value)
      else |name| >= 5 && name[..5] == "step-" && Renders(name[5..], i + 1, 3)
  {
    ZeroPaddedRenders(i + 1, 3);
    assert ("step-" + ZeroPadded(i + 1, 3))[5..] == ZeroPadded(i + 1, 3);
  }

  /** The words of a step's command; empty if it defines none. */
  function StepArgv(s: Step): (argv: seq<string>) {
    if s.cmd != [] then s.cmd
    else if Trim(s.bash) != "" then ["bash", "-lc", Trim(s.bash)]
    else if Trim(s.shell) != "" then ["sh", "-lc", Trim(s.shell)]
    else []
  }

  /** What a step is to run: its words, else its bash text, else its shell text; a blank text counts as none. */
  predicate IsCommandOf(s: Step, words: seq<string>) {
    || (s.cmd != [] && words == s.cmd)
    || (s.cmd == [] && Trim(s.bash) != "" && words == ["bash", "-lc", Trim(s.bash)])
    || (s.cmd == [] && Trim(s.bash) == "" && Trim(s.shell) != "" && words == ["sh", "-lc", Trim(s.shell)])
  }

  predicate HasNoCommand(s: Step) {
    s.cmd == [] && Trim(s.bash) == "" && Trim(s.shell) == ""
  }

  /** The directory of a step as the suite gives it. */
  function Workdir(s: Step): (path: string) {
    Trim(if s.workdir == "" then "." else s.workdir)
  }

  /** The steps whose names are wanted, in suite order. */
  function Picked(steps: seq<Step>, wanted: set<string>): (picked: seq<Step>) {
    if steps == [] then []
    else
      var n := |steps| - 1;
      Picked(steps[..n], wanted) + if StepName(steps[n], n) in wanted then [steps[n]] else []
  }

  /** The picked steps are those at the given positions: in suite order, and exactly the ones with wanted names. */
  ghost predicate PicksAt(steps: seq<Step>, wanted: set<string>, picked: seq<Step>, at: seq<nat>) {
    && |at| == |picked|
    && (forall j :: 0 <= j < |at| ==> at[j] < |steps| && picked[j] == steps[at[j]])
    && (forall i, j :: 0 <= i < j < |at| ==> at[i] < at[j])
    && (forall i :: 0 <= i < |steps| ==> (i in at <==> StepName(steps[i], i) in wanted))
  }

  /** Picking keeps exactly the steps with wanted names, each once and in suite order. */
  lemma {:induction false} PickedExactly(steps: seq<Step>, wanted: set<string>) returns (at: seq<nat>)
    ensures PicksAt(steps, wanted, Picked(steps, wanted), at)
  {
    at := [];
    if steps != [] {
      var n := |steps| - 1;
      at := PickedExactly(steps[..n], wanted);
      at := PicksSnoc(steps, wanted, Picked(steps[..n], wanted), at);
    }
  }

  lemma PicksSnoc(steps: seq<Step>, wanted: set<string>, picked: seq<Step>, at: seq<nat>) returns (longer: seq<nat>)
    requires steps != [] && PicksAt(steps[..|steps| - 1], wanted, picked, at)
    ensures var n := |steps| - 1; var more := picked + if StepName(steps[n], n) in wanted then [steps[n]] else [];
      PicksAt(steps, wanted, more, longer)
  {
    var n := |steps| - 1;
    longer := at + if StepName(steps[n], n) in wanted then [n] else [];
    forall i | 0 <= i < |steps|
      ensures i in longer <==> StepName(steps[i], i) in wanted
    {
      assert i < n ==> steps[..n][i] == steps[i];
      assert i < n ==> (i in longer <==> i in at);
      assert n !in at;
    }
  }

  lemma {:induction false} PositionsFit(at: seq<nat>, n: nat)
    requires forall j :: 0 <= j < |at| ==> at[j] < n
    requires forall i, j :: 0 <= i < j < |at| ==> at[i] < at[j]
    ensures |at| <= n
  {
    if at != [] {
      PositionsFit(at[..|at| - 1], at[|at| - 1]);
    }
  }

  /** There is only one way to pick. */
  lemma {:induction false} PickedUnique(steps: seq<Step>, wanted: set<string>, picked: seq<Step>, at: seq<nat>)
    requires PicksAt(steps, wanted, picked, at)
    ensures picked == Picked(steps, wanted)
  {
    PositionsFit(at, |steps|);
    if steps != [] {
      var n := |steps| - 1;
      var m := if StepName(steps[n], n) in wanted then |at| - 1 else |at|;
      PicksInit(steps, wanted, picked, at, m);
      PickedUnique(steps[..n], wanted, picked[..m], at[..m]);
    }
  }

  /** The last step is picked exactly if the last position is its own. */
  lemma LastPick(steps: seq<Step>, wanted: set<string>, picked: seq<Step>, at: seq<nat>)
    requires steps != [] && PicksAt(steps, wanted, picked, at)
    ensures var n := |steps| - 1;
      StepName(steps[n], n) in wanted <==> at != [] && at[|at| - 1] == n
    ensures forall j :: 0 <= j < |at| - 1 ==> at[j] < |steps| - 1
  {
    var n := |steps| - 1;
    forall j | 0 <= j < |at| - 1
      ensures at[j] < n
    {
      assert at[j] < at[|at| - 1] < |steps|;
    }
    assert n in at <==> at != [] && at[|at| - 1] == n;
  }

  lemma PicksInit(steps: seq<Step>, wanted: set<string>, picked: seq<Step>, at: seq<nat>, m: int)
    requires steps != [] && PicksAt(steps, wanted, picked, at)
    requires m == if StepName(steps[|steps| - 1], |steps| - 1) in wanted then |at| - 1 else |at|
    ensures 0 <= m && PicksAt(steps[..|steps| - 1], wanted, picked[..m], at[..m])
    ensures picked == picked[..m] + if m < |at| then [steps[|steps| - 1]] else []
  {
    var n := |steps| - 1;
    LastPick(steps, wanted, picked, at);
    forall i | 0 <= i < n
      ensures i in at[..m] <==> StepName(steps[..n][i], i) in wanted
    {
      if i in at {
        var j :| 0 <= j < |at| && at[j] == i;
        assert j < m && at[..m][j] == i;
      }
    }
  }

  // ----- scripts

  /** One line of the script. Echo stands for lines that only print or prepare output files. */
  datatype Line =
    | Echo
    | SetBase(path: string)
    | ClearFlags
    | StartStep
    | SkipIfFailed(unlessAlways: bool)
    | IfRunElse
    | CdBase(step: nat)
    | CdStep(step: nat, path: string)
    | Export(step: nat, key: string, text: string)
    | RunCommand(step: nat, words: seq<string>)
    | KeepStatus
    | IfStatus
    | FailSoft
    | FailHard
    | EndIf
    | ExitIfFailed
    | ExitOk

  datatype ScriptError = InvalidEnvKey(key: string)

  predicate IsNameStart(c: char) {
    'A' <= c <= 'Z' || 'a' <= c <= 'z' || c == '_'
  }

  /** A letter or underscore, then letters, digits and underscores; a final newline is let through. */
  predicate IsEnvKey(key: string) {
    IsName(if key != "" && key[|key| - 1] == '\n' then key[..|key| - 1] else key)
  }

  predicate IsName(k: string) {
    k != "" && IsNameStart(k[0]) && forall i :: 0 <= i < |k| ==> IsNameStart(k[i]) || IsDigit(k[i])
  }

  predicate EnvOk(s: Step) {
    forall i :: 0 <= i < |s.env| ==> IsEnvKey(s.env[i].0)
  }

  /** The characters a shell name is made of, the first of which is no digit. */
  predicate ShellName(name: string) {
    && name != "" && !IsDigit(name[0])
    && forall i :: 0 <= i < |name| ==>
         'a' <= name[i] <= 'z' || 'A' <= name[i] <= 'Z' || '0' <= name[i] <= '9' || name[i] == '_'
  }

  /** A shell name, perhaps with a newline at its end. */
  ghost predicate NamesVariable(key: string) {
    exists name :: ShellName(name) && (key == name || key == name + "\n")
  }

  lemma EnvKeyExactly(key: string)
    ensures IsEnvKey(key) <==> NamesVariable(key)
  {
    var k := if key != "" && key[|key| - 1] == '\n' then key[..|key| - 1] else key;
    assert IsName(k) <==> ShellName(k);
    assert key == k || key == k + "\n";
    if name :| ShellName(name) && (key == name || key == name + "\n") {
      assert k == name;
    }
  }

  /** Entry j of the environment of step k is the first with an invalid key. */
  predicate FirstBadKey(steps: seq<Step>, k: nat, j: nat) {
    k < |steps| && EnvsOk(steps[..k]) && BadKey(steps[k], j)
  }

  predicate BadKey(s: Step, j: nat) {
    j < |s.env| && !IsEnvKey(s.env[j].0) && forall i :: 0 <= i < j ==> IsEnvKey(s.env[i].0)
  }

  lemma {:induction false} EnvsOkExactly(steps: seq<Step>)
    ensures EnvsOk(steps) <==> forall s, e :: s in steps && e in s.env ==> NamesVariable(e.0)
  {
    if steps != [] {
      var n := |steps| - 1;
      EnvsOkExactly(steps[..n]);
      assert steps == steps[..n] + [steps[n]];
      forall i | 0 <= i < |steps[n].env|
        ensures IsEnvKey(steps[n].env[i].0) <==> NamesVariable(steps[n].env[i].0)
      {
        EnvKeyExactly(steps[n].env[i].0);
      }
    }
  }

  /** All environment keys of all steps are valid. */
  predicate EnvsOk(steps: seq<Step>) {
    steps == [] || (EnvsOk(steps[..|steps| - 1]) && EnvOk(steps[|steps| - 1]))
  }

  lemma {:induction false} EnvsOkAt(steps: seq<Step>, k: nat)
    requires k < |steps|
    ensures EnvsOk(steps[..k + 1]) <==> EnvsOk(steps[..k]) && EnvOk(steps[k])
    ensures EnvsOk(steps) ==> EnvsOk(steps[..k + 1])
  {
    var n := |steps| - 1;
    assert steps[..k + 1][..k] == steps[..k];
    if k < n {
      EnvsOkAt(steps[..n], k);
      assert steps[..n][..k + 1] == steps[..k + 1];
    } else {
      assert steps[..k + 1] == steps;
    }
  }

  /** The script's own variables get their first values. */
  function Prologue(base: string): (lines: seq<Line>) {
    [Echo, Echo, SetBase(base), Echo, ClearFlags, Echo, Echo, Echo, Echo, Echo]
  }

  const EPILOGUE: seq<Line> := [Echo, Echo, ExitIfFailed, ExitOk]

  function Exports(env: seq<(string, string)>, k: nat): (lines: seq<Line>) {
    seq(|env|, i requires 0 <= i < |env| => Export(k, env[i].0, env[i].1))
  }

  /** The part of a step's block up to its open condition. */
  function HeadLines(s: Step): (lines: seq<Line>) {
    [Echo, Echo, StartStep, SkipIfFailed(!s.always), IfRunElse]
  }

  /** Environment and output files of a step. */
  function SetupLines(s: Step, k: nat): (lines: seq<Line>) {
    Exports(s.env, k) + OutputLines(s)
  }

  function OutputLines(s: Step): (lines: seq<Line>) {
    (if Trim(s.stdoutTo) != "" then [Echo, Echo] else []) + (if Trim(s.stderrTo) != "" then [Echo, Echo] else [])
  }

  /** Running a step's command and keeping track of its failure. */
  function ActLines(s: Step, k: nat): (lines: seq<Line>) {
    if StepArgv(s) != [] then
      [Echo, RunCommand(k, StepArgv(s)), KeepStatus, IfStatus, Echo,
       if s.continueOnFail then FailSoft else FailHard, EndIf]
    else
      [Echo]
  }

  /** Entering the base directory and from there the step's own. */
  function CdLines(s: Step, k: nat): (lines: seq<Line>) {
    [CdBase(k), CdStep(k, Workdir(s))]
  }

  /** The block of the script for step number k. */
  function StepLines(s: Step, k: nat): (lines: seq<Line>) {
    HeadLines(s) + CdLines(s, k) + SetupLines(s, k) + ActLines(s, k) + [EndIf, Echo]
  }

  function AllStepLines(steps: seq<Step>): (lines: seq<Line>) {
    if steps == [] then []
    else AllStepLines(steps[..|steps| - 1]) + StepLines(steps[|steps| - 1], |steps| - 1)
  }

  function Script(base: string, steps: seq<Step>): (lines: seq<Line>) {
    Prologue(base) + AllStepLines(steps) + EPILOGUE
  }

  method PickSteps(steps: seq<Step>, wanted: set<string>) returns (picked: seq<Step>)
    ensures picked == Picked(steps, wanted)
    ensures exists at :: PicksAt(steps, wanted, picked, at)
  {
    picked := [];
    for i := 0 to |steps|
      invariant picked == Picked(steps[..i], wanted)
    {
      assert steps[..i + 1][..i] == steps[..i];
      if StepName(steps[i], i) in wanted {
        picked := picked + [steps[i]];
      }
    }
    assert steps[..|steps|] == steps;
    ghost var at := PickedExactly(steps, wanted);
  }

  /** The lines that set a step up; refuses an invalid environment key. */
  method MakeSetup(s: Step, k: nat) returns (r: Result<seq<Line>, ScriptError>)
    ensures r.Ok? <==> EnvOk(s)
    ensures r.Ok? ==> r.value == SetupLines(s, k)
    ensures r.Err? ==> exists j: nat :: BadKey(s, j) && r.error.key == s.env[j].0
  {
    var lines: seq<Line> := [];
    for e := 0 to |s.env|
      invariant lines == Exports(s.env[..e], k)
      invariant forall i :: 0 <= i < e ==> IsEnvKey(s.env[i].0)
    {
      if !IsEnvKey(s.env[e].0) {
        assert BadKey(s, e);
        return Err(InvalidEnvKey(s.env[e].0));
      }
      lines := lines + [Export(k, s.env[e].0, s.env[e].1)];
    }
    assert s.env[..|s.env|] == s.env;
    if Trim(s.stdoutTo) != "" {
      lines := lines + [Echo, Echo];
    }
    if Trim(s.stderrTo) != "" {
      lines := lines + [Echo, Echo];
    }
    r := Ok(lines);
  }

  /** The block of a step runs the step's command and no other. */
  lemma BlockCommand(s: Step, k: nat)
    ensures forall j, words :: RunCommand(j, words) in StepLines(s, k) <==> j == k && IsCommandOf(s, words)
  {
    forall j, words
      ensures RunCommand(j, words) in StepLines(s, k) <==> j == k && IsCommandOf(s, words)
    {
      var line := RunCommand(j, words);
      assert line !in HeadLines(s) + CdLines(s, k) && line !in SetupLines(s, k) && line !in [EndIf, Echo];
      assert line in ActLines(s, k) <==> StepArgv(s) != [] && line == RunCommand(k, StepArgv(s)) by {
        if StepArgv(s) != [] {
          assert ActLines(s, k)[1] == RunCommand(k, StepArgv(s));
        }
      }
    }
  }

  method MakeBlock(s: Step, k: nat) returns (r: Result<seq<Line>, ScriptError>)
    ensures r.Ok? <==> EnvOk(s)
    ensures r.Ok? ==> r.value == StepLines(s, k)
    ensures r.Ok? ==> forall j, words :: RunCommand(j, words) in r.value <==> j == k && IsCommandOf(s, words)
    ensures r.Err? ==> exists j: nat :: BadKey(s, j) && r.error.key == s.env[j].0
  {
    var lines: seq<Line> := [Echo, Echo, StartStep, SkipIfFailed(!s.always), IfRunElse];
    lines := lines + [CdBase(k), CdStep(k, Workdir(s))];
    var setup := MakeSetup(s, k);
    if setup.Err? {
      return setup;
    }
    lines := lines + setup.value;
    if StepArgv(s) != [] {
      lines := lines +
        [Echo, RunCommand(k, StepArgv(s)), KeepStatus, IfStatus, Echo,
         if s.continueOnFail then FailSoft else FailHard, EndIf];
    } else {
      lines := lines + [Echo];
    }
    BlockCommand(s, k);
    r := Ok(lines + [EndIf, Echo]);
  }

  lemma StepLinesSnoc(steps: seq<Step>, k: nat)
    requires k < |steps|
    ensures AllStepLines(steps[..k + 1]) == AllStepLines(steps[..k]) + StepLines(steps[k], k)
  {
    assert steps[..k + 1][..k] == steps[..k];
  }

  method AppendBlock(lines: seq<Line>, steps: seq<Step>, k: nat) returns (r: Result<seq<Line>, ScriptError>)
    requires k < |steps| && lines == AllStepLines(steps[..k])
    ensures r.Ok? <==> EnvOk(steps[k])
    ensures r.Ok? ==> r.value == AllStepLines(steps[..k + 1])
    ensures r.Err? ==> exists j: nat :: BadKey(steps[k], j) && r.error.key == steps[k].env[j].0
  {
    StepLinesSnoc(steps, k);
    var block := MakeBlock(steps[k], k);
    r := if block.Err? then block else Ok(lines + block.value);
  }

  /** The blocks of all steps, one after the other. */
  method MakeBlocks(steps: seq<Step>) returns (r: Result<seq<Line>, ScriptError>)
    ensures r.Ok? <==> EnvsOk(steps)
    ensures r.Ok? ==> r.value == AllStepLines(steps)
    ensures r.Err? ==> exists k: nat, j: nat :: FirstBadKey(steps, k, j) && r.error.key == steps[k].env[j].0
  {
    var lines: seq<Line> := [];
    for k := 0 to |steps|
      invariant lines == AllStepLines(steps[..k])
      invariant EnvsOk(steps[..k])
    {
      EnvsOkAt(steps, k);
      var longer := AppendBlock(lines, steps, k);
      if longer.Err? {
        ghost var j: nat :| BadKey(steps[k], j) && longer.error.key == steps[k].env[j].0;
        assert FirstBadKey(steps, k, j);
        return longer;
      }
      lines := longer.value;
    }
    assert steps[..|steps|] == steps;
    r := Ok(lines);
  }

  /** Grows the list of lines step by step; refuses an invalid environment key. */
  method MakeScript(base: string, steps: seq<Step>, wanted: set<string>) returns (r: Result<seq<Line>, ScriptError>)
    ensures r.Ok? <==> forall s, e :: s in Picked(steps, wanted) && e in s.env ==> NamesVariable(e.0)
    ensures r.Ok? ==> r.value == Script(base, Picked(steps, wanted))
    ensures r.Err? ==> exists k: nat, j: nat :: FirstBadKey(Picked(steps, wanted), k, j)
                                      && r.error.key == Picked(steps, wanted)[k].env[j].0
  {
    var picked := PickSteps(steps, wanted);
    EnvsOkExactly(picked);
    var blocks := MakeBlocks(picked);
    if blocks.Err? {
      return blocks;
    }
    r := Ok(Prologue(base) + blocks.value + EPILOGUE);
  }
}
