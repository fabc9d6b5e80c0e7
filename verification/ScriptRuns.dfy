/**
 What a compiled script does. A line interpreter keeps the script's variables, which a step's exports may
 overwrite, and the current directory; whether a directory can be entered, what an exported text expands to and
 how a command exits are oracles.
 */
module ScriptRuns {
  import opened Wrappers
  import opened Text
  import opened Directories
  import opened CommandScript

  // ----- numbers as the shell's test command reads them

  function DropLeading(text: string): (r: string) {
    if text != "" && (text[0] == ' ' || '\t' <= text[0] <= '\r') then DropLeading(text[1..]) else text
  }

  function DropTrailing(text: string): (r: string) {
    var n := |text| - 1;
    if text != "" && (text[n] == ' ' || text[n] == '\t') then DropTrailing(text[..n]) else text
  }

  /** A decimal number of 64 bits, perhaps signed and surrounded by blanks; anything else makes the test fail. */
  function Number(text: string): (n: Option<int>) {
    var t := DropTrailing(DropLeading(text));
    var signed := t != "" && (t[0] == '-' || t[0] == '+');
    var digits := if signed then t[1..] else t;
    if digits == "" || !AllDigits(digits) then None
    else
      var n: int := ParseNumeral(digits) * if signed && t[0] == '-' then -1 else 1;
      if -0x8000_0000_0000_0000 <= n < 0x8000_0000_0000_0000 then Some(n) else None
  }

  /** The text passes for a number other than zero. */
  predicate NonZero(text: string) {
    Number(text).Some? && Number(text).value != 0
  }

  /** How the script writes a flag. */
  function Flag(b: bool): (text: string) {
    if b then "1" else "0"
  }

  lemma FlagReads(b: bool)
    ensures NonZero(Flag(b)) <==> b
  {
    assert "1"[..0] == "" && "0"[..0] == "";
    assert ParseNumeral("1") == 1 && ParseNumeral("0") == 0;
  }

  // ----- scripts line by line

  /** A command that ran, for which step, and where. */
  datatype Run = Run(step: nat, words: seq<string>, dir: Dir)

  /**
   What the environment does: whether a step's base and directory can be entered, what the text of an exported
   variable expands to, and with what code a command exits, given the directory the shell is in and everything
   that has run before.
   */
  datatype World = World(
    entersBase: (nat, string, Dir, seq<Run>) -> bool,
    entersStep: (nat, Dir, seq<Run>) -> bool,
    expand: (nat, string, string, Dir, seq<Run>) -> string,
    exitCode: (nat, seq<string>, Dir, seq<Run>) -> int)

  /** The variables that the script relies on from one step to the next: the two flags and BASE. */
  datatype Vars = Vars(hard: string, soft: string, base: string)

  /** Shell state: variables, the last status, the current directory, and the commands that ran. */
  datatype Shell = Shell(vars: Vars, runStep: bool, status: int, rc: int, cwd: Dir, ran: seq<Run>)

  datatype Outcome = Exit(code: int, shell: Shell) | FellOff(shell: Shell)

  function SetVar(vars: Vars, key: string, value: string): (r: Vars) {
    if key == "failed_hard" then vars.(hard := value)
    else if key == "failed_soft" then vars.(soft := value)
    else if key == "BASE" then vars.(base := value)
    else vars
  }

  /** An export overwrites a variable of the script that has the same name. */
  function Exported(w: World, k: nat, key: string, text: string, sh: Shell): (r: Shell) {
    var value := w.expand(k, key, text, sh.cwd, sh.ran);
    sh.(vars := SetVar(sh.vars, key, value),
        runStep := if key == "run_step" then Number(value) != Some(0) else sh.runStep,
        rc := if key == "rc" then if NonZero(value) then 1 else 0 else sh.rc,
        status := 0)
  }

  /** Drops lines up to and including the EndIf that closes the block at the given depth. */
  function SkipBlock(lines: seq<Line>, depth: nat): (rest: seq<Line>)
    ensures |rest| <= |lines|
  {
    if lines == [] then []
    else if lines[0] == EndIf then if depth == 0 then lines[1..] else SkipBlock(lines[1..], depth - 1)
    else if lines[0] == IfRunElse || lines[0] == IfStatus then SkipBlock(lines[1..], depth + 1)
    else SkipBlock(lines[1..], depth)
  }

  /** Runs the lines one after the other. */
  function Interpret(w: World, lines: seq<Line>, sh: Shell): (o: Outcome)
    decreases |lines|
  {
    if lines == [] then FellOff(sh)
    else
      var rest := lines[1..];
      match lines[0]
      case Echo => Interpret(w, rest, sh.(status := 0))
      case SetBase(path) => Interpret(w, rest, sh.(vars := sh.vars.(base := path), status := 0))
      case ClearFlags => Interpret(w, rest, sh.(vars := sh.vars.(hard := "0", soft := "0"), status := 0))
      case StartStep => Interpret(w, rest, sh.(runStep := true, status := 0))
      case SkipIfFailed(unlessAlways) =>
        Interpret(w, rest, sh.(runStep := sh.runStep && !(NonZero(sh.vars.hard) && unlessAlways), status := 0))
      case IfRunElse =>
        if sh.runStep then Interpret(w, rest, sh.(status := 1))
        else Interpret(w, SkipBlock(rest, 0), sh.(status := 0))
      case CdBase(k) =>
        if w.entersBase(k, sh.vars.base, sh.cwd, sh.ran)
        then Interpret(w, rest, sh.(status := 0, cwd := Cd(sh.cwd, sh.vars.base)))
        else Exit(2, sh)
      case CdStep(k, path) =>
        if w.entersStep(k, sh.cwd, sh.ran) then Interpret(w, rest, sh.(status := 0, cwd := Cd(sh.cwd, path)))
        else Exit(2, sh)
      case Export(k, key, text) => Interpret(w, rest, Exported(w, k, key, text, sh))
      case RunCommand(k, words) =>
        Interpret(w, rest, sh.(status := w.exitCode(k, words, sh.cwd, sh.ran), ran := sh.ran + [Run(k, words, sh.cwd)]))
      case KeepStatus => Interpret(w, rest, sh.(rc := sh.status, status := 0))
      case IfStatus =>
        if sh.rc != 0 then Interpret(w, rest, sh.(status := 0))
        else Interpret(w, SkipBlock(rest, 0), sh.(status := 0))
      case FailSoft => Interpret(w, rest, sh.(vars := sh.vars.(soft := "1"), status := 0))
      case FailHard => Interpret(w, rest, sh.(vars := sh.vars.(hard := "1"), status := 0))
      case EndIf => Interpret(w, rest, sh)
      case ExitIfFailed => if NonZero(sh.vars.hard) then Exit(1, sh) else Interpret(w, rest, sh.(status := 0))
      case ExitOk => Exit(0, sh)
  }

  // ----- scripts step by step

  /**
   Where a script stands after some of its steps: its variables, directory and commands, or stopped because a
   directory could not be entered.
   */
  datatype Progress = Progress(vars: Vars, cwd: Dir, ran: seq<Run>, stopped: bool)

  /** The step is not skipped. */
  predicate Proceeds(s: Step, p: Progress) {
    !p.stopped && (s.always || !NonZero(p.vars.hard))
  }

  /** Base and directory of step k can be entered, one after the other. */
  predicate CanEnter(w: World, k: nat, p: Progress) {
    w.entersBase(k, p.vars.base, p.cwd, p.ran) && w.entersStep(k, Cd(p.cwd, p.vars.base), p.ran)
  }

  /** The variables after the exports of step k, made in the given directory. */
  function ExportAll(w: World, k: nat, env: seq<(string, string)>, dir: Dir, ran: seq<Run>, vars: Vars): (r: Vars) {
    if env == [] then vars
    else
      var (key, text) := env[|env| - 1];
      SetVar(ExportAll(w, k, env[..|env| - 1], dir, ran, vars), key, w.expand(k, key, text, dir, ran))
  }

  /** The variables once the command of a step, if it has one, has ended with the given code. */
  function AfterCommand(s: Step, code: int, vars: Vars): (r: Vars) {
    if StepArgv(s) == [] || code == 0 then vars
    else if s.continueOnFail then vars.(soft := "1")
    else vars.(hard := "1")
  }

  /** What the script does in step k: skip it, stop, or enter its directory, export, and run its command if any. */
  function Perform(w: World, s: Step, k: nat, p: Progress): (r: Progress) {
    if !Proceeds(s, p) then p
    else if !CanEnter(w, k, p) then p.(stopped := true)
    else
      var dir := Cd(Cd(p.cwd, p.vars.base), Workdir(s));
      var vars := ExportAll(w, k, s.env, dir, p.ran, p.vars);
      Progress(AfterCommand(s, w.exitCode(k, StepArgv(s), dir, p.ran), vars), dir,
               if StepArgv(s) == [] then p.ran else p.ran + [Run(k, StepArgv(s), dir)], false)
  }

  function Performed(w: World, start: Dir, base: string, steps: seq<Step>): (p: Progress) {
    if steps == [] then Progress(Vars("0", "0", base), start, [], false)
    else
      var n := |steps| - 1;
      Perform(w, steps[n], n, Performed(w, start, base, steps[..n]))
  }

  function CodeOf(p: Progress): (code: int) {
    if p.stopped then 2 else if NonZero(p.vars.hard) then 1 else 0
  }

  // ----- running and skipping blocks

  predicate Plain(lines: seq<Line>) {
    forall i :: 0 <= i < |lines| ==> lines[i] == Echo
  }

  /** Plain lines have no effect but on the last status. */
  lemma {:induction false} RunPlain(w: World, lines: seq<Line>, rest: seq<Line>, sh: Shell)
    requires Plain(lines)
    ensures Interpret(w, lines + rest, sh) == Interpret(w, rest, if lines == [] then sh else sh.(status := 0))
    decreases |lines|
  {
    if lines == [] {
      assert lines + rest == rest;
    } else {
      assert (lines + rest)[1..] == lines[1..] + rest;
      RunPlain(w, lines[1..], rest, sh.(status := 0));
    }
  }

  predicate Flat(lines: seq<Line>) {
    forall i :: 0 <= i < |lines| ==> lines[i] != EndIf && lines[i] != IfStatus && lines[i] != IfRunElse
  }

  /** Lines that neither open nor close a block are dropped one by one. */
  lemma {:induction false} SkipFlat(lines: seq<Line>, rest: seq<Line>, depth: nat)
    requires Flat(lines)
    ensures SkipBlock(lines + rest, depth) == SkipBlock(rest, depth)
    decreases |lines|
  {
    if lines == [] {
      assert lines + rest == rest;
    } else {
      assert (lines + rest)[1..] == lines[1..] + rest;
      SkipFlat(lines[1..], rest, depth);
    }
  }

  /** Skipping over the action of a step stays inside the step's own block. */
  lemma SkipAct(s: Step, k: nat, rest: seq<Line>)
    ensures SkipBlock(ActLines(s, k) + rest, 0) == SkipBlock(rest, 0)
  {
    if StepArgv(s) != [] {
      var fail := if s.continueOnFail then FailSoft else FailHard;
      var tail := [EndIf] + rest;
      assert ActLines(s, k) + rest
          == [Echo, RunCommand(k, StepArgv(s)), KeepStatus] + ([IfStatus] + ([Echo, fail] + tail));
      SkipFlat([Echo, RunCommand(k, StepArgv(s)), KeepStatus], [IfStatus] + ([Echo, fail] + tail), 0);
      SkipFlat([Echo, fail], tail, 1);
    } else {
      SkipFlat([Echo], rest, 0);
    }
  }

  /** A step's block when the step is not run. */
  lemma SkipBody(s: Step, k: nat, rest: seq<Line>)
    ensures SkipBlock(CdLines(s, k) + (SetupLines(s, k) + (ActLines(s, k) + ([EndIf] + rest))), 0) == rest
  {
    var end := [EndIf] + rest;
    var tail := ActLines(s, k) + end;
    SkipFlat(CdLines(s, k), SetupLines(s, k) + tail, 0);
    SkipFlat(SetupLines(s, k), tail, 0);
    SkipAct(s, k, end);
    assert end[1..] == rest;
  }

  // ----- the script does step by step what it does line by line

  /** The first line of a script. */
  lemma RunLine(w: World, line: Line, rest: seq<Line>, sh: Shell)
    ensures line == StartStep ==>
      Interpret(w, [line] + rest, sh) == Interpret(w, rest, sh.(runStep := true, status := 0))
    ensures line.SkipIfFailed? ==>
      Interpret(w, [line] + rest, sh) ==
      Interpret(w, rest, sh.(runStep := sh.runStep && !(NonZero(sh.vars.hard) && line.unlessAlways), status := 0))
    ensures line == IfRunElse ==>
      Interpret(w, [line] + rest, sh) ==
      if sh.runStep then Interpret(w, rest, sh.(status := 1)) else Interpret(w, SkipBlock(rest, 0), sh.(status := 0))
    ensures line == ClearFlags ==>
      Interpret(w, [line] + rest, sh) ==
      Interpret(w, rest, sh.(vars := sh.vars.(hard := "0", soft := "0"), status := 0))
    ensures line.SetBase? ==>
      Interpret(w, [line] + rest, sh) ==
      Interpret(w, rest, sh.(vars := sh.vars.(base := line.path), status := 0))
  {
    assert ([line] + rest)[1..] == rest;
  }

  /** The lines that keep a status and record a failure. */
  lemma RunStatusLine(w: World, line: Line, rest: seq<Line>, sh: Shell)
    ensures line == KeepStatus ==>
      Interpret(w, [line] + rest, sh) == Interpret(w, rest, sh.(rc := sh.status, status := 0))
    ensures line == IfStatus ==>
      Interpret(w, [line] + rest, sh) ==
      Interpret(w, if sh.rc != 0 then rest else SkipBlock(rest, 0), sh.(status := 0))
    ensures line == FailSoft ==>
      Interpret(w, [line] + rest, sh) == Interpret(w, rest, sh.(vars := sh.vars.(soft := "1"), status := 0))
    ensures line == FailHard ==>
      Interpret(w, [line] + rest, sh) == Interpret(w, rest, sh.(vars := sh.vars.(hard := "1"), status := 0))
    ensures line == EndIf ==> Interpret(w, [line] + rest, sh) == Interpret(w, rest, sh)
  {
    assert ([line] + rest)[1..] == rest;
  }

  /** Two shells that differ at most in what is set before it is read again. */
  predicate Alike(a: Shell, b: Shell) {
    a.vars == b.vars && a.cwd == b.cwd && a.ran == b.ran
  }

  /** The exports of a step, one line each. */
  lemma {:induction false} RunExports(w: World, k: nat, env: seq<(string, string)>, rest: seq<Line>, sh: Shell)
    returns (next: Shell)
    ensures Interpret(w, Exports(env, k) + rest, sh) == Interpret(w, rest, next)
    ensures Alike(next, sh.(vars := ExportAll(w, k, env, sh.cwd, sh.ran, sh.vars)))
  {
    if env == [] {
      assert Exports(env, k) + rest == rest;
      next := sh;
    } else {
      var n := |env| - 1;
      var (key, text) := env[n];
      var last := [Export(k, key, text)] + rest;
      assert Exports(env, k) + rest == Exports(env[..n], k) + last;
      next := RunExports(w, k, env[..n], last, sh);
      assert last[1..] == rest;
      next := Exported(w, k, key, text, next);
    }
  }

  /** The shell after a step's action. */
  function Acted(w: World, s: Step, k: nat, sh: Shell): (r: Shell) {
    if StepArgv(s) == [] then sh.(status := 0)
    else
      var code := w.exitCode(k, StepArgv(s), sh.cwd, sh.ran);
      sh.(ran := sh.ran + [Run(k, StepArgv(s), sh.cwd)], rc := code, status := 0,
          vars := AfterCommand(s, code, sh.vars))
  }

  lemma RunAct(w: World, s: Step, k: nat, rest: seq<Line>, sh: Shell)
    ensures Interpret(w, ActLines(s, k) + rest, sh) == Interpret(w, rest, Acted(w, s, k, sh))
  {
    if StepArgv(s) == [] {
      RunPlain(w, [Echo], rest, sh);
    } else {
      var fail := if s.continueOnFail then FailSoft else FailHard;
      var end := [EndIf] + rest;
      var body := [Echo] + ([fail] + end);
      var after := [KeepStatus] + ([IfStatus] + body);
      var run := RunCommand(k, StepArgv(s));
      assert ActLines(s, k) + rest == [Echo] + ([run] + after);
      RunPlain(w, [Echo], [run] + after, sh);
      var ran := sh.(status := w.exitCode(k, StepArgv(s), sh.cwd, sh.ran),
                     ran := sh.ran + [Run(k, StepArgv(s), sh.cwd)]);
      assert ([run] + after)[1..] == after;
      RunStatus(w, fail, rest, ran);
    }
  }

  /** Keeping the status of a command and recording its failure. */
  lemma RunStatus(w: World, fail: Line, rest: seq<Line>, sh: Shell)
    requires fail == FailSoft || fail == FailHard
    ensures Interpret(w, [KeepStatus] + ([IfStatus] + ([Echo] + ([fail] + ([EndIf] + rest)))), sh)
         == Interpret(w, rest, sh.(rc := sh.status, status := 0,
                                   vars := if sh.status == 0 then sh.vars
                                           else if fail == FailHard then sh.vars.(hard := "1")
                                           else sh.vars.(soft := "1")))
  {
    var end := [EndIf] + rest;
    var failing := [fail] + end;
    var kept := sh.(rc := sh.status, status := 0);
    RunStatusLine(w, KeepStatus, [IfStatus] + ([Echo] + failing), sh);
    RunStatusLine(w, IfStatus, [Echo] + failing, kept);
    if sh.status != 0 {
      RunPlain(w, [Echo], failing, kept);
      RunStatusLine(w, fail, end, kept);
      RunStatusLine(w, EndIf, rest, if fail == FailHard then kept.(vars := sh.vars.(hard := "1"))
                                    else kept.(vars := sh.vars.(soft := "1")));
    } else {
      SkipFailing(fail, rest);
    }
  }

  lemma SkipFailing(fail: Line, rest: seq<Line>)
    requires fail == FailSoft || fail == FailHard
    ensures SkipBlock([Echo] + ([fail] + ([EndIf] + rest)), 0) == rest
  {
    var end := [EndIf] + rest;
    SkipFlat([Echo], [fail] + end, 0);
    SkipFlat([fail], end, 0);
    assert end[1..] == rest;
  }

  /** The two directory changes of a step: both succeed, or the script ends there. */
  lemma RunCds(w: World, s: Step, k: nat, rest: seq<Line>, sh: Shell)
    ensures var o := Interpret(w, CdLines(s, k) + rest, sh); var base := sh.vars.base;
      if w.entersBase(k, base, sh.cwd, sh.ran) && w.entersStep(k, Cd(sh.cwd, base), sh.ran)
      then o == Interpret(w, rest, sh.(status := 0, cwd := Cd(Cd(sh.cwd, base), Workdir(s))))
      else o.Exit? && o.code == 2 && o.shell.(status := 0, cwd := sh.cwd) == sh.(status := 0)
  {
    var second := [CdStep(k, Workdir(s))] + rest;
    assert CdLines(s, k) + rest == [CdBase(k)] + second;
    assert ([CdBase(k)] + second)[1..] == second && second[1..] == rest;
  }

  /** A step's block when the step is run and its directory can be entered. */
  lemma RunBody(w: World, s: Step, k: nat, rest: seq<Line>, sh: Shell) returns (next: Shell)
    ensures Interpret(w, SetupLines(s, k) + (ActLines(s, k) + ([EndIf] + rest)), sh) == Interpret(w, rest, next)
    ensures Alike(next, Acted(w, s, k, sh.(vars := ExportAll(w, k, s.env, sh.cwd, sh.ran, sh.vars))))
  {
    var end := [EndIf] + rest;
    var tail := ActLines(s, k) + end;
    Regroup(Exports(s.env, k), OutputLines(s), tail);
    var ready := RunExports(w, k, s.env, OutputLines(s) + tail, sh);
    RunPlain(w, OutputLines(s), tail, ready);
    ready := if OutputLines(s) == [] then ready else ready.(status := 0);
    RunAct(w, s, k, end, ready);
    next := Acted(w, s, k, ready);
    RunStatusLine(w, EndIf, rest, next);
  }

  /** The head of a block decides whether the step is run. */
  lemma RunHead(w: World, s: Step, rest: seq<Line>, sh: Shell)
    ensures Interpret(w, HeadLines(s) + rest, sh) ==
            if s.always || !NonZero(sh.vars.hard) then Interpret(w, rest, sh.(runStep := true, status := 1))
            else Interpret(w, SkipBlock(rest, 0), sh.(runStep := false, status := 0))
  {
    var open := [IfRunElse] + rest;
    var check := [SkipIfFailed(!s.always)] + open;
    var started := sh.(runStep := true, status := 0);
    assert HeadLines(s) + rest == [Echo, Echo] + ([StartStep] + check);
    RunPlain(w, [Echo, Echo], [StartStep] + check, sh);
    RunLine(w, StartStep, check, sh.(status := 0));
    RunLine(w, SkipIfFailed(!s.always), open, started);
    RunLine(w, IfRunElse, rest, started.(runStep := !(NonZero(sh.vars.hard) && !s.always)));
  }

  /** Variables, commands run and, unless the job stopped, the directory are those of the progress. */
  predicate Shows(sh: Shell, p: Progress) {
    sh.vars == p.vars && sh.ran == p.ran && (!p.stopped ==> sh.cwd == p.cwd)
  }

  lemma StepShape(s: Step, k: nat, rest: seq<Line>)
    ensures StepLines(s, k) + rest ==
            HeadLines(s) + (CdLines(s, k) + (SetupLines(s, k) + (ActLines(s, k) + ([EndIf] + ([Echo] + rest)))))
  {}

  /** One step's block has the effect of the step. */
  lemma RunStepLines(w: World, s: Step, k: nat, rest: seq<Line>, sh: Shell, p: Progress) returns (next: Shell)
    requires Shows(sh, p) && !p.stopped
    ensures var o := Interpret(w, StepLines(s, k) + rest, sh); var p' := Perform(w, s, k, p);
      && Shows(next, p')
      && if p'.stopped then o == Exit(2, next) else o == Interpret(w, rest, next)
  {
    var after := [Echo] + rest;
    var setup := SetupLines(s, k) + (ActLines(s, k) + ([EndIf] + after));
    var body := CdLines(s, k) + setup;
    StepShape(s, k, rest);
    RunHead(w, s, body, sh);
    if Proceeds(s, p) {
      var open := sh.(runStep := true, status := 1);
      RunCds(w, s, k, setup, open);
      if CanEnter(w, k, p) {
        next := RunBody(w, s, k, after, open.(status := 0, cwd := Cd(Cd(sh.cwd, p.vars.base), Workdir(s))));
      } else {
        next := Interpret(w, body, open).shell;
      }
    } else {
      SkipBody(s, k, after);
      next := sh.(runStep := false, status := 0);
    }
    RunPlain(w, [Echo], rest, next);
    if !Perform(w, s, k, p).stopped {
      next := next.(status := 0);
    }
  }

  lemma LastBlock(steps: seq<Step>, rest: seq<Line>)
    requires steps != []
    ensures var n := |steps| - 1;
      AllStepLines(steps) + rest == AllStepLines(steps[..n]) + (StepLines(steps[n], n) + rest)
  {
    var n := |steps| - 1;
    Regroup(AllStepLines(steps[..n]), StepLines(steps[n], n), rest);
  }

  lemma Regroup(a: seq<Line>, b: seq<Line>, c: seq<Line>)
    ensures (a + b) + c == a + (b + c)
  {}

  lemma {:induction false} RunAllStepLines(w: World, steps: seq<Step>, rest: seq<Line>, sh: Shell)
    returns (next: Shell)
    requires sh.vars.hard == "0" && sh.vars.soft == "0" && sh.ran == []
    ensures var o := Interpret(w, AllStepLines(steps) + rest, sh);
      var p := Performed(w, sh.cwd, sh.vars.base, steps);
      && Shows(next, p)
      && if p.stopped then o == Exit(2, next) else o == Interpret(w, rest, next)
  {
    if steps == [] {
      assert AllStepLines(steps) + rest == rest;
      next := sh;
    } else {
      var n := |steps| - 1;
      var last := StepLines(steps[n], n) + rest;
      LastBlock(steps, rest);
      var before := Performed(w, sh.cwd, sh.vars.base, steps[..n]);
      next := RunAllStepLines(w, steps[..n], last, sh);
      if !before.stopped {
        next := RunStepLines(w, steps[n], n, rest, next, before);
      }
    }
  }

  /** The shell when the script begins, in some directory and with nothing run yet. */
  predicate NewShell(sh: Shell, start: Dir) {
    sh.cwd == start && sh.ran == []
  }

  /**
   The whole script, line by line, has the effect of its steps one after the other: the same exit code, the same
   commands in the same order and directories, and the same variables, whatever the shell's variables were
   before and whatever the world does.
   */
  lemma ScriptPerforms(w: World, start: Dir, base: string, steps: seq<Step>, sh: Shell)
    requires NewShell(sh, start)
    ensures var o := Interpret(w, Script(base, steps), sh); var p := Performed(w, start, base, steps);
      o.Exit? && o.code == CodeOf(p) && Shows(o.shell, p)
  {
    Regroup(Prologue(base), AllStepLines(steps), EPILOGUE);
    RunPrologue(w, base, AllStepLines(steps) + EPILOGUE, sh);
    var next := RunAllStepLines(w, steps, EPILOGUE, sh.(vars := Vars("0", "0", base), status := 0));
    RunEpilogue(w, next);
  }

  lemma RunEpilogue(w: World, sh: Shell)
    ensures var o := Interpret(w, EPILOGUE, sh);
      o.Exit? && o.code == (if NonZero(sh.vars.hard) then 1 else 0) && o.shell.(status := 0) == sh.(status := 0)
  {
    var end := [ExitIfFailed, ExitOk];
    assert EPILOGUE == [Echo, Echo] + end;
    RunPlain(w, [Echo, Echo], end, sh);
    assert end[1..] == [ExitOk];
  }

  lemma RunPrologue(w: World, base: string, rest: seq<Line>, sh: Shell)
    ensures Interpret(w, Prologue(base) + rest, sh)
         == Interpret(w, rest, sh.(vars := Vars("0", "0", base), status := 0))
  {
    var tail := [Echo, Echo, Echo, Echo, Echo] + rest;
    var clear := [ClearFlags] + tail;
    var based := sh.(vars := sh.vars.(base := base), status := 0);
    PrologueShape(base, rest);
    RunPlain(w, [Echo, Echo], [SetBase(base)] + ([Echo] + clear), sh);
    RunLine(w, SetBase(base), [Echo] + clear, sh.(status := 0));
    RunPlain(w, [Echo], clear, based);
    RunLine(w, ClearFlags, tail, based);
    RunPlain(w, [Echo, Echo, Echo, Echo, Echo], rest, sh.(vars := Vars("0", "0", base), status := 0));
  }

  lemma PrologueShape(base: string, rest: seq<Line>)
    ensures Prologue(base) + rest ==
            [Echo, Echo] + ([SetBase(base)] + ([Echo] + ([ClearFlags] + ([Echo, Echo, Echo, Echo, Echo] + rest))))
  {}

  // ----- single steps

  /** Where the script stands after its first k steps. */
  function At(w: World, start: Dir, base: string, steps: seq<Step>, k: nat): (p: Progress)
    requires k <= |steps|
  {
    Performed(w, start, base, steps[..k])
  }

  lemma AtStep(w: World, start: Dir, base: string, steps: seq<Step>, k: nat)
    requires k < |steps|
    ensures At(w, start, base, steps, k + 1) == Perform(w, steps[k], k, At(w, start, base, steps, k))
  {
    assert steps[..k + 1][..k] == steps[..k];
  }

  lemma AtEnds(w: World, start: Dir, base: string, steps: seq<Step>)
    ensures At(w, start, base, steps, 0) == Progress(Vars("0", "0", base), start, [], false)
    ensures At(w, start, base, steps, |steps|) == Performed(w, start, base, steps)
  {
    assert steps[..|steps|] == steps && steps[..0] == [];
  }

  /** Step k was run: it was not skipped and both its directories could be entered. */
  predicate Entered(w: World, start: Dir, base: string, steps: seq<Step>, k: nat)
    requires k < |steps|
  {
    Proceeds(steps[k], At(w, start, base, steps, k)) && !At(w, start, base, steps, k + 1).stopped
  }

  /** In step k these words were run, in the directory the shell was left in. */
  predicate RanWords(w: World, start: Dir, base: string, steps: seq<Step>, k: nat, words: seq<string>)
    requires k < |steps|
  {
    var after := At(w, start, base, steps, k + 1);
    after.ran == At(w, start, base, steps, k).ran + [Run(k, words, after.cwd)]
  }

  predicate RanNothing(w: World, start: Dir, base: string, steps: seq<Step>, k: nat)
    requires k < |steps|
  {
    At(w, start, base, steps, k + 1).ran == At(w, start, base, steps, k).ran
  }

  /** Step k ran its command, which failed, and the suite does not continue on its failure. */
  ghost predicate FailedHard(w: World, start: Dir, base: string, steps: seq<Step>, k: nat)
    requires k < |steps|
  {
    !steps[k].continueOnFail
    && exists words :: RanWords(w, start, base, steps, k, words)
                       && w.exitCode(k, words, At(w, start, base, steps, k + 1).cwd,
                                     At(w, start, base, steps, k).ran) != 0
  }

  predicate HasKey(env: seq<(string, string)>, key: string) {
    env != [] && (env[|env| - 1].0 == key || HasKey(env[..|env| - 1], key))
  }

  predicate ExportsKey(s: Step, key: string) {
    HasKey(s.env, key)
  }

  /** What the failure flag is set to by the exports of step k. */
  function HardExport(w: World, start: Dir, base: string, steps: seq<Step>, k: nat): (text: string)
    requires k < |steps|
  {
    var before, dir := At(w, start, base, steps, k), At(w, start, base, steps, k + 1).cwd;
    ExportAll(w, k, steps[k].env, dir, before.ran, before.vars).hard
  }

  /** Step k was run and leaves the failure flag up: its command failed hard, or it exports a number but zero. */
  ghost predicate Raises(w: World, start: Dir, base: string, steps: seq<Step>, k: nat)
    requires k < |steps|
  {
    && Entered(w, start, base, steps, k)
    && (FailedHard(w, start, base, steps, k)
        || (ExportsKey(steps[k], "failed_hard") && NonZero(HardExport(w, start, base, steps, k))))
  }

  /** Step k was run, did not fail hard and takes the failure flag down by an export. */
  ghost predicate Clears(w: World, start: Dir, base: string, steps: seq<Step>, k: nat)
    requires k < |steps|
  {
    && Entered(w, start, base, steps, k) && !FailedHard(w, start, base, steps, k)
    && ExportsKey(steps[k], "failed_hard") && !NonZero(HardExport(w, start, base, steps, k))
  }

  /** Some step before k raised the failure flag and no step since has cleared it. */
  ghost predicate Blocked(w: World, start: Dir, base: string, steps: seq<Step>, k: nat)
    requires k <= |steps|
  {
    exists j :: 0 <= j < k && Raises(w, start, base, steps, j)
                && forall i :: j < i < k ==> !Clears(w, start, base, steps, i)
  }

  lemma {:induction false} ExportAllKeeps(w: World, k: nat, env: seq<(string, string)>, dir: Dir, ran: seq<Run>,
                                          vars: Vars)
    ensures var r := ExportAll(w, k, env, dir, ran, vars);
      && (!HasKey(env, "failed_hard") ==> r.hard == vars.hard)
      && (!HasKey(env, "failed_soft") ==> r.soft == vars.soft)
      && (!HasKey(env, "BASE") ==> r.base == vars.base)
  {
    if env != [] {
      ExportAllKeeps(w, k, env[..|env| - 1], dir, ran, vars);
    }
  }

  function ValueOf(values: Vars, key: string): (text: string) {
    if key == "failed_hard" then values.hard else if key == "failed_soft" then values.soft
    else if key == "BASE" then values.base else ""
  }

  /** Exports whose values depend on the variable alone set exactly the exported variables, to those values. */
  lemma {:induction false} ConstantExports(w: World, values: Vars, k: nat, env: seq<(string, string)>, dir: Dir,
                                           ran: seq<Run>, vars: Vars)
    requires forall key, text, d, r :: w.expand(k, key, text, d, r) == ValueOf(values, key)
    ensures var r := ExportAll(w, k, env, dir, ran, vars);
      && r.hard == (if HasKey(env, "failed_hard") then values.hard else vars.hard)
      && r.soft == (if HasKey(env, "failed_soft") then values.soft else vars.soft)
      && r.base == (if HasKey(env, "BASE") then values.base else vars.base)
  {
    if env != [] {
      ConstantExports(w, values, k, env[..|env| - 1], dir, ran, vars);
    }
  }

  ghost predicate SomeExports(steps: seq<Step>, k: nat, key: string)
    requires k <= |steps|
  {
    exists i :: 0 <= i < k && ExportsKey(steps[i], key)
  }

  lemma SomeExportsNext(steps: seq<Step>, k: nat, key: string)
    requires k < |steps|
    ensures SomeExports(steps, k + 1, key) <==> SomeExports(steps, k, key) || ExportsKey(steps[k], key)
  {}

  /** A step that was run ran its own words, if it has any. */
  lemma RanOwnWords(w: World, start: Dir, base: string, steps: seq<Step>, k: nat, words: seq<string>)
    requires k < |steps|
    ensures RanWords(w, start, base, steps, k, words) <==>
            Entered(w, start, base, steps, k) && StepArgv(steps[k]) != [] && words == StepArgv(steps[k])
  {
    AtStep(w, start, base, steps, k);
    var ran, dir := At(w, start, base, steps, k).ran, At(w, start, base, steps, k + 1).cwd;
    assert |ran + [Run(k, words, dir)]| != |ran|;
    assert (ran + [Run(k, words, dir)])[|ran|].words == words;
    assert (ran + [Run(k, StepArgv(steps[k]), dir)])[|ran|].words == StepArgv(steps[k]);
  }

  /** A hard failure, seen from the step's own command. */
  lemma FailedHardIs(w: World, start: Dir, base: string, steps: seq<Step>, k: nat)
    requires k < |steps|
    ensures var dir, ran := At(w, start, base, steps, k + 1).cwd, At(w, start, base, steps, k).ran;
      FailedHard(w, start, base, steps, k) <==>
      Entered(w, start, base, steps, k) && StepArgv(steps[k]) != [] && !steps[k].continueOnFail
      && w.exitCode(k, StepArgv(steps[k]), dir, ran) != 0
  {
    RanOwnWords(w, start, base, steps, k, StepArgv(steps[k]));
    if FailedHard(w, start, base, steps, k) {
      var words :| RanWords(w, start, base, steps, k, words)
                   && w.exitCode(k, words, At(w, start, base, steps, k + 1).cwd, At(w, start, base, steps, k).ran) != 0;
      RanOwnWords(w, start, base, steps, k, words);
    }
  }

  /** After step k the failure flag is up if the step raised it, or if it was up and the step did not clear it. */
  lemma HardAfter(w: World, start: Dir, base: string, steps: seq<Step>, k: nat)
    requires k < |steps|
    ensures NonZero(At(w, start, base, steps, k + 1).vars.hard) <==>
            Raises(w, start, base, steps, k)
            || (NonZero(At(w, start, base, steps, k).vars.hard) && !Clears(w, start, base, steps, k))
  {
    AtStep(w, start, base, steps, k);
    var p, q := At(w, start, base, steps, k), At(w, start, base, steps, k + 1);
    FailedHardIs(w, start, base, steps, k);
    if Entered(w, start, base, steps, k) {
      ExportAllKeeps(w, k, steps[k].env, q.cwd, p.ran, p.vars);
      FlagReads(true);
    }
  }

  /** One more step: it raises the flag, or the flag was raised before and the step does not clear it. */
  lemma BlockedNext(w: World, start: Dir, base: string, steps: seq<Step>, k: nat)
    requires k < |steps|
    ensures Blocked(w, start, base, steps, k + 1) <==>
            Raises(w, start, base, steps, k)
            || (Blocked(w, start, base, steps, k) && !Clears(w, start, base, steps, k))
  {
    ghost var raises := (j: nat) => j < |steps| && Raises(w, start, base, steps, j);
    ghost var clears := (j: nat) => j < |steps| && Clears(w, start, base, steps, j);
    StandsNext(raises, clears, k);
    StandsIsBlocked(w, start, base, steps, k, raises, clears);
    StandsIsBlocked(w, start, base, steps, k + 1, raises, clears);
  }

  /** Something raised before k has not been cleared since. */
  ghost predicate Stands(raises: nat -> bool, clears: nat -> bool, k: nat) {
    exists j: nat :: j < k && raises(j) && forall i: nat :: j < i < k ==> !clears(i)
  }

  lemma StandsNext(raises: nat -> bool, clears: nat -> bool, k: nat)
    ensures Stands(raises, clears, k + 1) <==> raises(k) || (Stands(raises, clears, k) && !clears(k))
  {
    if j: nat :| j < k && raises(j) && forall i: nat :: j < i < k ==> !clears(i) {
      assert !clears(k) ==> forall i: nat :: j < i < k + 1 ==> !clears(i);
    }
    if j: nat :| j < k + 1 && raises(j) && forall i: nat :: j < i < k + 1 ==> !clears(i) {
      assert j < k ==> !clears(k) && forall i: nat :: j < i < k ==> !clears(i);
    }
  }

  lemma StandsIsBlocked(w: World, start: Dir, base: string, steps: seq<Step>, k: nat,
                        raises: nat -> bool, clears: nat -> bool)
    requires k <= |steps|
    requires forall j: nat :: j < k ==> raises(j) == Raises(w, start, base, steps, j)
    requires forall j: nat :: j < k ==> clears(j) == Clears(w, start, base, steps, j)
    ensures Stands(raises, clears, k) <==> Blocked(w, start, base, steps, k)
  {
    if j: nat :| j < k && raises(j) && forall i: nat :: j < i < k ==> !clears(i) {
      forall i | j < i < k
        ensures !Clears(w, start, base, steps, i)
      {
        assert !clears(i);
      }
    }
    if j: nat :| j < k && Raises(w, start, base, steps, j)
                 && forall i :: j < i < k ==> !Clears(w, start, base, steps, i) {
      assert raises(j);
      assert forall i: nat :: j < i < k ==> !clears(i);
    }
  }

  lemma {:induction false} HardMeansBlocked(w: World, start: Dir, base: string, steps: seq<Step>, k: nat)
    requires k <= |steps|
    ensures NonZero(At(w, start, base, steps, k).vars.hard) <==> Blocked(w, start, base, steps, k)
  {
    if k == 0 {
      AtEnds(w, start, base, steps);
      FlagReads(false);
    } else {
      var n := k - 1;
      HardMeansBlocked(w, start, base, steps, n);
      HardAfter(w, start, base, steps, n);
      BlockedNext(w, start, base, steps, n);
    }
  }

  /**
   As long as directories can be entered, a step runs its command, words for words, exactly when it is always or
   every failure flag raised before it has been cleared again. It runs nothing exactly if it is held back or its
   words are missing and its bash and shell texts are blank.
   */
  lemma StepRunsExactlyWhen(w: World, start: Dir, base: string, steps: seq<Step>, k: nat, words: seq<string>)
    requires k < |steps| && !At(w, start, base, steps, k + 1).stopped
    ensures var free := steps[k].always || !Blocked(w, start, base, steps, k);
      && (RanWords(w, start, base, steps, k, words) <==> free && IsCommandOf(steps[k], words))
      && (RanNothing(w, start, base, steps, k) <==> !free || HasNoCommand(steps[k]))
  {
    HardMeansBlocked(w, start, base, steps, k);
    AtStep(w, start, base, steps, k);
    RanOwnWords(w, start, base, steps, k, words);
    var before := At(w, start, base, steps, k);
    assert forall r :: before.ran + [r] != before.ran;
  }

  /** The script exits with 2 if a directory stopped it, else with 1 exactly if the failure flag is up at the end. */
  lemma ExitsOneExactlyWhen(w: World, start: Dir, base: string, steps: seq<Step>, sh: Shell)
    requires NewShell(sh, start)
    ensures var o := Interpret(w, Script(base, steps), sh);
      o.Exit? && o.code == if Performed(w, start, base, steps).stopped then 2
                           else if Blocked(w, start, base, steps, |steps|) then 1 else 0
  {
    ScriptPerforms(w, start, base, steps, sh);
    HardMeansBlocked(w, start, base, steps, |steps|);
    AtEnds(w, start, base, steps);
  }

  /** In a suite that never exports the failure flag, what blocks a step is a hard failure before it. */
  lemma BlockedByFailure(w: World, start: Dir, base: string, steps: seq<Step>, k: nat)
    requires k <= |steps| && forall i :: 0 <= i < k ==> !ExportsKey(steps[i], "failed_hard")
    ensures Blocked(w, start, base, steps, k) <==> exists j :: 0 <= j < k && FailedHard(w, start, base, steps, j)
  {
    if j :| 0 <= j < k && FailedHard(w, start, base, steps, j) {
      FailedHardIs(w, start, base, steps, j);
      assert Raises(w, start, base, steps, j);
    }
  }

  /** Runs of steps below n, in increasing order. */
  predicate InSuiteOrder(ran: seq<Run>, n: nat) {
    && (forall i :: 0 <= i < |ran| ==> ran[i].step < n)
    && (forall i, j :: 0 <= i < j < |ran| ==> ran[i].step < ran[j].step)
  }

  lemma {:induction false} PerformedInOrder(w: World, start: Dir, base: string, steps: seq<Step>)
    ensures InSuiteOrder(Performed(w, start, base, steps).ran, |steps|)
  {
    if steps != [] {
      PerformedInOrder(w, start, base, steps[..|steps| - 1]);
    }
  }

  /** Commands run in suite order, each at most once. */
  lemma RunsInOrder(w: World, start: Dir, base: string, steps: seq<Step>, sh: Shell)
    requires NewShell(sh, start)
    ensures InSuiteOrder(Interpret(w, Script(base, steps), sh).shell.ran, |steps|)
  {
    ScriptPerforms(w, start, base, steps, sh);
    PerformedInOrder(w, start, base, steps);
  }
}
