/**
 What a suite means, and exactly when its script means the same: unless a step exports one of the variables on
 which the script itself relies.
 */
module SuiteMeaning {
  import opened Text
  import opened Directories
  import opened CommandScript
  import opened ScriptRuns

  // ----- the suite

  /**
   The meaning of the first steps: hard and soft failure, the directory the shell is left in, the commands run,
   or the job stopped because a directory could not be entered. Exported variables are the business of commands.
   */
  datatype Meaning = Meaning(hard: bool, soft: bool, cwd: Dir, ran: seq<Run>, stopped: bool)

  predicate Runs(s: Step, m: Meaning) {
    !m.stopped && (s.always || !m.hard)
  }

  function Do(w: World, base: string, s: Step, k: nat, m: Meaning): (r: Meaning) {
    if !Runs(s, m) then m
    else if !w.entersBase(k, base, m.cwd, m.ran) || !w.entersStep(k, Cd(m.cwd, base), m.ran) then m.(stopped := true)
    else
      var dir := Cd(Cd(m.cwd, base), Trim(if s.workdir == "" then "." else s.workdir));
      if s.cmd == [] && Trim(s.bash) == "" && Trim(s.shell) == "" then m.(cwd := dir)
      else
        var words := if s.cmd != [] then s.cmd
                     else if Trim(s.bash) != "" then ["bash", "-lc", Trim(s.bash)]
                     else ["sh", "-lc", Trim(s.shell)];
        var failed := w.exitCode(k, words, dir, m.ran) != 0;
        m.(hard := m.hard || (failed && !s.continueOnFail),
           soft := m.soft || (failed && s.continueOnFail),
           cwd := dir,
           ran := m.ran + [Run(k, words, dir)])
  }

  /** The direct semantics: steps in order, each run if it is always or nothing has failed hard so far. */
  function Direct(w: World, start: Dir, base: string, steps: seq<Step>): (m: Meaning) {
    if steps == [] then Meaning(false, false, start, [], false)
    else
      var n := |steps| - 1;
      Do(w, base, steps[n], n, Direct(w, start, base, steps[..n]))
  }

  function ExitCode(m: Meaning): (code: int) {
    if m.stopped then 2 else if m.hard then 1 else 0
  }

  // ----- the script against the suite

  /** The outcome of a script is what the suite means: code, commands with their directories, and flags. */
  predicate Matches(o: Outcome, m: Meaning) {
    && o.Exit? && o.code == ExitCode(m)
    && o.shell.vars.hard == Flag(m.hard) && o.shell.vars.soft == Flag(m.soft)
    && o.shell.ran == m.ran && (!m.stopped ==> o.shell.cwd == m.cwd)
  }

  /** Started in any shell, the script of the suite does what the suite means. */
  ghost predicate ScriptMeans(w: World, start: Dir, base: string, steps: seq<Step>) {
    forall sh :: NewShell(sh, start) ==> Matches(Interpret(w, Script(base, steps), sh), Direct(w, start, base, steps))
  }

  /** No step exports a flag of the script, and only the last one may export BASE. */
  predicate VarsUntouched(steps: seq<Step>) {
    forall i :: 0 <= i < |steps| ==>
      && !ExportsKey(steps[i], "failed_hard") && !ExportsKey(steps[i], "failed_soft")
      && (i < |steps| - 1 ==> !ExportsKey(steps[i], "BASE"))
  }

  predicate Agrees(p: Progress, m: Meaning) {
    && p.vars.hard == Flag(m.hard) && p.vars.soft == Flag(m.soft)
    && p.ran == m.ran && p.stopped == m.stopped && p.cwd == m.cwd
  }

  /** A step that exports neither flag does what it means, as long as BASE is what it was. */
  lemma PerformAgrees(w: World, base: string, s: Step, k: nat, p: Progress, m: Meaning)
    requires Agrees(p, m) && p.vars.base == base
    requires !ExportsKey(s, "failed_hard") && !ExportsKey(s, "failed_soft")
    ensures Agrees(Perform(w, s, k, p), Do(w, base, s, k, m))
    ensures !ExportsKey(s, "BASE") ==> Perform(w, s, k, p).vars.base == base
  {
    FlagReads(m.hard);
    var dir := Cd(Cd(p.cwd, base), Workdir(s));
    ExportAllKeeps(w, k, s.env, dir, p.ran, p.vars);
  }

  lemma {:induction false} PerformedAgrees(w: World, start: Dir, base: string, steps: seq<Step>)
    requires VarsUntouched(steps)
    ensures Agrees(Performed(w, start, base, steps), Direct(w, start, base, steps))
    ensures (forall i :: 0 <= i < |steps| ==> !ExportsKey(steps[i], "BASE")) ==>
              Performed(w, start, base, steps).vars.base == base
  {
    if steps != [] {
      var n := |steps| - 1;
      var init := steps[..n];
      assert forall i :: 0 <= i < n ==> init[i] == steps[i];
      PerformedAgrees(w, start, base, init);
      PerformAgrees(w, base, steps[n], n, Performed(w, start, base, init), Direct(w, start, base, init));
    }
  }

  /** The script of a suite that leaves the script's variables alone means what the suite means, in every world. */
  lemma UntouchedMeans(w: World, start: Dir, base: string, steps: seq<Step>)
    requires VarsUntouched(steps)
    ensures ScriptMeans(w, start, base, steps)
  {
    PerformedAgrees(w, start, base, steps);
    FlagReads(Direct(w, start, base, steps).hard);
    forall sh | NewShell(sh, start)
      ensures Matches(Interpret(w, Script(base, steps), sh), Direct(w, start, base, steps))
    {
      ScriptPerforms(w, start, base, steps, sh);
    }
  }

  // ----- worlds in which an export does harm

  /** Every command succeeds, only the base and the steps' directories are there, and exports have fixed values. */
  function Calm(base: string, values: Vars): (w: World) {
    World((k, path, dir, ran) => path == base,
          (k, dir, ran) => true,
          (k, key, text, dir, ran) => ValueOf(values, key),
          (k, words, dir, ran) => 0)
  }

  /** In a calm world the suite means success. */
  lemma {:induction false} CalmSucceeds(base: string, values: Vars, start: Dir, steps: seq<Step>)
    ensures var m := Direct(Calm(base, values), start, base, steps); !m.hard && !m.soft && !m.stopped
  {
    if steps != [] {
      CalmSucceeds(base, values, start, steps[..|steps| - 1]);
    }
  }

  /** One step of a script in a calm world. */
  lemma CalmStep(base: string, values: Vars, s: Step, k: nat, p: Progress)
    ensures var q := Perform(Calm(base, values), s, k, p);
      if !Proceeds(s, p) then q == p
      else if p.vars.base != base then q == p.(stopped := true)
      else
        && !q.stopped
        && q.vars.hard == (if ExportsKey(s, "failed_hard") then values.hard else p.vars.hard)
        && q.vars.soft == (if ExportsKey(s, "failed_soft") then values.soft else p.vars.soft)
        && q.vars.base == (if ExportsKey(s, "BASE") then values.base else p.vars.base)
  {
    ConstantExports(Calm(base, values), values, k, s.env, Cd(Cd(p.cwd, p.vars.base), Workdir(s)), p.ran, p.vars);
  }

  /** The first step that exports the failure flag with 1 raises it for good. */
  lemma {:induction false} CalmHard(base: string, start: Dir, steps: seq<Step>, k: nat)
    requires k <= |steps|
    ensures var p := At(Calm(base, Vars("1", "0", base)), start, base, steps, k);
      !p.stopped && p.vars.base == base && p.vars.hard == Flag(SomeExports(steps, k, "failed_hard"))
  {
    var values := Vars("1", "0", base);
    if k == 0 {
      AtEnds(Calm(base, values), start, base, steps);
    } else {
      var n := k - 1;
      CalmHard(base, start, steps, n);
      AtStep(Calm(base, values), start, base, steps, n);
      CalmStep(base, values, steps[n], n, At(Calm(base, values), start, base, steps, n));
      FlagReads(SomeExports(steps, n, "failed_hard"));
      SomeExportsNext(steps, n, "failed_hard");
    }
  }

  /** While the failure flag stays down, every step is run and the soft flag and BASE are what was last exported. */
  lemma {:induction false} CalmOthers(base: string, values: Vars, start: Dir, steps: seq<Step>, k: nat)
    requires k <= |steps| && values.hard == "0"
    ensures var p := At(Calm(base, values), start, base, steps, k);
      && p.vars.hard == "0"
      && (values.base == base ==>
            !p.stopped && p.vars.base == base
            && p.vars.soft == if SomeExports(steps, k, "failed_soft") then values.soft else "0")
      && (values.base != base ==>
            if k > 0 && SomeExports(steps, k - 1, "BASE") then p.stopped
            else !p.stopped && p.vars.base == if SomeExports(steps, k, "BASE") then values.base else base)
  {
    if k == 0 {
      AtEnds(Calm(base, values), start, base, steps);
    } else {
      var n := k - 1;
      CalmOthers(base, values, start, steps, n);
      AtStep(Calm(base, values), start, base, steps, n);
      CalmStep(base, values, steps[n], n, At(Calm(base, values), start, base, steps, n));
      FlagReads(false);
      SomeExportsNext(steps, n, "failed_soft");
      SomeExportsNext(steps, n, "BASE");
      if n > 0 {
        SomeExportsNext(steps, n - 1, "BASE");
      }
    }
  }

  /** If a step exports one of the script's variables, some world makes the script mean something else. */
  lemma TouchedMisleads(start: Dir, base: string, steps: seq<Step>) returns (w: World)
    requires !VarsUntouched(steps)
    ensures !ScriptMeans(w, start, base, steps)
  {
    var n := |steps|;
    var sh := Shell(Vars("", "", ""), false, 0, 0, start, []);
    if SomeExports(steps, n, "failed_hard") {
      w := Calm(base, Vars("1", "0", base));
      CalmSucceeds(base, Vars("1", "0", base), start, steps);
      CalmHard(base, start, steps, n);
      FlagReads(true);
    } else if SomeExports(steps, n, "failed_soft") {
      w := Calm(base, Vars("0", "1", base));
      CalmSucceeds(base, Vars("0", "1", base), start, steps);
      CalmOthers(base, Vars("0", "1", base), start, steps, n);
    } else {
      var moved := base + "x";
      w := Calm(base, Vars("0", "0", moved));
      var i :| 0 <= i < n - 1 && ExportsKey(steps[i], "BASE");
      assert SomeExports(steps, n - 1, "BASE");
      CalmSucceeds(base, Vars("0", "0", moved), start, steps);
      CalmOthers(base, Vars("0", "0", moved), start, steps, n);
    }
    AtEnds(w, start, base, steps);
    ScriptPerforms(w, start, base, steps, sh);
    assert NewShell(sh, start);
  }

  /**
   Whatever directories, commands and exported values do, the script means what the suite means, if and only if
   no step exports a flag of the script and none but the last exports BASE.
   */
  lemma ScriptMeansExactly(start: Dir, base: string, steps: seq<Step>)
    ensures (forall w :: ScriptMeans(w, start, base, steps)) <==> VarsUntouched(steps)
  {
    if VarsUntouched(steps) {
      forall w
        ensures ScriptMeans(w, start, base, steps)
      {
        UntouchedMeans(w, start, base, steps);
      }
    } else {
      var w := TouchedMisleads(start, base, steps);
    }
  }

  // ----- suites that go wrong with plain values

  /** A text in which the shell expands nothing. */
  predicate Literal(text: string) {
    forall i :: 0 <= i < |text| ==> text[i] != '$' && text[i] != '`' && text[i] != '\\'
  }

  /** Directories can be entered, and literal texts expand to themselves. */
  ghost predicate Friendly(w: World) {
    && (forall k, path, dir, ran :: w.entersBase(k, path, dir, ran))
    && (forall k, dir, ran :: w.entersStep(k, dir, ran))
    && (forall k, key, text, dir, ran :: Literal(text) ==> w.expand(k, key, text, dir, ran) == text)
  }

  lemma OneExport(w: World, k: nat, key: string, text: string, dir: Dir, ran: seq<Run>, vars: Vars)
    requires Friendly(w) && Literal(text)
    ensures ExportAll(w, k, [(key, text)], dir, ran, vars) == SetVar(vars, key, text)
  {
    assert [(key, text)][..0] == [];
  }

  lemma TwoSteps(w: World, start: Dir, base: string, a: Step, b: Step)
    ensures var p := Progress(Vars("0", "0", base), start, [], false);
      && Performed(w, start, base, [a]) == Perform(w, a, 0, p)
      && Performed(w, start, base, [a, b]) == Perform(w, b, 1, Perform(w, a, 0, p))
    ensures var m := Meaning(false, false, start, [], false);
      && Direct(w, start, base, [a]) == Do(w, base, a, 0, m)
      && Direct(w, start, base, [a, b]) == Do(w, base, b, 1, Do(w, base, a, 0, m))
  {
    LastStep(w, start, base, [], a);
    LastStep(w, start, base, [a], b);
    assert [] + [a] == [a] && [a] + [b] == [a, b];
  }

  lemma LastStep(w: World, start: Dir, base: string, init: seq<Step>, s: Step)
    ensures Performed(w, start, base, init + [s]) == Perform(w, s, |init|, Performed(w, start, base, init))
    ensures Direct(w, start, base, init + [s]) == Do(w, base, s, |init|, Direct(w, start, base, init))
  {
    assert (init + [s])[..|init|] == init;
  }

  /** A step that exports failed_hard with 1 makes a job fail in which nothing failed. */
  lemma ExportedFailure(w: World, start: Dir, base: string, s: Step, sh: Shell)
    requires Friendly(w) && (forall k, words, dir, ran :: w.exitCode(k, words, dir, ran) == 0)
    requires s.env == [("failed_hard", "1")] && NewShell(sh, start)
    ensures var o := Interpret(w, Script(base, [s]), sh);
      o.Exit? && o.code == 1 && ExitCode(Direct(w, start, base, [s])) == 0
  {
    ScriptPerforms(w, start, base, [s], sh);
    TwoSteps(w, start, base, s, s);
    FlagReads(false);
    FlagReads(true);
    OneExport(w, 0, "failed_hard", "1", Cd(Cd(start, base), Workdir(s)), [], Vars("0", "0", base));
  }

  /** A step that is always run and exports failed_hard with 0 hides the hard failure of the step before it. */
  lemma ExportedSuccess(w: World, start: Dir, base: string, a: Step, b: Step, sh: Shell)
    requires Friendly(w) && (forall words, dir, ran :: w.exitCode(0, words, dir, ran) != 0)
    requires forall words, dir, ran :: w.exitCode(1, words, dir, ran) == 0
    requires a.env == [] && !HasNoCommand(a) && !a.continueOnFail
    requires b.always && b.env == [("failed_hard", "0")] && NewShell(sh, start)
    ensures var o := Interpret(w, Script(base, [a, b]), sh);
      o.Exit? && o.code == 0 && ExitCode(Direct(w, start, base, [a, b])) == 1
  {
    ScriptPerforms(w, start, base, [a, b], sh);
    TwoSteps(w, start, base, a, b);
    FlagReads(false);
    var q := Performed(w, start, base, [a]);
    OneExport(w, 1, "failed_hard", "0", Cd(Cd(q.cwd, q.vars.base), Workdir(b)), q.ran, q.vars);
  }
}
