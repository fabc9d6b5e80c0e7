/** In which directories the steps of a script are run, and exactly which suites run every step where they want it. */
module StepPlaces {
  import opened Directories
  import opened CommandScript
  import opened ScriptRuns
  import opened SuiteMeaning

  /** Where the suite wants a step to run. */
  function Intended(start: Dir, base: string, s: Step): (d: Dir) {
    Cd(Cd(start, base), Workdir(s))
  }

  /** The directory in which step k is run is the one the suite wants. */
  predicate InPlace(w: World, start: Dir, base: string, steps: seq<Step>, k: nat)
    requires k < |steps|
  {
    At(w, start, base, steps, k + 1).cwd == Intended(start, base, steps[k])
  }

  /** Every step that is run is run where the suite wants it. */
  ghost predicate AllInPlace(w: World, start: Dir, base: string, steps: seq<Step>) {
    forall k :: 0 <= k < |steps| && Entered(w, start, base, steps, k) ==> InPlace(w, start, base, steps, k)
  }

  // ----- what can be said of the suite alone

  /** From the place of step a, base and directory of step b lead to the place of step b. */
  predicate Rejoins(start: Dir, base: string, a: Step, b: Step) {
    Cd(Cd(Intended(start, base, a), base), Workdir(b)) == Intended(start, base, b)
  }

  /** The step may raise the failure flag: its command may fail hard, or it exports the flag. */
  predicate CanRaise(s: Step) {
    (!HasNoCommand(s) && !s.continueOnFail) || ExportsKey(s, "failed_hard")
  }

  /** Some run goes from step j right on to step k: the next step, or the next one that is always run. */
  ghost predicate CanFollow(steps: seq<Step>, j: nat, k: nat) {
    && j < k < |steps|
    && (k == j + 1
        || (&& steps[k].always
            && (forall i :: j < i < k ==> !steps[i].always)
            && (CanRaise(steps[j]) || (steps[j].always && exists i :: 0 <= i < j && CanRaise(steps[i])))))
  }

  /** Steps that may follow each other rejoin, and after an export of BASE only absolute directories are used. */
  ghost predicate SuitePlaced(start: Dir, base: string, steps: seq<Step>) {
    && (forall j: nat, k: nat :: CanFollow(steps, j, k) ==> Rejoins(start, base, steps[j], steps[k]))
    && (forall k :: 0 <= k < |steps| && SomeExports(steps, k, "BASE") ==> IsAbsolute(Workdir(steps[k])))
  }

  // ----- such suites run every step in its place

  /** Until some step exports BASE, it is what it was. */
  lemma {:induction false} BaseKept(w: World, start: Dir, base: string, steps: seq<Step>, k: nat)
    requires k <= |steps| && !SomeExports(steps, k, "BASE")
    ensures At(w, start, base, steps, k).vars.base == base
  {
    if k == 0 {
      AtEnds(w, start, base, steps);
    } else {
      var n := k - 1;
      SomeExportsNext(steps, n, "BASE");
      BaseKept(w, start, base, steps, n);
      AtStep(w, start, base, steps, n);
      var p := At(w, start, base, steps, n);
      ExportAllKeeps(w, n, steps[n].env, Cd(Cd(p.cwd, p.vars.base), Workdir(steps[n])), p.ran, p.vars);
    }
  }

  lemma RaiserFound(w: World, start: Dir, base: string, steps: seq<Step>, k: nat)
    requires k < |steps| && Raises(w, start, base, steps, k)
    ensures CanRaise(steps[k])
  {
    AtStep(w, start, base, steps, k);
    var before := At(w, start, base, steps, k);
    assert forall r :: before.ran + [r] != before.ran;
  }

  /** A raised flag stems from a step that may raise it. */
  lemma HardNeedsRaiser(w: World, start: Dir, base: string, steps: seq<Step>, k: nat)
    requires k <= |steps| && NonZero(At(w, start, base, steps, k).vars.hard)
    ensures exists i :: 0 <= i < k && CanRaise(steps[i])
  {
    HardMeansBlocked(w, start, base, steps, k);
    var j :| 0 <= j < k && Raises(w, start, base, steps, j);
    RaiserFound(w, start, base, steps, j);
  }

  /** Step k is run, and the last step run before it is step j. */
  ghost predicate EnteredNext(w: World, start: Dir, base: string, steps: seq<Step>, j: nat, k: nat) {
    && j < k < |steps| && Entered(w, start, base, steps, j) && Entered(w, start, base, steps, k)
    && forall i :: j < i < k ==> !Entered(w, start, base, steps, i)
  }

  /** q is what p leaves if no step is run: the same place, and if the script goes on, no change and the flag is up. */
  predicate Rests(p: Progress, q: Progress, moved: bool) {
    q.cwd == p.cwd && (!q.stopped ==> q == p && (moved ==> NonZero(p.vars.hard)))
  }

  /** A step that is not run leaves everything as it is, or the script has stopped. */
  lemma NotEntered(w: World, start: Dir, base: string, steps: seq<Step>, k: nat)
    requires k < |steps| && !Entered(w, start, base, steps, k)
    ensures Rests(At(w, start, base, steps, k), At(w, start, base, steps, k + 1), true)
    ensures At(w, start, base, steps, k).stopped ==> At(w, start, base, steps, k + 1).stopped
    ensures !At(w, start, base, steps, k + 1).stopped ==> !steps[k].always
  {
    AtStep(w, start, base, steps, k);
  }

  lemma RestsOn(p: Progress, q: Progress, r: Progress, moved: bool)
    requires Rests(p, q, moved) && Rests(q, r, true) && (q.stopped ==> r.stopped)
    ensures Rests(p, r, true)
  {}

  /** From m on no step is run: the shell stays where it is, and if the script goes on, the failure flag is up. */
  lemma {:induction false} Idle(w: World, start: Dir, base: string, steps: seq<Step>, m: nat, k: nat)
    requires m <= k <= |steps| && forall i :: m <= i < k ==> !Entered(w, start, base, steps, i)
    ensures Rests(At(w, start, base, steps, m), At(w, start, base, steps, k), m < k)
  {
    if m < k {
      var n := k - 1;
      Idle(w, start, base, steps, m, n);
      NotEntered(w, start, base, steps, n);
      RestsOn(At(w, start, base, steps, m), At(w, start, base, steps, n), At(w, start, base, steps, k), m < n);
    }
  }

  /** A step that is not run, like those after it, although the script goes on, is not marked always. */
  lemma {:induction false} IdleStep(w: World, start: Dir, base: string, steps: seq<Step>, i: nat, k: nat)
    requires i < k <= |steps| && forall n :: i <= n < k ==> !Entered(w, start, base, steps, n)
    requires !At(w, start, base, steps, k).stopped
    ensures !steps[i].always
  {
    NotEntered(w, start, base, steps, k - 1);
    if i < k - 1 {
      IdleStep(w, start, base, steps, i, k - 1);
    }
  }

  /** What follows in a run may follow by the looks of the suite. */
  lemma FollowersFound(w: World, start: Dir, base: string, steps: seq<Step>, j: nat, k: nat)
    requires EnteredNext(w, start, base, steps, j, k)
    ensures CanFollow(steps, j, k)
  {
    Idle(w, start, base, steps, j + 1, k);
    if k > j + 1 {
      forall i | j < i < k
        ensures !steps[i].always
      {
        IdleStep(w, start, base, steps, i, k);
      }
      HardAfter(w, start, base, steps, j);
      if Raises(w, start, base, steps, j) {
        RaiserFound(w, start, base, steps, j);
      } else {
        HardNeedsRaiser(w, start, base, steps, j);
      }
    }
  }

  /** The end of the last number below k that satisfies p, or 0. */
  lemma {:induction false} LastWith(p: nat -> bool, k: nat) returns (m: nat)
    ensures m <= k && (forall i: nat :: m <= i < k ==> !p(i)) && (m > 0 ==> p(m - 1))
  {
    m := k;
    if k > 0 && !p(k - 1) {
      m := LastWith(p, k - 1);
    }
  }

  /** The steps before k that are run end before m. */
  lemma LastEntered(w: World, start: Dir, base: string, steps: seq<Step>, k: nat) returns (m: nat)
    requires k <= |steps|
    ensures m <= k && forall i :: m <= i < k ==> !Entered(w, start, base, steps, i)
    ensures m > 0 ==> Entered(w, start, base, steps, m - 1)
  {
    var p := (i: nat) => i < |steps| && Entered(w, start, base, steps, i);
    m := LastWith(p, k);
    forall i | m <= i < k
      ensures !Entered(w, start, base, steps, i)
    {
      assert !p(i);
    }
  }

  /** Where an entered step is run. */
  lemma EnteredPlace(w: World, start: Dir, base: string, steps: seq<Step>, k: nat)
    requires k < |steps| && Entered(w, start, base, steps, k)
    ensures var p := At(w, start, base, steps, k);
      At(w, start, base, steps, k + 1).cwd == Cd(Cd(p.cwd, p.vars.base), Workdir(steps[k]))
  {
    AtStep(w, start, base, steps, k);
  }

  /** Step k starts from where the script starts or from where the step run before it was left. */
  lemma EnteredFrom(w: World, start: Dir, base: string, steps: seq<Step>, k: nat) returns (m: nat)
    requires k < |steps| && Entered(w, start, base, steps, k) && !SomeExports(steps, k, "BASE")
    ensures m <= k
    ensures At(w, start, base, steps, k + 1).cwd == Cd(Cd(At(w, start, base, steps, m).cwd, base), Workdir(steps[k]))
    ensures if m == 0 then At(w, start, base, steps, m).cwd == start
            else Entered(w, start, base, steps, m - 1) && CanFollow(steps, m - 1, k)
  {
    EnteredPlace(w, start, base, steps, k);
    BaseKept(w, start, base, steps, k);
    m := LastEntered(w, start, base, steps, k);
    Idle(w, start, base, steps, m, k);
    if m == 0 {
      AtEnds(w, start, base, steps);
    } else {
      FollowersFound(w, start, base, steps, m - 1, k);
    }
  }

  lemma AbsolutePlace(w: World, start: Dir, base: string, steps: seq<Step>, k: nat)
    requires k < |steps| && Entered(w, start, base, steps, k) && IsAbsolute(Workdir(steps[k]))
    ensures InPlace(w, start, base, steps, k)
  {
    EnteredPlace(w, start, base, steps, k);
    var p := At(w, start, base, steps, k);
    SamePlaceExactly(Cd(p.cwd, p.vars.base), Cd(start, base), Workdir(steps[k]));
  }

  lemma {:induction false} PlacedInPlace(w: World, start: Dir, base: string, steps: seq<Step>, k: nat)
    requires k < |steps| && Entered(w, start, base, steps, k) && SuitePlaced(start, base, steps)
    ensures InPlace(w, start, base, steps, k)
  {
    if IsAbsolute(Workdir(steps[k])) {
      AbsolutePlace(w, start, base, steps, k);
    } else {
      var m := EnteredFrom(w, start, base, steps, k);
      if m > 0 {
        PlacedInPlace(w, start, base, steps, m - 1);
        assert Rejoins(start, base, steps[m - 1], steps[k]);
      }
    }
  }

  // ----- other suites go wrong in some world

  /** Only step f fails, exports raise the failure flag from step f on, and BASE is exported with a fixed value. */
  function Failing(f: nat, moved: string): (w: World) {
    World((k, path, dir, ran) => true,
          (k, dir, ran) => true,
          (k, key, text, dir, ran) => ValueOf(Vars(Flag(k >= f), "0", moved), key),
          (k, words, dir, ran) => if k == f then 1 else 0)
  }

  lemma FailingStep(f: nat, moved: string, s: Step, k: nat, p: Progress)
    requires !p.stopped && p.vars.hard == Flag(k > f) && (k == f ==> CanRaise(s))
    ensures var q := Perform(Failing(f, moved), s, k, p);
      && !q.stopped && q.vars.hard == Flag(k + 1 > f)
      && (q.vars.base == p.vars.base || q.vars.base == moved)
      && (k <= f ==> q.vars.base == if ExportsKey(s, "BASE") then moved else p.vars.base)
  {
    FlagReads(k > f);
    ConstantExports(Failing(f, moved), Vars(Flag(k >= f), "0", moved), k, s.env,
                    Cd(Cd(p.cwd, p.vars.base), Workdir(s)), p.ran, p.vars);
  }

  /** In such a world every step up to f is run, and then those that are always run if step f may raise the flag. */
  lemma {:induction false} FailingAt(f: nat, moved: string, start: Dir, base: string, steps: seq<Step>, k: nat)
    requires k <= |steps| && (f < |steps| ==> CanRaise(steps[f]))
    ensures var p := At(Failing(f, moved), start, base, steps, k);
      && !p.stopped && p.vars.hard == Flag(k > f)
      && (moved == base ==> p.vars.base == base)
      && (k <= f + 1 ==> p.vars.base == if SomeExports(steps, k, "BASE") then moved else base)
  {
    if k == 0 {
      AtEnds(Failing(f, moved), start, base, steps);
    } else {
      var n := k - 1;
      FailingAt(f, moved, start, base, steps, n);
      AtStep(Failing(f, moved), start, base, steps, n);
      SomeExportsNext(steps, n, "BASE");
      FailingStep(f, moved, steps[n], n, At(Failing(f, moved), start, base, steps, n));
    }
  }

  lemma FailingEnters(f: nat, moved: string, start: Dir, base: string, steps: seq<Step>, k: nat)
    requires k < |steps| && (f < |steps| ==> CanRaise(steps[f]))
    ensures Entered(Failing(f, moved), start, base, steps, k) <==> k <= f || steps[k].always
  {
    FailingAt(f, moved, start, base, steps, k);
    FailingAt(f, moved, start, base, steps, k + 1);
    FlagReads(k > f);
  }

  /** Steps that may follow each other do so in some world. */
  lemma FollowingWorld(start: Dir, base: string, steps: seq<Step>, j: nat, k: nat) returns (w: World)
    requires CanFollow(steps, j, k)
    ensures EnteredNext(w, start, base, steps, j, k)
    ensures forall i :: 0 <= i < |steps| ==> At(w, start, base, steps, i).vars.base == base
  {
    var f := |steps|;
    if k > j + 1 {
      if CanRaise(steps[j]) {
        f := j;
      } else {
        f :| 0 <= f < j && CanRaise(steps[f]);
      }
    }
    w := Failing(f, base);
    forall i | 0 <= i < |steps|
      ensures Entered(w, start, base, steps, i) <==> i <= f || steps[i].always
      ensures At(w, start, base, steps, i).vars.base == base
    {
      FailingEnters(f, base, start, base, steps, i);
      FailingAt(f, base, start, base, steps, i);
    }
  }

  /** If two steps that may follow each other do not rejoin, one of them is out of place in some world. */
  lemma NotRejoined(start: Dir, base: string, steps: seq<Step>, j: nat, k: nat) returns (w: World)
    requires CanFollow(steps, j, k) && !Rejoins(start, base, steps[j], steps[k])
    ensures !AllInPlace(w, start, base, steps)
  {
    w := FollowingWorld(start, base, steps, j, k);
    Idle(w, start, base, steps, j + 1, k);
    EnteredPlace(w, start, base, steps, k);
    assert InPlace(w, start, base, steps, j) ==> !InPlace(w, start, base, steps, k);
  }

  /** After an export of BASE a step with a relative directory is out of place in some world. */
  lemma BaseMoved(start: Dir, base: string, steps: seq<Step>, k: nat) returns (w: World)
    requires k < |steps| && SomeExports(steps, k, "BASE") && !IsAbsolute(Workdir(steps[k]))
    ensures !AllInPlace(w, start, base, steps)
  {
    var wanted := Intended(start, base, steps[k]);
    var net := NetOf(Names(Workdir(steps[k])));
    var depth := |wanted| + net.ups + 1;
    var f := |steps|;
    w := Failing(f, Deep(depth));
    FailingAt(f, Deep(depth), start, base, steps, k);
    FailingEnters(f, Deep(depth), start, base, steps, k);
    EnteredPlace(w, start, base, steps, k);
    var from := Cd(At(w, start, base, steps, k).cwd, Deep(depth));
    DeepPlace(At(w, start, base, steps, k).cwd, depth);
    FollowNet(from, Names(Workdir(steps[k])));
    assert |Cd(from, Workdir(steps[k]))| > |wanted|;
  }

  /**
   Whatever directories, commands and exported values do, every step that is run is run in base/workdir, if and
   only if steps that may follow each other rejoin and no relative directory is used after an export of BASE.
   */
  lemma AllInPlaceExactly(start: Dir, base: string, steps: seq<Step>)
    ensures (forall w :: AllInPlace(w, start, base, steps)) <==> SuitePlaced(start, base, steps)
  {
    if SuitePlaced(start, base, steps) {
      forall w
        ensures AllInPlace(w, start, base, steps)
      {
        forall k | 0 <= k < |steps| && Entered(w, start, base, steps, k)
          ensures InPlace(w, start, base, steps, k)
        {
          PlacedInPlace(w, start, base, steps, k);
        }
      }
    } else if j: nat, k: nat :| CanFollow(steps, j, k) && !Rejoins(start, base, steps[j], steps[k]) {
      var w := NotRejoined(start, base, steps, j, k);
    } else {
      var k :| 0 <= k < |steps| && SomeExports(steps, k, "BASE") && !IsAbsolute(Workdir(steps[k]));
      var w := BaseMoved(start, base, steps, k);
    }
  }

  // ----- the two kinds of base

  /** With an absolute base, as in a container, only exports of BASE can move steps that have relative directories. */
  lemma AbsoluteBaseInPlace(start: Dir, base: string, steps: seq<Step>)
    requires IsAbsolute(base)
    ensures (forall w :: AllInPlace(w, start, base, steps)) <==>
            forall k :: 0 <= k < |steps| && SomeExports(steps, k, "BASE") ==> IsAbsolute(Workdir(steps[k]))
  {
    AllInPlaceExactly(start, base, steps);
    forall j: nat, k: nat | CanFollow(steps, j, k)
      ensures Rejoins(start, base, steps[j], steps[k])
    {
      SamePlaceExactly(Intended(start, base, steps[j]), start, base);
    }
  }

  /**
   With the base ".", as on the local machine, step b rejoins step a exactly if b's directory is absolute or goes
   up so far that it leaves what a's directory added to the starting point.
   */
  lemma LocalRejoinsExactly(start: Dir, a: Step, b: Step)
    ensures var ups := NetOf(Names(Workdir(b))).ups;
      Rejoins(start, ".", a, b) <==>
      IsAbsolute(Workdir(b)) || Up(Cd(start, Workdir(a)), ups) == Up(start, ups)
  {
    DotStays(start);
    DotStays(Intended(start, ".", a));
    SamePlaceExactly(Intended(start, ".", a), start, Workdir(b));
  }

  /** With directories that never go up, a step rejoins exactly those steps whose directory amounts to ".". */
  lemma LocalStepsNest(start: Dir, a: Step, b: Step)
    requires !IsAbsolute(Workdir(a)) && !IsAbsolute(Workdir(b))
    requires NetOf(Names(Workdir(a))).ups == 0 && NetOf(Names(Workdir(b))).ups == 0
    ensures Rejoins(start, ".", a, b) <==> NetOf(Names(Workdir(a))).downs == []
  {
    LocalRejoinsExactly(start, a, b);
    FollowNet(start, Names(Workdir(a)));
    assert Up(start, 0) == start;
  }

  // ----- steps out of place with plain values

  lemma NameLeadsDown(dir: Dir, c: char)
    requires c != '/' && c != '.'
    ensures Cd(dir, [c]) == dir + [[c]]
  {
    OneName(c);
    assert [[c]][..0] == [];
    assert Follow(dir, [[c]]) == Enter(Follow(dir, []), [c]);
  }

  /** On the local machine, the second of two successful steps in directory "d" is run in "d/d". */
  lemma SecondStepNested(w: World, start: Dir, a: Step, b: Step)
    requires Friendly(w) && (forall k, words, dir, ran :: w.exitCode(k, words, dir, ran) == 0)
    requires Workdir(a) == Workdir(b) == "d" && a.env == b.env == []
    ensures Entered(w, start, ".", [a, b], 1) && Performed(w, start, ".", [a, b]).cwd == start + ["d", "d"]
    ensures Intended(start, ".", b) == start + ["d"]
  {
    TwoSteps(w, start, ".", a, b);
    FlagReads(false);
    DotStays(start);
    DotStays(start + ["d"]);
    NameLeadsDown(start, 'd');
    NameLeadsDown(start + ["d"], 'd');
    assert (start + ["d"]) + ["d"] == start + ["d", "d"];
    assert [a, b][..1] == [a] && [a, b][..2] == [a, b];
  }

  lemma RootedName(dir: Dir, c: char)
    requires c != '/' && c != '.'
    ensures Cd(dir, ['/', c]) == [[c]]
  {
    OneName(c);
    assert ['/', c][1..] == [c];
    assert Names(['/', c]) == ["", [c]];
    assert ["", [c]][..1] == [""] && [""][..0] == [];
    assert Follow([], [""]) == Enter(Follow([], []), "");
    assert Follow([], ["", [c]]) == Enter(Follow([], [""]), [c]);
  }

  /** Even with an absolute base, a step after an export of BASE with "/x" is run below "/x". */
  lemma ExportedBaseMoves(w: World, start: Dir, base: string, a: Step, b: Step)
    requires Friendly(w) && (forall k, words, dir, ran :: w.exitCode(k, words, dir, ran) == 0)
    requires a.env == [("BASE", "/x")] && b.env == [] && Workdir(b) == "."
    ensures Entered(w, start, base, [a, b], 1) && Performed(w, start, base, [a, b]).cwd == ["x"]
    ensures Intended(start, base, b) == Cd(start, base)
  {
    TwoSteps(w, start, base, a, b);
    FlagReads(false);
    OneExport(w, 0, "BASE", "/x", Cd(Cd(start, base), Workdir(a)), [], Vars("0", "0", base));
    RootedName(Performed(w, start, base, [a]).cwd, 'x');
    DotStays(["x"]);
    DotStays(Cd(start, base));
    assert [a, b][..1] == [a] && [a, b][..2] == [a, b];
  }
}
