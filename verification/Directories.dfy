/** Directories as the shell's cd command moves between them: paths are followed by name, without links. */
module Directories {

  /** The names on the way from the root. */
  type Dir = seq<string>

  /** The parts of a path between its slashes. */
  function Names(path: string): (names: seq<string>)
    ensures names != []
  {
    if path == "" then [""]
    else
      var rest := Names(path[1..]);
      if path[0] == '/' then [""] + rest else [[path[0]] + rest[0]] + rest[1..]
  }

  predicate IsAbsolute(path: string) {
    path != "" && path[0] == '/'
  }

  /** One step of the way: an empty name or a dot stays, two dots go up, except from the root. */
  function Enter(dir: Dir, name: string): (d: Dir) {
    if name == "" || name == "." then dir
    else if name == ".." then Up(dir, 1)
    else dir + [name]
  }

  function Up(dir: Dir, n: nat): (d: Dir) {
    if n <= |dir| then dir[..|dir| - n] else []
  }

  function Follow(dir: Dir, names: seq<string>): (d: Dir) {
    if names == [] then dir else Enter(Follow(dir, names[..|names| - 1]), names[|names| - 1])
  }

  /** Where cd leads. */
  function Cd(dir: Dir, path: string): (d: Dir) {
    Follow(if IsAbsolute(path) then [] else dir, Names(path))
  }

  /** What a way amounts to: going up some levels, then down some names. */
  datatype Net = Net(ups: nat, downs: seq<string>)

  function NetOf(names: seq<string>): (w: Net) {
    if names == [] then Net(0, [])
    else
      var name := names[|names| - 1];
      var w := NetOf(names[..|names| - 1]);
      if name == "" || name == "." then w
      else if name != ".." then w.(downs := w.downs + [name])
      else if w.downs == [] then w.(ups := w.ups + 1)
      else w.(downs := w.downs[..|w.downs| - 1])
  }

  /** Following a way is going up and then down. */
  lemma {:induction false} FollowNet(dir: Dir, names: seq<string>)
    ensures Follow(dir, names) == Up(dir, NetOf(names).ups) + NetOf(names).downs
  {
    if names != [] {
      var n := |names| - 1;
      FollowNet(dir, names[..n]);
      var w := NetOf(names[..n]);
      if names[n] == ".." {
        if w.downs == [] {
          assert Up(dir, w.ups) + w.downs == Up(dir, w.ups);
        } else {
          assert Up(Up(dir, w.ups) + w.downs, 1) == Up(dir, w.ups) + w.downs[..|w.downs| - 1];
        }
      }
    }
  }

  /** A path leads to the same place from two directories exactly if it is absolute or goes up far enough. */
  lemma SamePlaceExactly(a: Dir, b: Dir, path: string)
    ensures Cd(a, path) == Cd(b, path) <==>
            IsAbsolute(path) || Up(a, NetOf(Names(path)).ups) == Up(b, NetOf(Names(path)).ups)
  {
    if !IsAbsolute(path) {
      var w := NetOf(Names(path));
      FollowNet(a, Names(path));
      FollowNet(b, Names(path));
      var x, y := Up(a, w.ups), Up(b, w.ups);
      if x + w.downs == y + w.downs {
        assert |x| == |y|;
        assert x == (x + w.downs)[..|x|] == (y + w.downs)[..|y|] == y;
      }
    }
  }

  lemma OneName(c: char)
    requires c != '/'
    ensures Names([c]) == [[c]]
  {
    assert [c][1..] == "";
    assert Names("") == [""];
    assert [c] + "" == [c];
  }

  /** The path that stays. */
  lemma DotStays(dir: Dir)
    ensures Cd(dir, ".") == dir
  {
    OneName('.');
    assert Names(".") == ["."] && ["."][..0] == [];
    assert Follow(dir, ["."]) == Enter(Follow(dir, []), ".");
  }

  /** An absolute path that goes down n times. */
  function Deep(n: nat): (path: string) {
    if n == 0 then "" else "/a" + Deep(n - 1)
  }

  lemma {:induction false} DeepNames(n: nat)
    ensures Names(Deep(n))[0] == "" && |Names(Deep(n))| == n + 1
    ensures forall i :: 0 < i <= n ==> Names(Deep(n))[i] == "a"
  {
    if n > 0 {
      var rest := Deep(n - 1);
      DeepNames(n - 1);
      assert Deep(n)[1..] == "a" + rest && ("a" + rest)[1..] == rest;
      assert Names("a" + rest) == [["a"[0]] + Names(rest)[0]] + Names(rest)[1..];
      assert Names(Deep(n)) == [""] + Names("a" + rest);
    }
  }

  lemma {:induction false} FollowDown(dir: Dir, names: seq<string>)
    requires names != [] && names[0] == "" && forall i :: 0 < i < |names| ==> names[i] == "a"
    ensures |Follow(dir, names)| == |dir| + |names| - 1
  {
    var n := |names| - 1;
    if n == 0 {
      assert names[..0] == [];
    } else {
      FollowDown(dir, names[..n]);
    }
  }

  /** From anywhere, such a path leads to the same place, n levels down. */
  lemma DeepPlace(dir: Dir, n: nat)
    requires n > 0
    ensures IsAbsolute(Deep(n)) && |Cd(dir, Deep(n))| == n && Cd(dir, Deep(n)) == Cd([], Deep(n))
  {
    DeepNames(n);
    FollowDown([], Names(Deep(n)));
  }
}
