/** Facts about sequences that several components share: flattening, distinctness, permutations. */
module Sequences {
  import opened Wrappers

  function Flatten<T>(groups: seq<seq<T>>): (r: seq<T>) {
    if groups == [] then [] else groups[0] + Flatten(groups[1..])
  }

  lemma {:induction false} FlattenAppend<T>(a: seq<seq<T>>, b: seq<seq<T>>)
    ensures Flatten(a + b) == Flatten(a) + Flatten(b)
  {
    if a == [] {
      assert a + b == b;
    } else {
      assert (a + b)[1..] == a[1..] + b;
      FlattenAppend(a[1..], b);
    }
  }

  lemma FlattenCons<T>(x: seq<T>, a: seq<seq<T>>)
    ensures Flatten([x] + a) == x + Flatten(a)
  {
    FlattenAppend([x], a);
    FlattenSnoc([], x);
    assert [] + [x] == [x];
  }

  lemma FlattenSnoc<T>(a: seq<seq<T>>, x: seq<T>)
    ensures Flatten(a + [x]) == Flatten(a) + x
  {
    FlattenAppend(a, [x]);
    assert Flatten([x]) == x + Flatten([x][1..]) == x;
  }

  /** r holds what f makes of those elements of s, at the given rising positions, of which it makes something. */
  ghost predicate Selected<T, U>(s: seq<T>, f: T -> Option<U>, r: seq<U>, at: seq<nat>) {
    && |at| == |r|
    && (forall i, j :: 0 <= i < j < |at| ==> at[i] < at[j])
    && (forall j :: 0 <= j < |at| ==> at[j] < |s| && f(s[at[j]]) == Some(r[j]))
    && (forall i :: 0 <= i < |s| && f(s[i]).Some? ==> i in at)
  }

  lemma SelectedSnoc<T, U>(s: seq<T>, f: T -> Option<U>, r: seq<U>, at: seq<nat>) returns (longer: seq<nat>)
    requires s != [] && Selected(s[..|s| - 1], f, r, at)
    ensures var last := f(s[|s| - 1]);
      Selected(s, f, r + if last.Some? then [last.value] else [], longer)
  {
    var n := |s| - 1;
    longer := at + if f(s[n]).Some? then [n] else [];
    forall i | 0 <= i < |s| && f(s[i]).Some?
      ensures i in longer
    {
      if i < n {
        assert s[..n][i] == s[i];
        assert i in at;
      }
    }
  }

  /** Appending one element to one group adds that element to the flattened multiset. */
  lemma {:induction false} FlattenGrow<T>(groups: seq<seq<T>>, k: nat, x: T)
    requires k < |groups|
    ensures multiset(Flatten(groups[k := groups[k] + [x]])) == multiset(Flatten(groups)) + multiset{x}
  {
    var grown := groups[k := groups[k] + [x]];
    if k == 0 {
      assert grown[1..] == groups[1..];
    } else {
      assert grown[1..] == groups[1..][k - 1 := groups[1..][k - 1] + [x]];
      FlattenGrow(groups[1..], k - 1, x);
    }
  }

  lemma {:induction false} FlattenEmpties<T>(groups: seq<seq<T>>)
    requires forall k :: 0 <= k < |groups| ==> groups[k] == []
    ensures Flatten(groups) == []
  {
    if groups != [] {
      FlattenEmpties(groups[1..]);
    }
  }

  lemma {:induction false} FlattenMember<T>(groups: seq<seq<T>>, x: T)
    ensures x in Flatten(groups) <==> exists k :: 0 <= k < |groups| && x in groups[k]
  {
    if groups != [] {
      FlattenMember(groups[1..], x);
      if k :| 0 <= k < |groups| && x in groups[k] {
        if k > 0 {
          assert x in groups[1..][k - 1];
        }
      }
      if k :| 0 <= k < |groups[1..]| && x in groups[1..][k] {
        assert x in groups[k + 1];
      }
    }
  }

  /** The sequence repeated n times, one copy after the other. */
  function Repeat<T>(s: seq<T>, n: nat): (r: seq<T>) {
    if n == 0 then [] else Repeat(s, n - 1) + s
  }

  predicate Distinct<T(==)>(s: seq<T>) {
    forall i, j :: 0 <= i < j < |s| ==> s[i] != s[j]
  }

  lemma {:induction false} DistinctCounts<T>(s: seq<T>, x: T)
    requires Distinct(s)
    ensures multiset(s)[x] == (if x in s then 1 else 0)
  {
    if s != [] {
      var last := |s| - 1;
      assert s == s[..last] + [s[last]];
      DistinctCounts(s[..last], x);
      if x == s[last] {
        assert x !in s[..last];
      }
    }
  }

  /** Distinct sequences with the same elements are permutations of each other. */
  lemma DistinctPermutation<T>(a: seq<T>, b: seq<T>)
    requires Distinct(a) && Distinct(b)
    requires forall x :: x in a <==> x in b
    ensures multiset(a) == multiset(b)
  {
    forall x | x in a || x in b
      ensures multiset(a)[x] == multiset(b)[x]
    {
      DistinctCounts(a, x);
      DistinctCounts(b, x);
    }
    assert forall x :: x !in a ==> multiset(a)[x] == 0;
    assert forall x :: x !in b ==> multiset(b)[x] == 0;
  }

  /** Collecting f over p + [x] + q collects f(x) and what p + q collects. */
  lemma FlattenExtract<K, T>(p: seq<K>, x: K, q: seq<K>, f: K -> seq<T>)
    ensures multiset(Flatten(Mapped(p + [x] + q, f))) == multiset(f(x)) + multiset(Flatten(Mapped(p + q, f)))
  {
    MappedSplit(p + [x], q, f);
    MappedSplit(p, [x], f);
    MappedSplit(p, q, f);
    assert Mapped([x], f) == [f(x)];
    FlattenSnoc([], f(x));
    assert [] + [f(x)] == [f(x)];
  }

  lemma TakeOutOne<T>(s: seq<T>, x: T) returns (p: seq<T>, q: seq<T>)
    requires x in multiset(s)
    ensures s == p + [x] + q && multiset(p + q) == multiset(s) - multiset{x}
  {
    var i :| 0 <= i < |s| && s[i] == x;
    p, q := s[..i], s[i + 1..];
    assert s == p + [x] + q;
    assert multiset(s) == multiset(p) + multiset{x} + multiset(q);
  }

  lemma HeadApart<K, T>(s: seq<K>, f: K -> seq<T>)
    requires s != []
    ensures multiset(Flatten(Mapped(s, f))) == multiset(f(s[0])) + multiset(Flatten(Mapped(s[1..], f)))
    ensures multiset(s[1..]) == multiset(s) - multiset{s[0]}
  {
    assert s == [] + [s[0]] + s[1..] && [] + s[1..] == s[1..];
    FlattenExtract([], s[0], s[1..], f);
  }

  /** Collecting f over a permutation collects the same multiset. */
  lemma {:induction false} FlattenPermuted<K, T>(a: seq<K>, b: seq<K>, f: K -> seq<T>)
    requires multiset(a) == multiset(b)
    ensures multiset(Flatten(Mapped(a, f))) == multiset(Flatten(Mapped(b, f)))
  {
    if a == [] {
      assert |b| == |multiset(b)| == |multiset(a)| == 0;
    } else {
      var x := a[0];
      assert x in multiset(a);
      var p, q := TakeOutOne(b, x);
      HeadApart(a, f);
      FlattenPermuted(a[1..], p + q, f);
      FlattenExtract(p, x, q, f);
    }
  }

  function Mapped<K, T>(s: seq<K>, f: K -> seq<T>): (r: seq<seq<T>>) {
    seq(|s|, i requires 0 <= i < |s| => f(s[i]))
  }

  lemma MappedSplit<K, T>(a: seq<K>, b: seq<K>, f: K -> seq<T>)
    ensures Flatten(Mapped(a + b, f)) == Flatten(Mapped(a, f)) + Flatten(Mapped(b, f))
  {
    assert Mapped(a + b, f) == Mapped(a, f) + Mapped(b, f);
    FlattenAppend(Mapped(a, f), Mapped(b, f));
  }
}
