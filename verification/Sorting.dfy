/** A stable sort by a strict weak order, as the library sort with a key behaves. */
module Sorting {

  ghost predicate StrictWeak<T(!new)>(less: (T, T) -> bool) {
    && (forall x :: !less(x, x))
    && (forall x, y, z :: less(x, y) && less(y, z) ==> less(x, z))
    && (forall x, y, z :: less(x, z) ==> less(x, y) || less(y, z))
  }

  ghost predicate Sorted<T>(s: seq<T>, less: (T, T) -> bool) {
    forall i, j :: 0 <= i < j < |s| ==> !less(s[j], s[i])
  }

  /** Distinct elements of s are ordered one way or the other. */
  ghost predicate Separated<T>(s: seq<T>, less: (T, T) -> bool) {
    forall x, y :: x in s && y in s && x != y ==> less(x, y) || less(y, x)
  }

  function Insert<T>(x: T, s: seq<T>, less: (T, T) -> bool): (r: seq<T>) {
    if s != [] && less(s[0], x) then [s[0]] + Insert(x, s[1..], less) else [x] + s
  }

  function Sort<T>(s: seq<T>, less: (T, T) -> bool): (r: seq<T>) {
    if s == [] then [] else Insert(s[0], Sort(s[1..], less), less)
  }

  lemma {:induction false} InsertPermutes<T>(x: T, s: seq<T>, less: (T, T) -> bool)
    ensures multiset(Insert(x, s, less)) == multiset(s) + multiset{x}
  {
    if s != [] && less(s[0], x) {
      InsertPermutes(x, s[1..], less);
      assert s == [s[0]] + s[1..];
    }
  }

  lemma {:induction false} InsertSorted<T(!new)>(x: T, s: seq<T>, less: (T, T) -> bool)
    requires StrictWeak(less) && Sorted(s, less)
    ensures Sorted(Insert(x, s, less), less)
  {
    var r := Insert(x, s, less);
    if s != [] && less(s[0], x) {
      InsertSorted(x, s[1..], less);
      InsertPermutes(x, s[1..], less);
      forall j | 0 < j < |r|
        ensures !less(r[j], r[0])
      {
        assert r[j] in multiset(Insert(x, s[1..], less));
        if r[j] != x {
          assert r[j] in s[1..];
        }
      }
    } else {
      forall j | 0 < j < |r|
        ensures !less(r[j], r[0])
      {
        assert r[j] == s[j - 1];
      }
    }
  }

  /** Sorting permutes its argument and puts it in order. */
  lemma {:induction false} SortCorrect<T(!new)>(s: seq<T>, less: (T, T) -> bool)
    requires StrictWeak(less)
    ensures multiset(Sort(s, less)) == multiset(s)
    ensures Sorted(Sort(s, less), less)
  {
    if s != [] {
      SortCorrect(s[1..], less);
      InsertSorted(s[0], Sort(s[1..], less), less);
      InsertPermutes(s[0], Sort(s[1..], less), less);
      assert s == [s[0]] + s[1..];
    }
  }

  lemma HeadAndTail<T>(s: seq<T>)
    requires s != []
    ensures s == [s[0]] + s[1..] && multiset(s[1..]) == multiset(s) - multiset{s[0]}
  {}

  lemma SameHead<T(!new)>(a: seq<T>, b: seq<T>, less: (T, T) -> bool)
    requires a != [] && b != [] && a[0] in b && b[0] in a
    requires Sorted(a, less) && Sorted(b, less) && Separated(a, less)
    ensures a[0] == b[0]
  {}

  lemma TailInOrder<T(!new)>(s: seq<T>, less: (T, T) -> bool)
    requires s != [] && Sorted(s, less)
    ensures Sorted(s[1..], less) && (Separated(s, less) ==> Separated(s[1..], less))
  {}

  /** There is only one way to order a multiset whose distinct elements are separated. */
  lemma {:induction false} SortedUnique<T(!new)>(a: seq<T>, b: seq<T>, less: (T, T) -> bool)
    requires StrictWeak(less)
    requires Sorted(a, less) && Sorted(b, less) && multiset(a) == multiset(b)
    requires Separated(a, less)
    ensures a == b
  {
    assert |a| == |multiset(a)| == |multiset(b)| == |b|;
    if a != [] {
      assert a[0] in multiset(b) && b[0] in multiset(a);
      SameHead(a, b, less);
      HeadAndTail(a);
      HeadAndTail(b);
      TailInOrder(a, less);
      TailInOrder(b, less);
      SortedUnique(a[1..], b[1..], less);
    }
  }

  /** The sorted form depends only on the multiset of elements, not on their order. */
  lemma SortCanonical<T(!new)>(a: seq<T>, b: seq<T>, less: (T, T) -> bool)
    requires StrictWeak(less) && multiset(a) == multiset(b) && Separated(a, less)
    ensures Sort(a, less) == Sort(b, less)
  {
    SortCorrect(a, less);
    SortCorrect(b, less);
    forall x | x in Sort(a, less)
      ensures x in a
    {
      assert x in multiset(a);
    }
    SortedUnique(Sort(a, less), Sort(b, less), less);
  }
}
