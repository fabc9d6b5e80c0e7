/** Splitting collected items into groups: round robin, balanced by weight, or as a manifest lists them. */
module Splitting {
  import opened Sequences
  import opened Sorting
  import opened Text
  import opened Jobs
  import opened Balance

  datatype SplitError =
    | ManifestNotLoaded
    | DuplicateItems
    | DuplicateInGroup(index: nat, key: string)
    | UnknownItem(key: string)
    | NotCovered

  function GroupCount(count: int): (n: nat)
  {
    if count < 1 then 1 else count
  }

  // ----- by count

  lemma NextPosition(i: nat, n: nat)
    requires n >= 1
    ensures (i + 1) % n == (if i % n == n - 1 then 0 else i % n + 1)
    ensures (i + 1) / n == (if i % n == n - 1 then i / n + 1 else i / n)
  {
    var q, r := i / n, i % n;
    assert i == q * n + r;
    if r == n - 1 {
      assert i + 1 == (q + 1) * n;
      QuotientUnique(i + 1, n, q + 1, 0);
    } else {
      QuotientUnique(i + 1, n, q, r + 1);
    }
  }

  lemma QuotientUnique(i: nat, n: nat, q: nat, r: nat)
    requires n >= 1 && i == q * n + r && r < n
    ensures i / n == q && i % n == r
  {
    var d := i / n - q;
    assert i == (i / n) * n + i % n;
    assert d * n == r - i % n;
    assert d == 0;
  }

  /** The first idx items, dealt round robin. */
  ghost predicate Dealt(items: seq<TestItem>, groups: seq<seq<TestItem>>, idx: nat) {
    && groups != [] && idx <= |items|
    && (forall k :: 0 <= k < |groups| ==> |groups[k]| == idx / |groups| + if k < idx % |groups| then 1 else 0)
    && (forall i :: 0 <= i < idx ==> DealtAt(items, groups, i))
  }

  /** Item i lies at position i / n of group i % n. */
  ghost predicate DealtAt(items: seq<TestItem>, groups: seq<seq<TestItem>>, i: nat)
    requires groups != [] && i < |items|
  {
    i / |groups| < |groups[i % |groups|]| && groups[i % |groups|][i / |groups|] == items[i]
  }

  lemma DealOne(items: seq<TestItem>, groups: seq<seq<TestItem>>, idx: nat)
    requires Dealt(items, groups, idx) && idx < |items|
    ensures var k := idx % |groups|;
      Dealt(items, groups[k := groups[k] + [items[idx]]], idx + 1)
  {
    var n := |groups|;
    var k := idx % n;
    var next := groups[k := groups[k] + [items[idx]]];
    NextPosition(idx, n);
    forall i | 0 <= i < idx + 1
      ensures DealtAt(items, next, i)
    {
      if i < idx {
        assert DealtAt(items, groups, i);
      }
    }
  }

  /** Item i lands at position i / n of group i % n, so group sizes differ by at most one. */
  method CountSplit(items: seq<TestItem>, count: int) returns (groups: seq<seq<TestItem>>)
    ensures |groups| == GroupCount(count)
    ensures Dealt(items, groups, |items|)
    ensures multiset(Flatten(groups)) == multiset(items)
  {
    var n := GroupCount(count);
    groups := seq(n, _ => []);
    FlattenEmpties(groups);
    var idx := 0;
    while idx < |items|
      invariant 0 <= idx <= |items| && |groups| == n
      invariant Dealt(items, groups, idx)
      invariant multiset(Flatten(groups)) == multiset(items[..idx])
    {
      var k := idx % n;
      GrowWithNext(groups, items, idx, k);
      DealOne(items, groups, idx);
      groups := groups[k := groups[k] + [items[idx]]];
      idx := idx + 1;
    }
    assert items[..idx] == items;
  }

  /** The sizes of the groups give away how many items there were: the last one the quotient, the others the rest. */
  lemma DealtLength(items: seq<TestItem>, others: seq<TestItem>, groups: seq<seq<TestItem>>)
    requires Dealt(items, groups, |items|) && Dealt(others, groups, |others|)
    ensures |items| == |others|
  {
    var n := |groups|;
    var q, r, s := |items| / n, |items| % n, |others| % n;
    assert |groups[n - 1]| == q && |groups[n - 1]| == |others| / n;
    var k := if r < s then r else s;
    assert |groups[k]| == q + if k < r then 1 else 0;
    assert |groups[k]| == q + if k < s then 1 else 0;
    assert |items| == q * n + r && |others| == q * n + s;
  }

  /** Round-robin groups determine the items they were dealt from. */
  lemma DealtRecovers(items: seq<TestItem>, others: seq<TestItem>, groups: seq<seq<TestItem>>)
    requires Dealt(items, groups, |items|) && Dealt(others, groups, |others|)
    ensures items == others
  {
    DealtLength(items, others, groups);
    forall i | 0 <= i < |items|
      ensures items[i] == others[i]
    {
      assert DealtAt(items, groups, i) && DealtAt(others, groups, i);
    }
  }

  // ----- by weight

  type Weights = map<string, real>

  function WeightOf(weights: Weights, item: TestItem): (w: real) {
    if item.id in weights then weights[item.id] else 1.0
  }

  function WeightsOf(weights: Weights, items: seq<TestItem>): (w: seq<real>)
  {
    seq(|items|, i requires 0 <= i < |items| => WeightOf(weights, items[i]))
  }

  function GroupLoad(weights: Weights, group: seq<TestItem>): (l: real) {
    Total(WeightsOf(weights, group))
  }

  /** The load of a group is the sum of the given weights, where an item without one counts 1. */
  lemma GroupLoadAdds(weights: Weights, group: seq<TestItem>, item: TestItem)
    ensures GroupLoad(weights, []) == 0.0
    ensures item.id in weights ==> GroupLoad(weights, group + [item]) == GroupLoad(weights, group) + weights[item.id]
    ensures item.id !in weights ==> GroupLoad(weights, group + [item]) == GroupLoad(weights, group) + 1.0
  {
    GroupLoadSnoc(weights, group, item);
  }

  /** Heavier items first, ties by id. */
  function HeavierFirst(weights: Weights): (less: (TestItem, TestItem) -> bool) {
    (x: TestItem, y: TestItem) =>
      WeightOf(weights, x) > WeightOf(weights, y)
      || (WeightOf(weights, x) == WeightOf(weights, y) && StrLess(x.id, y.id))
  }

  lemma HeavierFirstWeak(weights: Weights)
    ensures StrictWeak(HeavierFirst(weights))
    ensures forall x, y :: x != y ==> HeavierFirst(weights)(x, y) || HeavierFirst(weights)(y, x)
  {
    StrLessWeak();
    var less := HeavierFirst(weights);
    forall x, y: TestItem | x != y
      ensures less(x, y) || less(y, x)
    {
      assert x.id != y.id;
    }
  }

  function HeaviestFirst(weights: Weights, items: seq<TestItem>): (s: seq<TestItem>) {
    Sort(items, HeavierFirst(weights))
  }

  /** The weight a dictionary gives an id. */
  predicate Weighs(weights: Weights, item: TestItem, w: real) {
    if item.id in weights then w == weights[item.id] else w == 1.0
  }

  lemma HeavierOrSame(weights: Weights, x: TestItem, y: TestItem)
    requires !HeavierFirst(weights)(y, x)
    ensures x == y || HeavierFirst(weights)(x, y)
  {
    HeavierFirstWeak(weights);
  }

  /** Items are dealt out by falling weight, equally heavy ones by rising id, and none is lost. */
  lemma HeaviestFirstOrder(weights: Weights, items: seq<TestItem>, i: nat, j: nat, v: real, w: real)
    requires i < j < |HeaviestFirst(weights, items)|
    requires Weighs(weights, HeaviestFirst(weights, items)[i], v)
    requires Weighs(weights, HeaviestFirst(weights, items)[j], w)
    ensures var s := HeaviestFirst(weights, items);
      v > w || (v == w && (s[i] == s[j] || exists k: nat :: SmallerAt(s[i].id, s[j].id, k)))
    ensures multiset(HeaviestFirst(weights, items)) == multiset(items)
  {
    var s := HeaviestFirst(weights, items);
    HeavierFirstWeak(weights);
    SortCorrect(items, HeavierFirst(weights));
    StrLessExactly(s[i].id, s[j].id);
    HeavierOrSame(weights, s[i], s[j]);
  }

  /** The items that assignment a sends to group k, in order. */
  function Picked(items: seq<TestItem>, a: seq<nat>, k: nat): (group: seq<TestItem>)
    requires |a| == |items|
  {
    if items == [] then []
    else
      var n := |items| - 1;
      Picked(items[..n], a[..n], k) + if a[n] == k then [items[n]] else []
  }

  /** The groups of some greedy assignment of the items, heaviest first. */
  ghost predicate GreedyGroups(weights: Weights, items: seq<TestItem>, a: seq<nat>, groups: seq<seq<TestItem>>) {
    var s := HeaviestFirst(weights, items);
    && Greedy(a, WeightsOf(weights, s), |groups|) && |a| == |s|
    && forall k :: 0 <= k < |groups| ==> groups[k] == Picked(s, a, k)
  }

  lemma {:induction false} PickedLoad(weights: Weights, items: seq<TestItem>, a: seq<nat>, k: nat)
    requires |a| == |items|
    ensures GroupLoad(weights, Picked(items, a, k)) == Load(a, WeightsOf(weights, items), k)
  {
    if items != [] {
      var n := |items| - 1;
      PickedLoad(weights, items[..n], a[..n], k);
      assert WeightsOf(weights, items)[..n] == WeightsOf(weights, items[..n]);
      GroupLoadSnoc(weights, Picked(items[..n], a[..n], k), items[n]);
      assert Picked(items[..n], a[..n], k) + [] == Picked(items[..n], a[..n], k);
    }
  }

  lemma GroupLoadSnoc(weights: Weights, group: seq<TestItem>, item: TestItem)
    ensures GroupLoad(weights, group + [item]) == GroupLoad(weights, group) + WeightOf(weights, item)
  {
    var w := WeightsOf(weights, group + [item]);
    assert w[..|group|] == WeightsOf(weights, group);
  }

  /** First index of a least element. */
  method ArgMin(loads: seq<real>) returns (idx: nat)
    requires loads != []
    ensures idx < |loads|
    ensures forall k :: 0 <= k < |loads| ==> loads[idx] <= loads[k]
    ensures forall k :: 0 <= k < idx ==> loads[idx] < loads[k]
  {
    idx := 0;
    for i := 1 to |loads|
      invariant idx < i
      invariant forall k :: 0 <= k < i ==> loads[idx] <= loads[k]
      invariant forall k :: 0 <= k < idx ==> loads[idx] < loads[k]
    {
      if loads[i] < loads[idx] {
        idx := i;
      }
    }
  }

  /** The state of the weighted split after i of the sorted items s. */
  ghost predicate Placed(weights: Weights, s: seq<TestItem>, i: nat, a: seq<nat>,
                         groups: seq<seq<TestItem>>, loads: seq<real>) {
    && i == |a| <= |s| && |groups| == |loads|
    && var w := WeightsOf(weights, s[..i]);
    && Greedy(a, w, |groups|)
    && (forall k: nat :: k < |groups| ==> loads[k] == Load(a, w, k))
    && (forall k: nat :: k < |groups| ==> groups[k] == Picked(s[..i], a, k))
  }

  lemma PlaceOne(weights: Weights, s: seq<TestItem>, i: nat, a: seq<nat>,
                 groups: seq<seq<TestItem>>, loads: seq<real>, idx: nat)
    requires Placed(weights, s, i, a, groups, loads) && i < |s| && idx < |groups|
    requires forall k :: 0 <= k < |loads| ==> loads[idx] <= loads[k]
    requires forall k :: 0 <= k < idx ==> loads[idx] < loads[k]
    ensures Placed(weights, s, i + 1, a + [idx], groups[idx := groups[idx] + [s[i]]],
                   loads[idx := loads[idx] + WeightOf(weights, s[i])])
  {
    var m := |groups|;
    var w := WeightsOf(weights, s[..i + 1]);
    assert s[..i + 1] == s[..i] + [s[i]];
    assert w[..i] == WeightsOf(weights, s[..i]);
    forall k: nat | k < m
      ensures Load(a + [idx], w, k) == loads[k] + if idx == k then w[i] else 0.0
      ensures Picked(s[..i + 1], a + [idx], k) == groups[k] + if idx == k then [s[i]] else []
    {
    }
  }

  /** Items, heaviest first, each go to the first least-loaded group; the item multiset is kept. */
  method WeightedCountSplit(items: seq<TestItem>, count: int, weights: Weights)
    returns (groups: seq<seq<TestItem>>, ghost a: seq<nat>)
    ensures |groups| == GroupCount(count)
    ensures GreedyGroups(weights, items, a, groups)
    ensures multiset(Flatten(groups)) == multiset(items)
  {
    var m := GroupCount(count);
    groups := seq(m, _ => []);
    var loads := seq(m, _ => 0.0);
    FlattenEmpties(groups);
    var s := HeaviestFirst(weights, items);
    a := [];
    var i := 0;
    while i < |s|
      invariant 0 <= i <= |s| && |groups| == m
      invariant Placed(weights, s, i, a, groups, loads)
      invariant multiset(Flatten(groups)) == multiset(s[..i])
    {
      var idx := ArgMin(loads);
      PlaceOne(weights, s, i, a, groups, loads, idx);
      GrowWithNext(groups, s, i, idx);
      groups := groups[idx := groups[idx] + [s[i]]];
      loads := loads[idx := loads[idx] + WeightOf(weights, s[i])];
      a := a + [idx];
      i := i + 1;
    }
    assert s[..i] == s;
    SortedItems(weights, items);
    AllPlaced(weights, items, a, groups, loads);
  }

  lemma GrowWithNext(groups: seq<seq<TestItem>>, s: seq<TestItem>, i: nat, k: nat)
    requires i < |s| && k < |groups| && multiset(Flatten(groups)) == multiset(s[..i])
    ensures multiset(Flatten(groups[k := groups[k] + [s[i]]])) == multiset(s[..i + 1])
  {
    FlattenGrow(groups, k, s[i]);
    assert s[..i + 1] == s[..i] + [s[i]];
  }

  lemma AllPlaced(weights: Weights, items: seq<TestItem>, a: seq<nat>, groups: seq<seq<TestItem>>, loads: seq<real>)
    requires var s := HeaviestFirst(weights, items); Placed(weights, s, |s|, a, groups, loads)
    ensures GreedyGroups(weights, items, a, groups)
  {
    var s := HeaviestFirst(weights, items);
    assert s[..|s|] == s;
  }

  lemma SortedItems(weights: Weights, items: seq<TestItem>)
    ensures multiset(HeaviestFirst(weights, items)) == multiset(items)
  {
    HeavierFirstWeak(weights);
    SortCorrect(items, HeavierFirst(weights));
  }

  // ----- how good the balance is

  lemma SortedDescends(weights: Weights, items: seq<TestItem>)
    requires forall x :: x in items ==> WeightOf(weights, x) >= 0.0
    ensures Descending(WeightsOf(weights, HeaviestFirst(weights, items)))
    ensures NonNegative(WeightsOf(weights, HeaviestFirst(weights, items)))
  {
    HeavierFirstWeak(weights);
    SortCorrect(items, HeavierFirst(weights));
    var s := HeaviestFirst(weights, items);
    forall i | 0 <= i < |s|
      ensures WeightOf(weights, s[i]) >= 0.0
    {
      assert s[i] in multiset(items);
    }
  }

  /** Replacing one group changes the flattened multiset by exactly that group's contents. */
  lemma {:induction false} FlattenReplace(groups: seq<seq<TestItem>>, k: nat, g: seq<TestItem>)
    requires k < |groups|
    ensures multiset(Flatten(groups[k := g])) + multiset(groups[k]) == multiset(Flatten(groups)) + multiset(g)
  {
    if k == 0 {
      assert groups[k := g][1..] == groups[1..];
    } else {
      assert groups[k := g][1..] == groups[1..][k - 1 := g];
      FlattenReplace(groups[1..], k - 1, g);
      assert groups[1..][k - 1] == groups[k];
      var head := multiset(groups[0]);
      var was, now := multiset(Flatten(groups[1..])), multiset(Flatten(groups[1..][k - 1 := g]));
      assert multiset(Flatten(groups)) == head + was && multiset(Flatten(groups[k := g])) == head + now;
      assert (head + now) + multiset(groups[k]) == head + (now + multiset(groups[k]));
    }
  }

  lemma {:induction false} GroupLoadRemove(weights: Weights, group: seq<TestItem>, p: nat)
    requires p < |group|
    ensures GroupLoad(weights, group) == GroupLoad(weights, group[..p] + group[p + 1..]) + WeightOf(weights, group[p])
  {
    var n := |group| - 1;
    assert group == group[..n] + [group[n]];
    GroupLoadSnoc(weights, group[..n], group[n]);
    if p == n {
      assert group[..p] + group[p + 1..] == group[..n];
    } else {
      GroupLoadRemove(weights, group[..n], p);
      var rest := group[..n][..p] + group[..n][p + 1..];
      assert group[..p] + group[p + 1..] == rest + [group[n]];
      GroupLoadSnoc(weights, rest, group[n]);
    }
  }

  /** Taking x out of the group that holds it leaves a grouping of the other items. */
  lemma TakeOut(groups: seq<seq<TestItem>>, items: seq<TestItem>, x: TestItem) returns (k: nat, p: nat)
    requires multiset(Flatten(groups)) == multiset(items) + multiset{x}
    ensures k < |groups| && p < |groups[k]| && groups[k][p] == x
    ensures multiset(Flatten(groups[k := groups[k][..p] + groups[k][p + 1..]])) == multiset(items)
  {
    assert x in multiset(Flatten(groups));
    FlattenMember(groups, x);
    k :| k < |groups| && x in groups[k];
    p :| p < |groups[k]| && groups[k][p] == x;
    var g := groups[k][..p] + groups[k][p + 1..];
    assert groups[k] == groups[k][..p] + [x] + groups[k][p + 1..];
    assert multiset(groups[k]) == multiset(g) + multiset{x};
    FlattenReplace(groups, k, g);
    Cancel(multiset(Flatten(groups[k := g])), multiset(items), multiset(groups[k]));
  }

  lemma Cancel<T>(a: multiset<T>, b: multiset<T>, c: multiset<T>)
    requires a + c == b + c
    ensures a == b
  {
    assert a == (a + c) - c;
  }

  lemma NoItemsNoGroups(groups: seq<seq<TestItem>>, k: nat)
    requires multiset(Flatten(groups)) == multiset{} && k < |groups|
    ensures groups[k] == []
  {
    assert |Flatten(groups)| == |multiset(Flatten(groups))|;
    if groups[k] != [] {
      FlattenMember(groups, groups[k][0]);
    }
  }

  /** Any grouping of the items is an assignment of them, in whatever order they are listed. */
  lemma {:induction false} GroupingAssigns(weights: Weights, s: seq<TestItem>, groups: seq<seq<TestItem>>)
    returns (b: seq<nat>)
    requires multiset(Flatten(groups)) == multiset(s)
    ensures Assigns(b, WeightsOf(weights, s), |groups|)
    ensures forall k: nat :: k < |groups| ==> Load(b, WeightsOf(weights, s), k) == GroupLoad(weights, groups[k])
    decreases |s|
  {
    var w := WeightsOf(weights, s);
    if s == [] {
      b := [];
      forall k: nat | k < |groups|
        ensures groups[k] == []
      {
        NoItemsNoGroups(groups, k);
      }
    } else {
      var n := |s| - 1;
      assert s == s[..n] + [s[n]];
      var k, p := TakeOut(groups, s[..n], s[n]);
      var rest := groups[k := groups[k][..p] + groups[k][p + 1..]];
      var b' := GroupingAssigns(weights, s[..n], rest);
      GroupLoadRemove(weights, groups[k], p);
      b := b' + [k];
      assert w[..n] == WeightsOf(weights, s[..n]);
      forall j: nat | j < |groups|
        ensures Load(b, w, j) == GroupLoad(weights, groups[j])
      {
        assert Load(b', w[..n], j) == GroupLoad(weights, rest[j]);
      }
    }
  }

  /** The loads of a grouping, as the loads of an assignment of the items listed in s. */
  lemma OtherAssignment(weights: Weights, s: seq<TestItem>, other: seq<seq<TestItem>>, c: real)
    returns (b: seq<nat>)
    requires other != [] && multiset(Flatten(other)) == multiset(s) && NonNegative(WeightsOf(weights, s))
    requires forall j :: 0 <= j < |other| ==> GroupLoad(weights, other[j]) <= c
    ensures Assigns(b, WeightsOf(weights, s), |other|) && Bounded(b, WeightsOf(weights, s), |other|, c) && c >= 0.0
  {
    b := GroupingAssigns(weights, s, other);
    LoadNonNegative(b, WeightsOf(weights, s), 0);
    assert GroupLoad(weights, other[0]) <= c;
  }

  lemma LoadBound(weights: Weights, s: seq<TestItem>, a: seq<nat>, other: seq<seq<TestItem>>, c: real, k: nat)
    requires |a| == |s| && Greedy(a, WeightsOf(weights, s), |other|) && k < |other|
    requires NonNegative(WeightsOf(weights, s)) && Descending(WeightsOf(weights, s))
    requires multiset(Flatten(other)) == multiset(s)
    requires forall j :: 0 <= j < |other| ==> GroupLoad(weights, other[j]) <= c
    ensures FourThirds(Load(a, WeightsOf(weights, s), k), |other|, c)
  {
    var b := OtherAssignment(weights, s, other, c);
    HeaviestFirstBound(a, b, WeightsOf(weights, s), |other|, c, k);
  }

  /**
   Near-optimality: no group of the weighted split is loaded more than (4/3 - 1/(3m)) times c, where c
   bounds the loads of any other division of the same items into m groups.
   */
  lemma WeightedSplitNearOptimal(weights: Weights, items: seq<TestItem>, a: seq<nat>, groups: seq<seq<TestItem>>,
                                 other: seq<seq<TestItem>>, c: real, k: nat)
    requires GreedyGroups(weights, items, a, groups) && k < |groups|
    requires forall x :: x in items ==> WeightOf(weights, x) >= 0.0
    requires |other| == |groups| && multiset(Flatten(other)) == multiset(items)
    requires forall j :: 0 <= j < |other| ==> GroupLoad(weights, other[j]) <= c
    ensures FourThirds(GroupLoad(weights, groups[k]), |groups|, c)
  {
    SortedDescends(weights, items);
    SortedItems(weights, items);
    LoadBound(weights, HeaviestFirst(weights, items), a, other, c, k);
    PickedLoad(weights, HeaviestFirst(weights, items), a, k);
  }

  /** No group exceeds the average load by more than (1 - 1/m) times the heaviest weight; multiplied by m. */
  lemma WeightedSplitNearAverage(weights: Weights, items: seq<TestItem>, a: seq<nat>, groups: seq<seq<TestItem>>,
                                 heaviest: real, k: nat)
    requires GreedyGroups(weights, items, a, groups) && k < |groups|
    requires heaviest >= 0.0 && forall x :: x in items ==> 0.0 <= WeightOf(weights, x) <= heaviest
    ensures NearAverage(GroupLoad(weights, groups[k]), GroupLoad(weights, HeaviestFirst(weights, items)),
                        |groups|, heaviest)
  {
    SortedDescends(weights, items);
    SortedWithin(weights, items, heaviest);
    var s := HeaviestFirst(weights, items);
    LoadNearAverage(weights, s, a, |groups|, heaviest, k);
    PickedLoad(weights, s, a, k);
  }

  lemma LoadNearAverage(weights: Weights, s: seq<TestItem>, a: seq<nat>, m: nat, heaviest: real, k: nat)
    requires |a| == |s| && Greedy(a, WeightsOf(weights, s), m) && k < m && heaviest >= 0.0
    requires forall i :: 0 <= i < |s| ==> 0.0 <= WeightsOf(weights, s)[i] <= heaviest
    ensures NearAverage(Load(a, WeightsOf(weights, s), k), GroupLoad(weights, s), m, heaviest)
  {
    GreedyBound(a, WeightsOf(weights, s), m, heaviest, k);
  }

  lemma SortedWithin(weights: Weights, items: seq<TestItem>, heaviest: real)
    requires forall x :: x in items ==> WeightOf(weights, x) <= heaviest
    ensures var w := WeightsOf(weights, HeaviestFirst(weights, items)); forall i :: 0 <= i < |w| ==> w[i] <= heaviest
  {
    HeavierFirstWeak(weights);
    SortCorrect(items, HeavierFirst(weights));
    var s := HeaviestFirst(weights, items);
    forall i | 0 <= i < |s|
      ensures WeightOf(weights, s[i]) <= heaviest
    {
      assert s[i] in multiset(items);
    }
  }

  /** The loads of two groups differ by no more than the heaviest weight. */
  lemma WeightedSplitSpread(weights: Weights, items: seq<TestItem>, a: seq<nat>, groups: seq<seq<TestItem>>,
                            heaviest: real, j: nat, k: nat)
    requires GreedyGroups(weights, items, a, groups) && j < |groups| && k < |groups|
    requires heaviest >= 0.0 && forall x :: x in items ==> 0.0 <= WeightOf(weights, x) <= heaviest
    ensures GroupLoad(weights, groups[j]) - GroupLoad(weights, groups[k]) <= heaviest
  {
    var s := HeaviestFirst(weights, items);
    SortedDescends(weights, items);
    SortedWithin(weights, items, heaviest);
    GreedySpread(a, WeightsOf(weights, s), |groups|, heaviest, j, k);
    PickedLoad(weights, s, a, j);
    PickedLoad(weights, s, a, k);
  }

  /** The order in which the items were collected does not matter. */
  lemma WeightedSplitOrderFree(weights: Weights, items: seq<TestItem>, a: seq<nat>, groups: seq<seq<TestItem>>,
                               shuffled: seq<TestItem>, b: seq<nat>, others: seq<seq<TestItem>>)
    requires multiset(items) == multiset(shuffled) && |groups| == |others|
    requires GreedyGroups(weights, items, a, groups) && GreedyGroups(weights, shuffled, b, others)
    ensures groups == others
  {
    HeavierFirstWeak(weights);
    SortCanonical(items, shuffled, HeavierFirst(weights));
    GreedyUnique(a, b, WeightsOf(weights, HeaviestFirst(weights, items)), |groups|);
  }
}
