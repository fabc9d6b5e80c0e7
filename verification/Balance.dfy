/**
 Greedy load balancing: items with real weights are assigned one after the other to one of m groups, each
 to a group that is least loaded at that moment. Bounds on the largest load against any other assignment.
 */
module Balance {

  function Total(w: seq<real>): (t: real) {
    if w == [] then 0.0 else Total(w[..|w| - 1]) + w[|w| - 1]
  }

  /** Load of group k when item i goes to group a[i]. */
  function Load(a: seq<nat>, w: seq<real>, k: nat): (l: real)
    requires |a| == |w|
  {
    if w == [] then 0.0
    else
      var n := |w| - 1;
      Load(a[..n], w[..n], k) + if a[n] == k then w[n] else 0.0
  }

  /** Sum of the loads of groups 0, ..., m - 1. */
  function SumLoads(a: seq<nat>, w: seq<real>, m: nat): (t: real)
    requires |a| == |w|
  {
    if m == 0 then 0.0 else SumLoads(a, w, m - 1) + Load(a, w, m - 1)
  }

  ghost predicate Assigns(a: seq<nat>, w: seq<real>, m: nat) {
    |a| == |w| && forall i :: 0 <= i < |a| ==> a[i] < m
  }

  ghost predicate NonNegative(w: seq<real>) {
    forall i :: 0 <= i < |w| ==> w[i] >= 0.0
  }

  ghost predicate Bounded(a: seq<nat>, w: seq<real>, m: nat, c: real)
    requires |a| == |w|
  {
    forall k: nat :: k < m ==> Load(a, w, k) <= c
  }

  /** Group j is least loaded. */
  ghost predicate Least(a: seq<nat>, w: seq<real>, m: nat, j: nat)
    requires |a| == |w|
  {
    j < m && AtLeast(a, w, m, Load(a, w, j))
  }

  /** Group j is the first of the least-loaded groups. */
  ghost predicate FirstLeast(a: seq<nat>, w: seq<real>, m: nat, j: nat)
    requires |a| == |w|
  {
    Least(a, w, m, j) && forall k: nat :: k < j ==> Load(a, w, j) < Load(a, w, k)
  }

  /** Every item was put into the first group that was least loaded when its turn came. */
  ghost predicate Greedy(a: seq<nat>, w: seq<real>, m: nat) {
    |a| == |w|
    && (w == [] || var n := |w| - 1; Greedy(a[..n], w[..n], m) && FirstLeast(a[..n], w[..n], m, a[n]))
  }

  ghost predicate Descending(w: seq<real>) {
    forall i, j :: 0 <= i < j < |w| ==> w[i] >= w[j]
  }

  // ----- loads and totals

  lemma {:induction false} GreedyAssigns(a: seq<nat>, w: seq<real>, m: nat)
    requires Greedy(a, w, m)
    ensures Assigns(a, w, m)
  {
    if w != [] {
      GreedyAssigns(a[..|w| - 1], w[..|w| - 1], m);
    }
  }

  /** There is only one greedy assignment. */
  lemma {:induction false} GreedyUnique(a: seq<nat>, b: seq<nat>, w: seq<real>, m: nat)
    requires Greedy(a, w, m) && Greedy(b, w, m)
    ensures a == b
  {
    if w != [] {
      var n := |w| - 1;
      GreedyUnique(a[..n], b[..n], w[..n], m);
      assert a == a[..n] + [a[n]] && b == b[..n] + [b[n]];
    }
  }

  lemma {:induction false} EmptyLoads(m: nat)
    ensures SumLoads([], [], m) == 0.0
  {
    if m > 0 {
      EmptyLoads(m - 1);
    }
  }

  lemma {:induction false} SumLoadsStep(a: seq<nat>, w: seq<real>, m: nat)
    requires |a| == |w| > 0
    ensures var n := |w| - 1;
      SumLoads(a, w, m) == SumLoads(a[..n], w[..n], m) + if a[n] < m then w[n] else 0.0
  {
    if m > 0 {
      SumLoadsStep(a, w, m - 1);
    }
  }

  /** The loads of all groups add up to the total weight, whatever the assignment. */
  lemma {:induction false} LoadsAddUp(a: seq<nat>, w: seq<real>, m: nat)
    requires Assigns(a, w, m)
    ensures SumLoads(a, w, m) == Total(w)
  {
    if w == [] {
      EmptyLoads(m);
    } else {
      SumLoadsStep(a, w, m);
      LoadsAddUp(a[..|w| - 1], w[..|w| - 1], m);
    }
  }

  ghost predicate AtLeast(a: seq<nat>, w: seq<real>, m: nat, c: real)
    requires |a| == |w|
  {
    forall k: nat :: k < m ==> c <= Load(a, w, k)
  }

  /** A lower bound of all loads is at most their average. */
  lemma {:induction false} AverageAtLeast(a: seq<nat>, w: seq<real>, m: nat, lo: real)
    requires |a| == |w| && AtLeast(a, w, m, lo)
    ensures m as real * lo <= SumLoads(a, w, m)
  {
    if m > 0 {
      AverageAtLeast(a, w, m - 1, lo);
      assert lo <= Load(a, w, m - 1);
    }
  }

  /** An upper bound of all loads is at least their average. */
  lemma {:induction false} AverageAtMost(a: seq<nat>, w: seq<real>, m: nat, hi: real)
    requires |a| == |w| && Bounded(a, w, m, hi)
    ensures SumLoads(a, w, m) <= m as real * hi
  {
    if m > 0 {
      AverageAtMost(a, w, m - 1, hi);
      assert Load(a, w, m - 1) <= hi;
    }
  }

  lemma Distribute(x: real, y: real, z: real)
    ensures (x + y) * z == x * z + y * z
  {}

  lemma {:induction false} LoadNonNegative(a: seq<nat>, w: seq<real>, k: nat)
    requires |a| == |w| && NonNegative(w)
    ensures Load(a, w, k) >= 0.0
  {
    if w != [] {
      LoadNonNegative(a[..|w| - 1], w[..|w| - 1], k);
    }
  }

  lemma PrefixBounded(a: seq<nat>, w: seq<real>, m: nat, c: real)
    requires |a| == |w| > 0 && NonNegative(w) && Bounded(a, w, m, c)
    ensures Bounded(a[..|w| - 1], w[..|w| - 1], m, c)
  {
    var a', w' := a[..|w| - 1], w[..|w| - 1];
    forall k: nat | k < m
      ensures Load(a', w', k) <= c
    {
      assert Load(a, w, k) <= c;
    }
  }

  /** In any assignment with loads at most c, no item weighs more than c and the total is at most m * c. */
  lemma AnyAssignment(b: seq<nat>, w: seq<real>, m: nat, c: real)
    requires Assigns(b, w, m) && NonNegative(w) && Bounded(b, w, m, c)
    ensures Total(w) <= m as real * c
    ensures w != [] ==> w[|w| - 1] <= c
  {
    AverageAtMost(b, w, m, c);
    LoadsAddUp(b, w, m);
    if w != [] {
      var n := |w| - 1;
      assert Load(b, w, b[n]) <= c;
      LoadNonNegative(b[..n], w[..n], b[n]);
    }
  }

  // ----- the general bound

  /** The least load is at most the average. */
  lemma LeastBelowAverage(a: seq<nat>, w: seq<real>, m: nat, least: real)
    requires Assigns(a, w, m) && AtLeast(a, w, m, least)
    ensures m as real * least <= Total(w)
  {
    AverageAtLeast(a, w, m, least);
    LoadsAddUp(a, w, m);
  }

  /** Adding an item to a least-loaded group keeps it within average + (1 - 1/m) * its weight, counted m times. */
  lemma LeastStep(a: seq<nat>, w: seq<real>, m: nat)
    requires w != [] && Greedy(a, w, m)
    ensures var n := |w| - 1; NearAverage(Load(a, w, a[n]), Total(w), m, w[n])
  {
    var n := |w| - 1;
    GreedyAssigns(a[..n], w[..n], m);
    LeastBelowAverage(a[..n], w[..n], m, Load(a[..n], w[..n], a[n]));
    assert Load(a, w, a[n]) == Load(a[..n], w[..n], a[n]) + w[n];
  }

  /** The load is at most average + (1 - 1/m) * heaviest; both sides are multiplied by m. */
  predicate NearAverage(load: real, total: real, m: nat, heaviest: real) {
    m as real * load <= total + (m - 1) as real * heaviest
  }

  /** No greedy load exceeds average + (1 - 1/m) * heaviest weight. */
  lemma {:induction false} GreedyBound(a: seq<nat>, w: seq<real>, m: nat, heaviest: real, k: nat)
    requires Greedy(a, w, m) && NonNegative(w) && heaviest >= 0.0 && k < m
    requires forall i :: 0 <= i < |w| ==> w[i] <= heaviest
    ensures NearAverage(Load(a, w, k), Total(w), m, heaviest)
  {
    if w != [] {
      var n := |w| - 1;
      if k == a[n] {
        LeastStep(a, w, m);
      } else {
        GreedyBound(a[..n], w[..n], m, heaviest, k);
      }
    } else {
      MultiplyMonotone((m - 1) as real, 0.0, heaviest);
    }
  }

  lemma MultiplyMonotone(x: real, y: real, z: real)
    requires x >= 0.0 && y <= z
    ensures x * y <= x * z
  {}

  /** Greedy loads differ by no more than the heaviest weight. */
  lemma {:induction false} GreedySpread(a: seq<nat>, w: seq<real>, m: nat, heaviest: real, j: nat, k: nat)
    requires Greedy(a, w, m) && NonNegative(w) && heaviest >= 0.0 && j < m && k < m
    requires forall i :: 0 <= i < |w| ==> w[i] <= heaviest
    ensures Load(a, w, j) - Load(a, w, k) <= heaviest
  {
    if w != [] {
      GreedySpread(a[..|w| - 1], w[..|w| - 1], m, heaviest, j, k);
    }
  }

  // ----- the bound for items taken heaviest first

  /** Items too heavy to share a group with another of weight at least p within c count twice. */
  function Units(w: seq<real>, p: real, c: real): (u: seq<real>)
  {
    seq(|w|, i requires 0 <= i < |w| => if w[i] > c - p then 2.0 else 1.0)
  }

  lemma UnitsPrefix(w: seq<real>, p: real, c: real)
    requires w != []
    ensures Units(w, p, c)[..|w| - 1] == Units(w[..|w| - 1], p, c)
  {}

  /** A group with fewer than two units holds nothing, or one item that leaves room for p. */
  lemma {:induction false} FewUnits(a: seq<nat>, w: seq<real>, k: nat, p: real, c: real)
    requires |a| == |w|
    ensures var l, u := Load(a, w, k), Load(a, Units(w, p, c), k);
      (u == 0.0 && l == 0.0) || (u == 1.0 && l <= c - p) || u >= 2.0
  {
    if w != [] {
      UnitsPrefix(w, p, c);
      FewUnits(a[..|w| - 1], w[..|w| - 1], k, p, c);
    }
  }

  /** When every item weighs more than c / 3, a group of load at most c holds at most two units. */
  lemma {:induction false} ManyUnits(b: seq<nat>, w: seq<real>, k: nat, p: real, c: real)
    requires |b| == |w| && 3.0 * p > c >= 0.0
    requires forall i :: 0 <= i < |w| ==> w[i] >= p
    ensures var l, u := Load(b, w, k), Load(b, Units(w, p, c), k);
      (u == 0.0 && l == 0.0) || (u == 1.0 && l >= p) || (u == 2.0 && l > c - p) || (u >= 3.0 && l > c)
  {
    if w != [] {
      UnitsPrefix(w, p, c);
      ManyUnits(b[..|w| - 1], w[..|w| - 1], k, p, c);
    }
  }

  /**
   If every item, including one more of weight p, weighs more than c / 3 and some assignment of all of them
   keeps within c, then whatever the present assignment a, some group has room for p.
   */
  lemma RoomForOneMore(a: seq<nat>, b: seq<nat>, w: seq<real>, m: nat, c: real, j: nat)
    requires w != [] && var n := |w| - 1; Assigns(a, w[..n], m) && Least(a, w[..n], m, j)
    requires Assigns(b, w, m) && Bounded(b, w, m, c) && NonNegative(w) && Descending(w)
    requires 3.0 * w[|w| - 1] > c >= 0.0
    ensures Load(a, w[..|w| - 1], j) + w[|w| - 1] <= c
  {
    var n := |w| - 1;
    var p := w[n];
    if Load(a, w[..n], j) + p > c {
      AnyAssignment(b, w, m, c);
      var u := Units(w[..n], p, c);
      forall k: nat | k < m
        ensures 2.0 <= Load(a, u, k)
      {
        FewUnits(a, w[..n], k, p, c);
      }
      AverageAtLeast(a, u, m, 2.0);
      LoadsAddUp(a, u, m);
      var v := Units(w, p, c);
      UnitsPrefix(w, p, c);
      assert Total(v) == Total(u) + v[n];
      forall k: nat | k < m
        ensures Load(b, v, k) <= 2.0
      {
        ManyUnits(b, w, k, p, c);
      }
      AverageAtMost(b, v, m, 2.0);
      LoadsAddUp(b, v, m);
      assert false;
    }
  }

  /** The load is at most (4/3 - 1/(3m)) times c; both sides are multiplied by 3m. */
  predicate FourThirds(load: real, m: nat, c: real) {
    3.0 * (m as real * load) <= (4 * m - 1) as real * c
  }

  lemma LightStep(m: nat, p: real, c: real, total: real, load: real)
    requires m >= 1 && 3.0 * p <= c && total <= m as real * c
    requires NearAverage(load, total, m, p)
    ensures FourThirds(load, m, c)
  {
    MultiplyMonotone((m - 1) as real, 3.0 * p, c);
    assert (m - 1) as real * (3.0 * p) == 3.0 * ((m - 1) as real * p);
    assert (4 * m - 1) as real == 3.0 * m as real + (m - 1) as real;
    Distribute(3.0 * m as real, (m - 1) as real, c);
  }

  lemma HeavyStep(m: nat, c: real, load: real)
    requires m >= 1 && load <= c && c >= 0.0
    ensures FourThirds(load, m, c)
  {
    MultiplyMonotone(m as real, load, c);
    assert (4 * m - 1) as real == 3.0 * m as real + (m - 1) as real;
    Distribute(3.0 * m as real, (m - 1) as real, c);
    MultiplyMonotone(c, 0.0, (m - 1) as real);
  }

  /**
   Heaviest first, no greedy load exceeds (4/3 - 1/(3m)) times the largest load of any other assignment.
   */
  lemma {:induction false} HeaviestFirstBound(a: seq<nat>, b: seq<nat>, w: seq<real>, m: nat, c: real, k: nat)
    requires Greedy(a, w, m) && Assigns(b, w, m) && Bounded(b, w, m, c)
    requires NonNegative(w) && Descending(w) && k < m && c >= 0.0
    ensures FourThirds(Load(a, w, k), m, c)
  {
    if w == [] {
      HeavyStep(m, c, 0.0);
    } else {
      var n := |w| - 1;
      PrefixBounded(b, w, m, c);
      HeaviestFirstBound(a[..n], b[..n], w[..n], m, c, k);
      if k == a[n] {
        GreedyAssigns(a[..n], w[..n], m);
        if 3.0 * w[n] <= c {
          LeastStep(a, w, m);
          AnyAssignment(b, w, m, c);
          LightStep(m, w[n], c, Total(w), Load(a, w, k));
        } else {
          RoomForOneMore(a[..n], b, w, m, c, k);
          HeavyStep(m, c, Load(a, w, k));
        }
      }
    }
  }
}
