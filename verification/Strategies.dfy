/** Splitting by a manifest that lists item ids group by group, and the choice between the split strategies. */
module Strategies {
  import opened Wrappers
  import opened Sequences
  import opened Text
  import opened Jobs
  import opened Splitting

  // ----- by manifest

  /** The ids of one manifest group: trimmed, blank entries dropped. */
  function Keys(ids: seq<string>): (r: seq<string>) {
    if ids == [] then []
    else
      var n := |ids| - 1;
      Keys(ids[..n]) + if Trim(ids[n]) == "" then [] else [Trim(ids[n])]
  }

  function KeyOf(id: string): (key: Option<string>) {
    if Trim(id) == "" then None else Some(Trim(id))
  }

  /** The keys of a group are its entries without outer blanks and without blank ones, in the order of the entries. */
  lemma {:induction false} KeysExactly(ids: seq<string>) returns (at: seq<nat>)
    ensures Selected(ids, KeyOf, Keys(ids), at)
  {
    at := [];
    if ids != [] {
      at := KeysExactly(ids[..|ids| - 1]);
      at := SelectedSnoc(ids, KeyOf, Keys(ids[..|ids| - 1]), at);
      assert Keys(ids[..|ids| - 1]) + [] == Keys(ids[..|ids| - 1]);
    }
  }

  function ItemsOf(keys: seq<string>): (r: seq<TestItem>)
    ensures |r| == |keys| && forall i :: 0 <= i < |keys| ==> r[i] == TestItem(keys[i])
  {
    seq(|keys|, i requires 0 <= i < |keys| => TestItem(keys[i]))
  }

  /** The groups a manifest describes, without the empty ones. */
  function ManifestGroups(manifest: seq<seq<string>>): (groups: seq<seq<TestItem>>) {
    if manifest == [] then []
    else
      var n := |manifest| - 1;
      ManifestGroups(manifest[..n]) + if Keys(manifest[n]) == [] then [] else [ItemsOf(Keys(manifest[n]))]
  }

  /** The items of a manifest group, if it lists any. */
  function GroupOf(ids: seq<string>): (group: Option<seq<TestItem>>) {
    if Keys(ids) == [] then None else Some(ItemsOf(Keys(ids)))
  }

  /** One group of items for each group of the manifest that lists any, in the order of the manifest. */
  lemma {:induction false} ManifestGroupsExactly(manifest: seq<seq<string>>) returns (at: seq<nat>)
    ensures Selected(manifest, GroupOf, ManifestGroups(manifest), at)
  {
    at := [];
    if manifest != [] {
      var init := manifest[..|manifest| - 1];
      at := ManifestGroupsExactly(init);
      at := SelectedSnoc(manifest, GroupOf, ManifestGroups(init), at);
      assert ManifestGroups(init) + [] == ManifestGroups(init);
    }
  }

  /** The ids a manifest lists anywhere. */
  function KeySet(manifest: seq<seq<string>>): (keys: set<string>) {
    if manifest == [] then {}
    else
      var n := |manifest| - 1;
      KeySet(manifest[..n]) + set key | key in Keys(manifest[n])
  }

  lemma {:induction false} KeySetMember(manifest: seq<seq<string>>, key: string)
    ensures key in KeySet(manifest) <==> exists g :: 0 <= g < |manifest| && key in Keys(manifest[g])
  {
    if manifest != [] {
      var n := |manifest| - 1;
      var init := manifest[..n];
      KeySetMember(init, key);
      if g :| 0 <= g < |manifest| && key in Keys(manifest[g]) {
        assert g < n ==> init[g] == manifest[g];
      }
      if g :| 0 <= g < |init| && key in Keys(init[g]) {
        assert manifest[g] == init[g];
      }
    }
  }

  ghost predicate GroupOk(items: seq<TestItem>, ids: seq<string>) {
    Distinct(Keys(ids)) && forall key :: key in Keys(ids) ==> TestItem(key) in items
  }

  ghost predicate Covers(manifest: seq<seq<string>>, items: seq<TestItem>) {
    forall item :: item in items ==> item.id in KeySet(manifest)
  }

  /** Unique items, known and unrepeated references in every group, and every item covered. */
  ghost predicate ManifestFits(items: seq<TestItem>, manifest: seq<seq<string>>) {
    && Distinct(items)
    && GroupsOk(items, manifest)
    && Covers(manifest, items)
  }

  method IndexItems(items: seq<TestItem>) returns (byId: map<string, TestItem>, duplicates: bool)
    ensures forall id :: id in byId <==> TestItem(id) in items
    ensures forall id :: id in byId ==> byId[id] == TestItem(id)
    ensures duplicates <==> !Distinct(items)
  {
    byId, duplicates := map[], false;
    for i := 0 to |items|
      invariant forall id :: id in byId <==> TestItem(id) in items[..i]
      invariant forall id :: id in byId ==> byId[id] == TestItem(id)
      invariant duplicates <==> !Distinct(items[..i])
    {
      var item := items[i];
      assert items[..i + 1] == items[..i] + [item];
      assert item == TestItem(item.id);
      DistinctSnoc(items[..i], item);
      if item.id in byId {
        duplicates := true;
      }
      byId := byId[item.id := item];
    }
    assert items[..|items|] == items;
  }

  /** Entry i of a group is the first that is out of order, and the error says so: a repeated or an unknown id. */
  ghost predicate FaultAt(items: seq<TestItem>, ids: seq<string>, i: nat, index: nat, e: SplitError) {
    && i < |ids| && GroupOk(items, ids[..i])
    && var key := Trim(ids[i]);
    && key != ""
    && if key in Keys(ids[..i]) then e == DuplicateInGroup(index, key)
       else TestItem(key) !in items && e == UnknownItem(key)
  }

  ghost predicate GroupFault(items: seq<TestItem>, ids: seq<string>, index: nat, e: SplitError) {
    exists i: nat :: FaultAt(items, ids, i, index, e)
  }

  /** Group g is the first that is out of order, and the error is that of its first bad entry; groups count from 1. */
  ghost predicate FaultInGroup(items: seq<TestItem>, manifest: seq<seq<string>>, g: nat, e: SplitError) {
    g < |manifest| && GroupsOk(items, manifest[..g]) && GroupFault(items, manifest[g], g + 1, e)
  }

  /** The first thing that is wrong: item ids, then the groups in order, then the coverage. */
  ghost predicate Rejected(items: seq<TestItem>, manifest: seq<seq<string>>, e: SplitError) {
    if !Distinct(items) then e == DuplicateItems
    else if GroupsOk(items, manifest) then !Covers(manifest, items) && e == NotCovered
    else exists g: nat :: FaultInGroup(items, manifest, g, e)
  }

  ghost predicate GroupsOk(items: seq<TestItem>, manifest: seq<seq<string>>) {
    forall g :: 0 <= g < |manifest| ==> GroupOk(items, manifest[g])
  }

  /** Resolves one manifest group; stops at the first repeated or unknown id. */
  method ResolveGroup(items: seq<TestItem>, byId: map<string, TestItem>, ids: seq<string>, index: nat)
    returns (r: Result<seq<TestItem>, SplitError>, seen: set<string>)
    requires forall id :: id in byId <==> TestItem(id) in items
    requires forall id :: id in byId ==> byId[id] == TestItem(id)
    ensures r.Ok? <==> GroupOk(items, ids)
    ensures r.Ok? ==> r.value == ItemsOf(Keys(ids)) && seen == set key | key in Keys(ids)
    ensures r.Err? ==> GroupFault(items, ids, index, r.error)
  {
    var group: seq<TestItem> := [];
    seen := {};
    for i := 0 to |ids|
      invariant group == ItemsOf(Keys(ids[..i]))
      invariant GroupOk(items, ids[..i])
      invariant seen == set key | key in Keys(ids[..i])
    {
      var key := Trim(ids[i]);
      KeysNext(ids, i);
      if key != "" {
        KeyListed(ids, i);
        if key in seen {
          RepeatedKeyBad(items, ids, i);
          assert FaultAt(items, ids, i, index, DuplicateInGroup(index, key));
          return Err(DuplicateInGroup(index, key)), seen;
        }
        if key !in byId {
          assert FaultAt(items, ids, i, index, UnknownItem(key));
          return Err(UnknownItem(key)), seen;
        }
        KeyTaken(items, ids, i);
        group := group + [byId[key]];
        seen := seen + {key};
      }
    }
    assert ids[..|ids|] == ids;
    r := Ok(group);
  }

  /** A new, known id extends the group. */
  lemma KeyTaken(items: seq<TestItem>, ids: seq<string>, i: nat)
    requires i < |ids| && GroupOk(items, ids[..i])
    requires var key := Trim(ids[i]); key != "" && key !in Keys(ids[..i]) && TestItem(key) in items
    ensures GroupOk(items, ids[..i + 1])
    ensures ItemsOf(Keys(ids[..i + 1])) == ItemsOf(Keys(ids[..i])) + [TestItem(Trim(ids[i]))]
  {
    KeysNext(ids, i);
    DistinctSnoc(Keys(ids[..i]), Trim(ids[i]));
  }

  lemma KeysNext(ids: seq<string>, i: nat)
    requires i < |ids|
    ensures Keys(ids[..i + 1]) == Keys(ids[..i]) + if Trim(ids[i]) == "" then [] else [Trim(ids[i])]
  {
    assert ids[..i + 1][..i] == ids[..i];
  }

  /** The key of entry i, if not blank, is one of the group's keys. */
  lemma {:induction false} KeyListed(ids: seq<string>, i: nat)
    requires i < |ids| && Trim(ids[i]) != ""
    ensures Trim(ids[i]) in Keys(ids)
  {
    var n := |ids| - 1;
    if i < n {
      KeyListed(ids[..n], i);
    }
  }

  lemma RepeatedKeyBad(items: seq<TestItem>, ids: seq<string>, i: nat)
    requires i < |ids| && Trim(ids[i]) != "" && Trim(ids[i]) in Keys(ids[..i])
    ensures !Distinct(Keys(ids)) && !GroupOk(items, ids)
  {
    KeysNext(ids, i);
    DistinctSnoc(Keys(ids[..i]), Trim(ids[i]));
    KeysPrefixDistinct(ids, i + 1);
  }

  lemma DistinctSnoc<T>(s: seq<T>, x: T)
    ensures Distinct(s + [x]) <==> Distinct(s) && x !in s
  {
    var t := s + [x];
    assert forall i :: 0 <= i < |s| ==> t[i] == s[i];
    assert t[|s|] == x;
  }

  lemma {:induction false} KeysAppend(a: seq<string>, b: seq<string>)
    ensures Keys(a + b) == Keys(a) + Keys(b)
  {
    if b == [] {
      assert a + b == a;
    } else {
      var n := |b| - 1;
      assert (a + b)[..|a + b| - 1] == a + b[..n];
      KeysAppend(a, b[..n]);
    }
  }

  lemma PrefixDistinct<T>(a: seq<T>, b: seq<T>)
    ensures Distinct(a + b) ==> Distinct(a)
  {
    assert (a + b)[..|a|] == a;
  }

  lemma KeysPrefixDistinct(ids: seq<string>, i: nat)
    requires i <= |ids|
    ensures Distinct(Keys(ids)) ==> Distinct(Keys(ids[..i]))
  {
    assert ids == ids[..i] + ids[i..];
    KeysAppend(ids[..i], ids[i..]);
    PrefixDistinct(Keys(ids[..i]), Keys(ids[i..]));
  }

  lemma GroupsNext(manifest: seq<seq<string>>, g: nat)
    requires g < |manifest|
    ensures KeySet(manifest[..g + 1]) == KeySet(manifest[..g]) + set key | key in Keys(manifest[g])
    ensures ManifestGroups(manifest[..g + 1]) ==
            ManifestGroups(manifest[..g]) + if Keys(manifest[g]) == [] then [] else [ItemsOf(Keys(manifest[g]))]
  {
    assert manifest[..g + 1][..g] == manifest[..g];
  }

  /** The first g groups are in order, and these are the groups they describe and the ids they list. */
  ghost predicate ResolvedUpTo(items: seq<TestItem>, manifest: seq<seq<string>>, g: nat,
                               groups: seq<seq<TestItem>>, covered: set<string>) {
    && g <= |manifest| && GroupsOk(items, manifest[..g])
    && groups == ManifestGroups(manifest[..g]) && covered == KeySet(manifest[..g])
  }

  lemma ResolvedNext(items: seq<TestItem>, manifest: seq<seq<string>>, g: nat, groups: seq<seq<TestItem>>,
                     covered: set<string>)
    requires ResolvedUpTo(items, manifest, g, groups, covered) && g < |manifest| && GroupOk(items, manifest[g])
    ensures var keys := Keys(manifest[g]);
      ResolvedUpTo(items, manifest, g + 1, groups + (if keys == [] then [] else [ItemsOf(keys)]),
                   covered + set key | key in keys)
  {
    GroupsNext(manifest, g);
    var next := manifest[..g + 1];
    forall k | 0 <= k < |next|
      ensures GroupOk(items, next[k])
    {
      if k < g {
        assert GroupOk(items, manifest[..g][k]);
      }
    }
  }

  lemma ResolvedAll(items: seq<TestItem>, manifest: seq<seq<string>>, groups: seq<seq<TestItem>>, covered: set<string>)
    requires ResolvedUpTo(items, manifest, |manifest|, groups, covered)
    ensures GroupsOk(items, manifest) && groups == ManifestGroups(manifest) && covered == KeySet(manifest)
  {
    assert manifest[..|manifest|] == manifest;
  }

  /** Resolves all groups in order, collecting the ids they list; stops at the first group that is not in order. */
  method ResolveGroups(items: seq<TestItem>, byId: map<string, TestItem>, manifest: seq<seq<string>>)
    returns (r: Result<(seq<seq<TestItem>>, set<string>), SplitError>)
    requires forall id :: id in byId <==> TestItem(id) in items
    requires forall id :: id in byId ==> byId[id] == TestItem(id)
    ensures r.Ok? <==> GroupsOk(items, manifest)
    ensures r.Ok? ==> r.value.0 == ManifestGroups(manifest) && r.value.1 == KeySet(manifest)
    ensures r.Err? ==> exists g: nat :: FaultInGroup(items, manifest, g, r.error)
  {
    var covered: set<string> := {};
    var groups: seq<seq<TestItem>> := [];
    for g := 0 to |manifest|
      invariant ResolvedUpTo(items, manifest, g, groups, covered)
    {
      var group, seen := ResolveGroup(items, byId, manifest[g], g + 1);
      if group.Err? {
        assert FaultInGroup(items, manifest, g, group.error);
        return Err(group.error);
      }
      ResolvedNext(items, manifest, g, groups, covered);
      covered := covered + seen;
      groups := groups + (if group.value != [] then [group.value] else []);
    }
    ResolvedAll(items, manifest, groups, covered);
    r := Ok((groups, covered));
  }

  /** Succeeds exactly when the manifest fits the items, and then yields the groups it describes. */
  method ManifestSplit(items: seq<TestItem>, manifest: seq<seq<string>>)
    returns (r: Result<seq<seq<TestItem>>, SplitError>)
    ensures r.Ok? <==> ManifestFits(items, manifest)
    ensures r.Ok? ==> r.value == ManifestGroups(manifest)
    ensures r.Err? ==> Rejected(items, manifest, r.error)
  {
    var byId, duplicates := IndexItems(items);
    if duplicates {
      return Err(DuplicateItems);
    }
    var resolved := ResolveGroups(items, byId, manifest);
    if resolved.Err? {
      return Err(resolved.error);
    }
    var (groups, covered) := resolved.value;
    var missing := byId.Keys - covered;
    if missing != {} {
      var id :| id in missing;
      assert TestItem(id) in items;
      return Err(NotCovered);
    }
    forall item | item in items
      ensures item.id in covered
    {
      assert item == TestItem(item.id);
      assert item.id in byId && item.id !in missing;
    }
    r := Ok(groups);
  }

  /** An entry that is out of order spoils every longer part of its group. */
  lemma FaultSpoils(items: seq<TestItem>, ids: seq<string>, i: nat, j: nat, index: nat, e: SplitError)
    requires FaultAt(items, ids, i, index, e) && i < j <= |ids|
    ensures !GroupOk(items, ids[..j])
  {
    assert ids[..j][..i] == ids[..i] && ids[..j][i] == ids[i];
    KeyListed(ids[..j], i);
    if Trim(ids[i]) in Keys(ids[..i]) {
      RepeatedKeyBad(items, ids[..j], i);
    }
  }

  lemma GroupFaultUnique(items: seq<TestItem>, ids: seq<string>, index: nat, e: SplitError, f: SplitError)
    requires GroupFault(items, ids, index, e) && GroupFault(items, ids, index, f)
    ensures e == f && !GroupOk(items, ids)
  {
    var i: nat :| FaultAt(items, ids, i, index, e);
    var j: nat :| FaultAt(items, ids, j, index, f);
    FaultSpoils(items, ids, i, |ids|, index, e);
    assert ids[..|ids|] == ids;
    if i < j {
      FaultSpoils(items, ids, i, j, index, e);
    } else if j < i {
      FaultSpoils(items, ids, j, i, index, f);
    }
  }

  lemma BadGroupSpoils(items: seq<TestItem>, manifest: seq<seq<string>>, g: nat, h: nat)
    requires g < h <= |manifest| && !GroupOk(items, manifest[g])
    ensures !GroupsOk(items, manifest[..h])
  {
    assert manifest[..h][g] == manifest[g];
  }

  lemma FirstBadGroup(items: seq<TestItem>, manifest: seq<seq<string>>, g: nat, e: SplitError, h: nat, f: SplitError)
    requires FaultInGroup(items, manifest, g, e) && FaultInGroup(items, manifest, h, f)
    ensures g == h && e == f
  {
    GroupFaultUnique(items, manifest[g], g + 1, e, e);
    GroupFaultUnique(items, manifest[h], h + 1, f, f);
    if g < h {
      BadGroupSpoils(items, manifest, g, h);
    } else if h < g {
      BadGroupSpoils(items, manifest, h, g);
    }
    GroupFaultUnique(items, manifest[g], g + 1, e, f);
  }

  /** The error is determined by items and manifest, so it is the first of all that could be reported. */
  lemma RejectedUnique(items: seq<TestItem>, manifest: seq<seq<string>>, e: SplitError, f: SplitError)
    requires Rejected(items, manifest, e) && Rejected(items, manifest, f)
    ensures e == f && !ManifestFits(items, manifest)
  {
    if Distinct(items) && !GroupsOk(items, manifest) {
      var g: nat :| FaultInGroup(items, manifest, g, e);
      var h: nat :| FaultInGroup(items, manifest, h, f);
      FirstBadGroup(items, manifest, g, e, h, f);
    }
  }

  // ----- when a manifest split keeps the items

  /** No id is listed in two groups. */
  ghost predicate GroupsDisjoint(manifest: seq<seq<string>>) {
    forall g, h, key :: 0 <= g < h < |manifest| && key in Keys(manifest[g]) ==> key !in Keys(manifest[h])
  }

  lemma {:induction false} ManifestMembers(manifest: seq<seq<string>>, key: string)
    ensures TestItem(key) in Flatten(ManifestGroups(manifest)) <==> key in KeySet(manifest)
  {
    if manifest != [] {
      var n := |manifest| - 1;
      ManifestMembers(manifest[..n], key);
      FlattenLastGroup(manifest);
    }
  }

  lemma FlattenLastGroup(manifest: seq<seq<string>>)
    requires manifest != []
    ensures var n := |manifest| - 1;
      Flatten(ManifestGroups(manifest)) == Flatten(ManifestGroups(manifest[..n])) + ItemsOf(Keys(manifest[n]))
  {
    var n := |manifest| - 1;
    if Keys(manifest[n]) != [] {
      FlattenSnoc(ManifestGroups(manifest[..n]), ItemsOf(Keys(manifest[n])));
    } else {
      assert ManifestGroups(manifest[..n]) + [] == ManifestGroups(manifest[..n]);
    }
  }

  lemma DisjointPrefix(manifest: seq<seq<string>>)
    requires manifest != [] && GroupsDisjoint(manifest)
    requires forall g :: 0 <= g < |manifest| ==> Distinct(Keys(manifest[g]))
    ensures var init := manifest[..|manifest| - 1];
      && GroupsDisjoint(init) && (forall g :: 0 <= g < |init| ==> Distinct(Keys(init[g])))
      && forall key :: key in Keys(manifest[|manifest| - 1]) ==> key !in KeySet(init)
  {
    var n := |manifest| - 1;
    var init := manifest[..n];
    assert forall g :: 0 <= g < n ==> init[g] == manifest[g];
    forall key | key in Keys(manifest[n])
      ensures key !in KeySet(init)
    {
      KeySetMember(init, key);
    }
  }

  lemma {:induction false} DisjointGroupsDistinct(manifest: seq<seq<string>>)
    requires GroupsDisjoint(manifest)
    requires forall g :: 0 <= g < |manifest| ==> Distinct(Keys(manifest[g]))
    ensures Distinct(Flatten(ManifestGroups(manifest)))
  {
    if manifest != [] {
      var n := |manifest| - 1;
      DisjointPrefix(manifest);
      DisjointGroupsDistinct(manifest[..n]);
      FlattenLastGroup(manifest);
      var last := ItemsOf(Keys(manifest[n]));
      forall i | 0 <= i < |last|
        ensures last[i] !in Flatten(ManifestGroups(manifest[..n]))
      {
        ManifestMembers(manifest[..n], Keys(manifest[n])[i]);
      }
    }
  }

  lemma MultisetOfSum<T>(a: seq<T>, b: seq<T>, x: T)
    ensures multiset(a + b)[x] == multiset(a)[x] + multiset(b)[x]
    ensures x in a ==> multiset(a)[x] >= 1
    ensures x in b ==> multiset(b)[x] >= 1
  {}

  lemma ItemListed(keys: seq<string>, key: string)
    requires key in keys
    ensures TestItem(key) in ItemsOf(keys)
  {
    var i :| 0 <= i < |keys| && keys[i] == key;
    assert ItemsOf(keys)[i] == TestItem(key);
  }

  lemma GroupListed(manifest: seq<seq<string>>, g: nat, key: string)
    requires g < |manifest| && key in Keys(manifest[g])
    ensures TestItem(key) in Flatten(ManifestGroups(manifest))
  {
    ManifestMembers(manifest, key);
    KeySetMember(manifest, key);
  }

  /** An id listed in the last group and in an earlier one is counted at least twice. */
  lemma LastKeyCounted(manifest: seq<seq<string>>, g: nat, key: string)
    requires g < |manifest| - 1 && key in Keys(manifest[g]) && key in Keys(manifest[|manifest| - 1])
    ensures multiset(Flatten(ManifestGroups(manifest)))[TestItem(key)] >= 2
  {
    var n := |manifest| - 1;
    var init, last := manifest[..n], Keys(manifest[n]);
    assert init[g] == manifest[g];
    GroupListed(init, g, key);
    ItemListed(last, key);
    CountedTwice(Flatten(ManifestGroups(init)), ItemsOf(last), TestItem(key));
    FlattenLastGroup(manifest);
  }

  lemma CountedTwice<T>(a: seq<T>, b: seq<T>, x: T)
    requires x in a && x in b
    ensures multiset(a + b)[x] >= 2
  {
    MultisetOfSum(a, b, x);
  }

  lemma CountsGrow(manifest: seq<seq<string>>, x: TestItem)
    requires manifest != []
    ensures var init := manifest[..|manifest| - 1];
      multiset(Flatten(ManifestGroups(manifest)))[x] >= multiset(Flatten(ManifestGroups(init)))[x]
  {
    var n := |manifest| - 1;
    FlattenLastGroup(manifest);
    MultisetOfSum(Flatten(ManifestGroups(manifest[..n])), ItemsOf(Keys(manifest[n])), x);
  }

  /** An id listed in two groups is counted at least twice. */
  lemma {:induction false} SharedKeyCounted(manifest: seq<seq<string>>, g: nat, h: nat, key: string)
    requires g < h < |manifest| && key in Keys(manifest[g]) && key in Keys(manifest[h])
    ensures multiset(Flatten(ManifestGroups(manifest)))[TestItem(key)] >= 2
  {
    var n := |manifest| - 1;
    if h == n {
      LastKeyCounted(manifest, g, key);
    } else {
      var init := manifest[..n];
      assert init[g] == manifest[g] && init[h] == manifest[h];
      SharedKeyCounted(init, g, h, key);
      CountsGrow(manifest, TestItem(key));
    }
  }

  /** A fitting manifest keeps the item multiset exactly when no id is listed in two groups. */
  lemma ManifestConserves(items: seq<TestItem>, manifest: seq<seq<string>>)
    requires ManifestFits(items, manifest)
    ensures multiset(Flatten(ManifestGroups(manifest))) == multiset(items) <==> GroupsDisjoint(manifest)
  {
    var all := Flatten(ManifestGroups(manifest));
    if GroupsDisjoint(manifest) {
      DisjointGroupsDistinct(manifest);
      forall x
        ensures x in all <==> x in items
      {
        ManifestMembers(manifest, x.id);
        KeySetMember(manifest, x.id);
        assert x == TestItem(x.id);
      }
      DistinctPermutation(all, items);
    } else {
      var g: nat, h: nat, key :| g < h < |manifest| && key in Keys(manifest[g]) && key in Keys(manifest[h]);
      SharedKeyCounted(manifest, g, h, key);
      DistinctCounts(items, TestItem(key));
    }
  }

  lemma TwoGroups(group: seq<string>, manifest: seq<seq<string>>)
    requires manifest == [group, group] && Keys(group) != []
    ensures ManifestGroups(manifest) == [ItemsOf(Keys(group)), ItemsOf(Keys(group))]
  {
    assert manifest[..1] == [group] && [group][..0] == [];
    assert ManifestGroups([group]) == [ItemsOf(Keys(group))];
  }

  lemma RepeatedGroupFits(items: seq<TestItem>, group: seq<string>, manifest: seq<seq<string>>)
    requires manifest == [group, group] && Distinct(items) && GroupOk(items, group)
    requires items == ItemsOf(Keys(group))
    ensures ManifestFits(items, manifest)
  {
    forall item | item in items
      ensures item.id in KeySet(manifest)
    {
      KeySetMember(manifest, item.id);
      assert item.id in Keys(manifest[0]);
    }
  }

  lemma RepeatedGroupShares(group: seq<string>, manifest: seq<seq<string>>)
    requires manifest == [group, group] && Keys(group) != []
    ensures !GroupsDisjoint(manifest)
  {
    var key := Keys(group)[0];
    assert key in Keys(manifest[0]) && key in Keys(manifest[1]);
  }

  /** A group that lists all items once may be listed twice; then every item is in both groups. */
  lemma RepeatedGroup(items: seq<TestItem>, group: seq<string>, manifest: seq<seq<string>>)
    requires manifest == [group, group] && Distinct(items) && GroupOk(items, group)
    requires items == ItemsOf(Keys(group)) && items != []
    ensures ManifestFits(items, manifest) && ManifestGroups(manifest) == [items, items]
    ensures multiset(Flatten(ManifestGroups(manifest))) != multiset(items)
  {
    TwoGroups(group, manifest);
    RepeatedGroupFits(items, group, manifest);
    RepeatedGroupShares(group, manifest);
    ManifestConserves(items, manifest);
  }

  lemma OneKey(key: string)
    requires Trimmed(key)
    ensures Keys([key]) == [key] && ItemsOf(Keys([key])) == [TestItem(key)]
    ensures GroupOk([TestItem(key)], [key])
  {
    TrimShape(key);
    assert [key][..0] == [];
  }

  /** A manifest that lists the only item in two groups fits, and the item is in both groups. */
  lemma SharedItemFits(key: string)
    requires Trimmed(key)
    ensures var items, manifest := [TestItem(key)], [[key], [key]];
      && ManifestFits(items, manifest) && ManifestGroups(manifest) == [items, items]
      && multiset(Flatten(ManifestGroups(manifest))) != multiset(items)
  {
    OneKey(key);
    RepeatedGroup([TestItem(key)], [key], [[key], [key]]);
  }

  // ----- choice of strategy

  datatype SplitSpec = SplitSpec(count: int, manifestPath: Option<string>) {
    predicate HasManifest() {
      manifestPath.Some? && manifestPath.value != ""
    }

    predicate Enabled() {
      HasManifest() || count > 1
    }
  }

  /** What each strategy promises of the groups it returns. */
  ghost predicate GroupsFor(items: seq<TestItem>, split: SplitSpec, manifest: seq<seq<string>>, weights: Weights,
                            groups: seq<seq<TestItem>>) {
    if split.manifestPath.Some? && split.manifestPath.value != "" then
      ManifestFits(items, manifest) && groups == ManifestGroups(manifest)
    else if split.count > 1 then
      && |groups| == split.count
      && multiset(Flatten(groups)) == multiset(items)
      && (if weights != map[] then exists a :: GreedyGroups(weights, items, a, groups)
          else Dealt(items, groups, |items|))
    else
      groups == if items == [] then [] else [items]
  }

  /** Why a manifest split fails: nothing was loaded, or the first thing wrong with the manifest. */
  ghost predicate SplitFault(items: seq<TestItem>, manifest: seq<seq<string>>, e: SplitError) {
    if manifest == [] then e == ManifestNotLoaded else Rejected(items, manifest, e)
  }

  method SplitItems(items: seq<TestItem>, split: SplitSpec, manifest: seq<seq<string>>, weights: Weights)
    returns (r: Result<seq<seq<TestItem>>, SplitError>)
    ensures r.Ok? ==> GroupsFor(items, split, manifest, weights, r.value)
    ensures r.Err? <==> split.HasManifest() && (manifest == [] || !ManifestFits(items, manifest))
    ensures r.Err? ==> SplitFault(items, manifest, r.error)
  {
    if !split.Enabled() {
      return Ok(if items == [] then [] else [items]);
    }
    if split.HasManifest() {
      if manifest == [] {
        return Err(ManifestNotLoaded);
      }
      r := ManifestSplit(items, manifest);
      return;
    }
    if weights != map[] {
      var groups, a := WeightedCountSplit(items, split.count, weights);
      return Ok(groups);
    }
    var groups := CountSplit(items, split.count);
    r := Ok(groups);
  }
}
