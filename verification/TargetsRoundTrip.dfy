/** Loading a dumped inventory gives the targets back, sorted by host id, unless a group has a reserved name. */
module TargetsRoundTrip {
  import opened Wrappers
  import opened Sequences
  import opened Sorting
  import opened Text
  import opened OrderedDict
  import opened Targets
  import opened NestedTargets

  ghost predicate StrictlySorted(s: seq<string>) {
    forall i, j :: 0 <= i < j < |s| ==> StrLess(s[i], s[j])
  }

  ghost predicate NormalLabels(m: Labels) {
    IsDict(m) && forall i :: 0 <= i < |m| ==> Trimmed(m[i].0)
  }

  predicate NormalOption(o: Option<string>) {
    o.Some? ==> Trimmed(o.value)
  }

  /** The shape in which loading leaves a target. */
  ghost predicate NormalTarget(t: TargetNode) {
    && Trimmed(t.hostId) && Trimmed(t.name) && NormalOption(t.address) && NormalOption(t.credential)
    && StrictlySorted(t.groups) && (forall g :: g in t.groups ==> Trimmed(g))
    && NormalLabels(t.labels) && IsDict(t.transport)
  }

  /**
   In a group named `all`, a host named `hosts` that has some field looks like a list of hosts, and one named
   `children` whose transport settings hold a mapping of hosts looks like a list of groups.
   */
  ghost predicate LooksNested(t: TargetNode) {
    "all" in t.groups
    && ((t.hostId == "hosts" && PayloadOf(t) != EMPTY_PAYLOAD)
        || (t.hostId == "children" && NamesAny(BodyHosts(Mapping(t.transport)))))
  }

  /**
   Every target has a group, none is in a group named `hosts`, which is read as the list of hosts, or `file`,
   which is not read at all, and none looks like a nested list of hosts.
   */
  ghost predicate Readable(ts: seq<TargetNode>) {
    forall t :: t in ts ==> t.groups != [] && "hosts" !in t.groups && "file" !in t.groups && !LooksNested(t)
  }

  ghost predicate NormalInventory(ts: seq<TargetNode>) {
    && (forall t :: t in ts ==> NormalTarget(t))
    && (forall i, j :: 0 <= i < j < |ts| ==> ts[i].hostId != ts[j].hostId)
  }

  // ----- sorted sets of strings

  lemma {:induction false} InsertNewSorted(x: string, s: seq<string>)
    requires StrictlySorted(s)
    ensures StrictlySorted(InsertNew(x, s))
    ensures forall y :: y in InsertNew(x, s) <==> y in s || y == x
  {
    if s != [] && x != s[0] {
      StrLessTotal(x, s[0]);
      if StrLess(x, s[0]) {
        forall j | 0 <= j < |s|
          ensures StrLess(x, s[j])
        {
          if j > 0 {
            StrLessTransitive(x, s[0], s[j]);
          }
        }
      } else {
        InsertNewSorted(x, s[1..]);
        assert s == [s[0]] + s[1..];
        forall y | y in InsertNew(x, s[1..])
          ensures StrLess(s[0], y)
        {
          if y != x {
            var i :| 0 <= i < |s[1..]| && s[1..][i] == y;
            assert s[i + 1] == y;
          }
        }
      }
    }
  }

  lemma {:induction false} SortedSetShape(xs: seq<string>)
    ensures StrictlySorted(SortedSet(xs))
    ensures forall y :: y in SortedSet(xs) <==> y in xs
  {
    if xs != [] {
      var n := |xs| - 1;
      SortedSetShape(xs[..n]);
      InsertNewSorted(xs[n], SortedSet(xs[..n]));
      assert xs == xs[..n] + [xs[n]];
    }
  }

  lemma SortedSetUnique(a: seq<string>, b: seq<string>)
    requires StrictlySorted(a) && StrictlySorted(b) && forall x :: x in a <==> x in b
    ensures a == b
  {
    StrLessWeak();
    DistinctPermutation(a, b);
    SortedUnique(a, b, StrLess);
  }

  // ----- what a dump holds

  function Lookup(d: Grouped, group: string, host: string): (r: Option<Payload>) {
    Get(HostsIn(d, group), host)
  }

  lemma PlaceLookup(d: Grouped, group: string, t: TargetNode, g: string, h: string)
    ensures Lookup(Place(d, group, t), g, h) ==
            if g == group && h == t.hostId then Some(PayloadOf(t)) else Lookup(d, g, h)
  {
    GetPut(d, group, Put(HostsIn(d, group), t.hostId, PayloadOf(t)), g);
    GetPut(HostsIn(d, group), t.hostId, PayloadOf(t), h);
  }

  lemma {:induction false} PlaceAllLookup(d: Grouped, groups: seq<string>, t: TargetNode, g: string, h: string)
    ensures Lookup(PlaceAll(d, groups, t), g, h) ==
            if g in groups && h == t.hostId then Some(PayloadOf(t)) else Lookup(d, g, h)
  {
    if groups != [] {
      var n := |groups| - 1;
      PlaceAllLookup(d, groups[..n], t, g, h);
      PlaceLookup(PlaceAll(d, groups[..n], t), groups[n], t, g, h);
      assert groups == groups[..n] + [groups[n]];
    }
  }

  /** Target t is dumped under group g. */
  predicate DumpedUnder(ts: seq<TargetNode>, t: TargetNode, g: string) {
    t in ts && g in GroupsOf(t)
  }

  lemma {:induction false} DumpHolds(ts: seq<TargetNode>, t: TargetNode, g: string)
    requires NormalInventory(ts) && DumpedUnder(ts, t, g)
    ensures Lookup(DumpOf(ts), g, t.hostId) == Some(PayloadOf(t))
  {
    var n := |ts| - 1;
    PlaceAllLookup(DumpOf(ts[..n]), GroupsOf(ts[n]), ts[n], g, t.hostId);
    if t != ts[n] {
      var i :| 0 <= i < |ts| && ts[i] == t;
      assert ts[i].hostId != ts[n].hostId;
      assert ts[..n][i] == t;
      DumpHolds(ts[..n], t, g);
    }
  }

  lemma {:induction false} DumpOwner(ts: seq<TargetNode>, g: string, h: string) returns (t: TargetNode)
    requires NormalInventory(ts) && Lookup(DumpOf(ts), g, h).Some?
    ensures DumpedUnder(ts, t, g) && t.hostId == h
  {
    var n := |ts| - 1;
    PlaceAllLookup(DumpOf(ts[..n]), GroupsOf(ts[n]), ts[n], g, h);
    assert ts[n] in ts;
    if g in GroupsOf(ts[n]) && h == ts[n].hostId {
      t := ts[n];
    } else {
      t := DumpOwner(ts[..n], g, h);
    }
  }

  /** Dictionaries throughout, and every group trimmed and named by some target. */
  ghost predicate DumpShape(d: Grouped, ts: seq<TargetNode>) {
    && IsDict(d)
    && (forall i :: 0 <= i < |d| ==> IsDict(d[i].1) && NamedBy(ts, d[i].0))
  }

  ghost predicate NamedBy(ts: seq<TargetNode>, g: string) {
    Trimmed(g) && exists t :: DumpedUnder(ts, t, g)
  }

  lemma PlaceShape(d: Grouped, ts: seq<TargetNode>, group: string, t: TargetNode)
    requires DumpShape(d, ts) && NamedBy(ts, group)
    ensures DumpShape(Place(d, group, t), ts)
  {
    var hosts := Put(HostsIn(d, group), t.hostId, PayloadOf(t));
    if Get(d, group).Some? {
      GetMember(d, group, Get(d, group).value);
    }
    PutIsDict(HostsIn(d, group), t.hostId, PayloadOf(t));
    PutIsDict(d, group, hosts);
    PutPairs(d, group, hosts);
  }

  lemma {:induction false} PlaceAllShape(d: Grouped, ts: seq<TargetNode>, groups: seq<string>, t: TargetNode)
    requires DumpShape(d, ts) && forall g :: g in groups ==> NamedBy(ts, g)
    ensures DumpShape(PlaceAll(d, groups, t), ts)
  {
    if groups != [] {
      var n := |groups| - 1;
      PlaceAllShape(d, ts, groups[..n], t);
      PlaceShape(PlaceAll(d, groups[..n], t), ts, groups[n], t);
    }
  }

  lemma {:induction false} DumpPrefixShape(ts: seq<TargetNode>, n: nat)
    requires NormalInventory(ts) && n <= |ts|
    ensures DumpShape(DumpOf(ts[..n]), ts)
  {
    if n > 0 {
      var t := ts[n - 1];
      assert ts[..n][..n - 1] == ts[..n - 1];
      assert t in ts;
      DumpPrefixShape(ts, n - 1);
      forall g | g in GroupsOf(t)
        ensures NamedBy(ts, g)
      {
        assert DumpedUnder(ts, t, g);
      }
      PlaceAllShape(DumpOf(ts[..n - 1]), ts, GroupsOf(t), t);
    }
  }

  lemma DumpHasShape(ts: seq<TargetNode>)
    requires NormalInventory(ts)
    ensures DumpShape(DumpOf(ts), ts)
  {
    DumpPrefixShape(ts, |ts|);
    assert ts[..|ts|] == ts;
  }

  // ----- what a dump lists when read back

  /** Section i of the document lists the host under the group, which is the section's name without outer blanks. */
  predicate ListedIn(doc: Document, i: nat, l: Listing) {
    && i < |doc| && doc[i].1.HostsSection?
    && Trim(doc[i].0) == l.group && (l.name, l.payload) in doc[i].1.hosts
  }

  /** What is listed: the hosts of every section that is a mapping of hosts and neither blank nor called file. */
  lemma {:induction false} ListedExactly(doc: Document, l: Listing)
    ensures l in Listings(doc) <==> l.group != "" && l.group != "file" && exists i: nat :: ListedIn(doc, i, l)
  {
    if doc != [] {
      var n := |doc| - 1;
      ListedExactly(doc[..n], l);
      var more := if IsGroup(doc[n].0, doc[n].1) then ListHosts(Trim(doc[n].0), doc[n].1.hosts) else [];
      if doc[n].1.HostsSection? {
        HostListed(Trim(doc[n].0), doc[n].1.hosts, l);
      }
      assert l in more <==> l.group != "" && l.group != "file" && ListedIn(doc, n, l);
      ListedInSnoc(doc, l);
    }
  }

  lemma ListedInSnoc(doc: Document, l: Listing)
    requires doc != []
    ensures var n := |doc| - 1;
      (exists i: nat :: ListedIn(doc, i, l)) <==> (exists i: nat :: ListedIn(doc[..n], i, l)) || ListedIn(doc, n, l)
  {
    var n := |doc| - 1;
    forall i: nat
      ensures ListedIn(doc, i, l) <==> ListedIn(doc[..n], i, l) || (i == n && ListedIn(doc, n, l))
    {
      assert i < n ==> doc[..n][i] == doc[i];
    }
  }

  lemma {:induction false} ListingsMember(d: Grouped, l: Listing)
    requires forall i :: 0 <= i < |d| ==> Trimmed(d[i].0)
    ensures l in Listings(AsDocument(d)) <==>
            l.group != "file" && exists i :: 0 <= i < |d| && d[i].0 == l.group && (l.name, l.payload) in d[i].1
  {
    if d != [] {
      var n := |d| - 1;
      ListingsMember(d[..n], l);
      assert AsDocument(d)[..n] == AsDocument(d[..n]);
      TrimShape(d[n].0);
      HostListed(d[n].0, d[n].1, l);
      assert forall i :: 0 <= i < n ==> d[..n][i] == d[i];
    }
  }

  lemma HostListed(group: string, hosts: Hosts, l: Listing)
    ensures l in ListHosts(group, hosts) <==> l.group == group && (l.name, l.payload) in hosts
  {
    if l.group == group && (l.name, l.payload) in hosts {
      var i :| 0 <= i < |hosts| && hosts[i] == (l.name, l.payload);
      assert ListHosts(group, hosts)[i] == l;
    }
  }

  lemma ListedOnly(ts: seq<TargetNode>, l: Listing) returns (t: TargetNode)
    requires NormalInventory(ts) && l in Listings(AsDocument(DumpOf(ts)))
    ensures DumpedUnder(ts, t, l.group) && l.name == t.hostId && l.payload == PayloadOf(t) && l.group != "file"
  {
    var d := DumpOf(ts);
    DumpHasShape(ts);
    ListingsMember(d, l);
    var i :| 0 <= i < |d| && d[i].0 == l.group && (l.name, l.payload) in d[i].1;
    GetMember(d, d[i].0, d[i].1);
    GetMember(d[i].1, l.name, l.payload);
    t := DumpOwner(ts, l.group, l.name);
    DumpHolds(ts, t, l.group);
  }

  lemma ListedAll(ts: seq<TargetNode>, t: TargetNode, g: string)
    requires NormalInventory(ts) && DumpedUnder(ts, t, g) && g != "file"
    ensures Listing(g, t.hostId, PayloadOf(t)) in Listings(AsDocument(DumpOf(ts)))
  {
    var d := DumpOf(ts);
    DumpHasShape(ts);
    ListingsMember(d, Listing(g, t.hostId, PayloadOf(t)));
    DumpHolds(ts, t, g);
    var hosts := HostsIn(d, g);
    GetMember(d, g, hosts);
    var i :| 0 <= i < |d| && d[i] == (g, hosts);
    GetMember(hosts, t.hostId, PayloadOf(t));
  }

  // ----- one target through normalisation and merging

  lemma {:induction false} StringifyNormal(m: Labels, n: nat)
    requires NormalLabels(m) && n <= |m|
    ensures StringifyMap(m[..n]) == m[..n]
  {
    if n > 0 {
      assert m[..n][..n - 1] == m[..n - 1];
      StringifyNormal(m, n - 1);
      TrimShape(m[n - 1].0);
      PutNew(m[..n - 1], m[n - 1].0, m[n - 1].1);
    }
  }

  lemma {:induction false} PutNew<K, V>(d: seq<(K, V)>, k: K, v: V)
    requires forall i :: 0 <= i < |d| ==> d[i].0 != k
    ensures Put(d, k, v) == d + [(k, v)]
  {
    if d != [] {
      PutNew(d[1..], k, v);
      assert d == [d[0]] + d[1..];
    }
  }

  lemma NonBlankNormal(o: Option<string>)
    requires NormalOption(o)
    ensures NonBlank(if o.Some? then o.value else "") == o
  {}

  /** A dumped target read under one group is the target with that group only. */
  lemma NormalizeDumped(t: TargetNode, g: string)
    requires NormalTarget(t)
    ensures NormalizeHost(t.hostId, PayloadOf(t), [g]) == t.(groups := SortedSet([g] + TrimAll([])))
  {
    TrimShape(t.hostId);
    TrimShape(t.name);
    NonBlankNormal(t.address);
    NonBlankNormal(t.credential);
    StringifyNormal(t.labels, |t.labels|);
    assert t.labels[..|t.labels|] == t.labels;
  }

  /** Merging two readings of one target joins their groups and keeps everything else. */
  lemma MergeReadings(t: TargetNode, a: seq<string>, g: string, b: seq<string>)
    requires NormalTarget(t)
    ensures Merge(t.(groups := a), g, t.(groups := b)) == t.(groups := SortedSet(a + [g] + b))
  {
    UpdateSelf(t.labels);
    UpdateSelf(t.transport);
  }

  /** Of two readings of a host the later one wins field by field and key by key; groups are joined. */
  lemma MergeLaterWins(known: TargetNode, g: string, t: TargetNode, x: string)
    requires IsDict(t.labels) && IsDict(t.transport)
    ensures var r := Merge(known, g, t);
      && r.hostId == known.hostId
      && StrictlySorted(r.groups) && (x in r.groups <==> x in known.groups || x == g || x in t.groups)
      && Get(r.labels, x) == (if x in Keys(t.labels) then Get(t.labels, x) else Get(known.labels, x))
      && Get(r.transport, x) == (if x in Keys(t.transport) then Get(t.transport, x) else Get(known.transport, x))
      && r.address == (if t.address.Some? then t.address else known.address)
      && r.credential == (if t.credential.Some? then t.credential else known.credential)
      && (t.name != "" ==> r.name == t.name)
  {
    SortedSetShape(known.groups + [g] + t.groups);
    GetUpdate(known.labels, t.labels, x);
    GetUpdate(known.transport, t.transport, x);
  }

  /** The address of a host is the first of the four spellings that is given. */
  lemma AddressIsFirstGiven(name: string, p: Payload, groups: seq<string>, i: nat)
    requires var spellings := [p.address, p.host, p.hostname, p.ansibleHost];
      i < 4 && spellings[i] != "" && forall k :: 0 <= k < i ==> spellings[k] == ""
    ensures var given := Trim([p.address, p.host, p.hostname, p.ansibleHost][i]);
      NormalizeHost(name, p, groups).address == if given != "" then Some(given) else None
  {
    var spellings := [p.address, p.host, p.hostname, p.ansibleHost];
    assert i > 0 ==> spellings[0] == "";
    assert i > 1 ==> spellings[1] == "";
    assert i > 2 ==> spellings[2] == "";
  }

  /** A label is read from the last entry with its key. */
  lemma {:induction false} LabelsRead(m: Labels, k: string, i: nat)
    requires k != "" && i < |m| && Trim(m[i].0) == k && forall j :: i < j < |m| ==> Trim(m[j].0) != k
    ensures Get(StringifyMap(m), k) == Some(m[i].1)
  {
    var n := |m| - 1;
    GetPut(StringifyMap(m[..n]), Trim(m[n].0), m[n].1, k);
    if i < n {
      LabelsRead(m[..n], k, i);
    }
  }

  /** A key that no entry has is not read; blank keys are passed over. */
  lemma {:induction false} LabelsUnread(m: Labels, k: string)
    requires k == "" || forall j :: 0 <= j < |m| ==> Trim(m[j].0) != k
    ensures Get(StringifyMap(m), k) == None
  {
    if m != [] {
      var n := |m| - 1;
      LabelsUnread(m[..n], k);
      GetPut(StringifyMap(m[..n]), Trim(m[n].0), m[n].1, k);
    }
  }

  lemma {:induction false} TrimAllHolds(xs: seq<string>, x: string)
    ensures x in TrimAll(xs) <==> x != "" && exists i :: 0 <= i < |xs| && Trim(xs[i]) == x
  {
    if xs != [] {
      var n := |xs| - 1;
      TrimAllHolds(xs[..n], x);
      assert forall i :: 0 <= i < n ==> xs[..n][i] == xs[i];
    }
  }

  /**
   What is read of a host's fields: the groups it is listed under and those it names itself, without outer blanks
   and sorted; name and credential without outer blanks, or the host's own name and none; the transport as it is.
   */
  lemma HostRead(name: string, p: Payload, groups: seq<string>, x: string)
    requires Trimmed(name)
    ensures var t := NormalizeHost(name, p, groups);
      && t.hostId == name && t.transport == p.transport
      && StrictlySorted(t.groups)
      && (x in t.groups <==> x in groups || (x != "" && exists i :: 0 <= i < |p.groups| && Trim(p.groups[i]) == x))
      && (if Trim(p.name) != "" then t.name == Trim(p.name) else t.name == name)
      && (if Trim(p.credential) != "" then t.credential == Some(Trim(p.credential)) else t.credential == None)
      && (p.address == p.host == p.hostname == p.ansibleHost == "" ==> t.address == None)
  {
    SortedSetShape(groups + TrimAll(p.groups));
    TrimAllHolds(p.groups, x);
    TrimShape(name);
  }

  // ----- what loading makes of the listings

  /** A listing of some target of the inventory. */
  ghost predicate ListsTarget(ts: seq<TargetNode>, l: Listing) {
    exists t :: t in ts && l.name == t.hostId && l.payload == PayloadOf(t)
  }

  /** Target t is listed under g. */
  predicate ListedUnder(ls: seq<Listing>, t: TargetNode, g: string) {
    Listing(g, t.hostId, PayloadOf(t)) in ls
  }

  /** The node loaded for t: t with the groups under which it is listed; None if it is not listed. */
  ghost predicate Loaded(ls: seq<Listing>, t: TargetNode, r: Option<TargetNode>) {
    match r
    case None => forall g :: !ListedUnder(ls, t, g)
    case Some(n) =>
      n == t.(groups := n.groups) && StrictlySorted(n.groups)
      && forall g :: g in n.groups <==> ListedUnder(ls, t, g)
  }

  lemma ListedSnoc(ls: seq<Listing>, l: Listing, t: TargetNode, g: string)
    ensures ListedUnder(ls + [l], t, g) <==> ListedUnder(ls, t, g) || l == Listing(g, t.hostId, PayloadOf(t))
  {}

  lemma LoadOneOther(out: seq<(string, TargetNode)>, l: Listing, h: string)
    requires Trim(l.name) != h
    ensures Get(LoadOne(out, l), h) == Get(out, h)
  {
    var name := Trim(l.name);
    if name != "" {
      var t := NormalizeHost(name, l.payload, [l.group]);
      GetPut(out, name, match Get(out, name) case None => t case Some(known) => Merge(known, l.group, t), h);
    }
  }

  /** The groups of t after it has been read once more, under group g. */
  function GroupsAfter(known: Option<TargetNode>, g: string): (groups: seq<string>) {
    var own := SortedSet([g] + TrimAll([]));
    if known.Some? then SortedSet(known.value.groups + [g] + own) else own
  }

  lemma GroupsAfterHold(known: Option<TargetNode>, g: string)
    ensures StrictlySorted(GroupsAfter(known, g))
    ensures forall x :: x in GroupsAfter(known, g) <==> x == g || (known.Some? && x in known.value.groups)
  {
    var own := SortedSet([g] + TrimAll([]));
    assert [g] + TrimAll([]) == [g];
    SortedSetShape([g]);
    if known.Some? {
      SortedSetShape(known.value.groups + [g] + own);
    }
  }

  lemma LoadOneValue(out: seq<(string, TargetNode)>, l: Listing, t: TargetNode)
    requires NormalTarget(t) && l.name == t.hostId && l.payload == PayloadOf(t)
    requires Get(out, t.hostId).Some? ==> Get(out, t.hostId).value == t.(groups := Get(out, t.hostId).value.groups)
    ensures Get(LoadOne(out, l), t.hostId) == Some(t.(groups := GroupsAfter(Get(out, t.hostId), l.group)))
  {
    TrimShape(t.hostId);
    NormalizeDumped(t, l.group);
    var known := Get(out, t.hostId);
    if known.Some? {
      MergeReadings(t, known.value.groups, l.group, SortedSet([l.group] + TrimAll([])));
    }
    GetPut(out, t.hostId, t.(groups := GroupsAfter(known, l.group)), t.hostId);
  }

  lemma LoadOneSelf(out: seq<(string, TargetNode)>, ls: seq<Listing>, l: Listing, t: TargetNode)
    requires NormalTarget(t) && Loaded(ls, t, Get(out, t.hostId))
    requires l.name == t.hostId && l.payload == PayloadOf(t)
    ensures Loaded(ls + [l], t, Get(LoadOne(out, l), t.hostId))
  {
    LoadOneValue(out, l, t);
    GroupsAfterHold(Get(out, t.hostId), l.group);
    forall g
      ensures ListedUnder(ls + [l], t, g) <==> ListedUnder(ls, t, g) || g == l.group
    {
      ListedSnoc(ls, l, t, g);
    }
  }

  lemma {:induction false} LoadedTarget(ts: seq<TargetNode>, ls: seq<Listing>, t: TargetNode)
    requires NormalInventory(ts) && t in ts && forall l :: l in ls ==> ListsTarget(ts, l)
    ensures Loaded(ls, t, Get(LoadAll(ls), t.hostId))
  {
    if ls != [] {
      var n := |ls| - 1;
      var l := ls[n];
      assert ls == ls[..n] + [l] && l in ls;
      LoadedTarget(ts, ls[..n], t);
      var other :| other in ts && l.name == other.hostId && l.payload == PayloadOf(other);
      TrimShape(l.name);
      if l.name == t.hostId {
        LoadOneSelf(LoadAll(ls[..n]), ls[..n], l, t);
      } else {
        LoadOneOther(LoadAll(ls[..n]), l, t.hostId);
        LoadedElsewhere(ls[..n], l, t, Get(LoadAll(ls[..n]), t.hostId));
      }
    }
  }

  lemma LoadedElsewhere(ls: seq<Listing>, l: Listing, t: TargetNode, r: Option<TargetNode>)
    requires Loaded(ls, t, r) && l.name != t.hostId
    ensures Loaded(ls + [l], t, r)
  {
    forall g
      ensures ListedUnder(ls + [l], t, g) <==> ListedUnder(ls, t, g)
    {
      ListedSnoc(ls, l, t, g);
    }
  }

  lemma {:induction false} LoadedKeys(ts: seq<TargetNode>, ls: seq<Listing>)
    requires NormalInventory(ts) && forall l :: l in ls ==> ListsTarget(ts, l)
    ensures IsDict(LoadAll(ls))
    ensures forall h :: h in Keys(LoadAll(ls)) ==> exists t :: t in ts && t.hostId == h
  {
    if ls != [] {
      var n := |ls| - 1;
      var l := ls[n];
      assert l in ls;
      LoadedKeys(ts, ls[..n]);
      var other :| other in ts && l.name == other.hostId && l.payload == PayloadOf(other);
      TrimShape(l.name);
      LoadOneKeys(LoadAll(ls[..n]), l);
    }
  }

  lemma LoadOneKeys(out: seq<(string, TargetNode)>, l: Listing)
    requires IsDict(out)
    ensures IsDict(LoadOne(out, l))
    ensures forall h :: h in Keys(LoadOne(out, l)) ==> h in Keys(out) || h == Trim(l.name)
  {
    var name := Trim(l.name);
    if name != "" {
      var t := NormalizeHost(name, l.payload, [l.group]);
      var v := match Get(out, name) case None => t case Some(known) => Merge(known, l.group, t);
      PutIsDict(out, name, v);
      PutKeys(out, name, v);
    }
  }

  // ----- the round trip

  /** The one node that can be loaded for a target has exactly the groups it was dumped under, but for `file`. */
  lemma LoadedGroups(ts: seq<TargetNode>, owner: TargetNode, g: string)
    requires NormalInventory(ts) && owner in ts
    ensures ListedUnder(Listings(AsDocument(DumpOf(ts))), owner, g) <==> g in GroupsOf(owner) && g != "file"
  {
    if g in GroupsOf(owner) && g != "file" {
      ListedAll(ts, owner, g);
    }
    if ListedUnder(Listings(AsDocument(DumpOf(ts))), owner, g) {
      var other := ListedOnly(ts, Listing(g, owner.hostId, PayloadOf(owner)));
    }
  }

  /** Loading the dump finds every target as it was. */
  lemma LoadedBack(ts: seq<TargetNode>, t: TargetNode)
    requires NormalInventory(ts) && t in ts && t.groups != [] && "file" !in t.groups
    ensures Get(LoadAll(Listings(AsDocument(DumpOf(ts)))), t.hostId) == Some(t)
  {
    var ls := Listings(AsDocument(DumpOf(ts)));
    AllListTargets(ts);
    LoadedTarget(ts, ls, t);
    var r := Get(LoadAll(ls), t.hostId);
    forall g
      ensures ListedUnder(ls, t, g) <==> g in t.groups
    {
      LoadedGroups(ts, t, g);
    }
    assert t.groups[0] in t.groups;
    assert ListedUnder(ls, t, t.groups[0]);
    SortedSetUnique(r.value.groups, t.groups);
  }

  lemma AllListTargets(ts: seq<TargetNode>)
    requires NormalInventory(ts)
    ensures forall l :: l in Listings(AsDocument(DumpOf(ts))) ==> ListsTarget(ts, l)
  {
    forall l | l in Listings(AsDocument(DumpOf(ts)))
      ensures ListsTarget(ts, l)
    {
      var t := ListedOnly(ts, l);
    }
  }

  /** Every loaded node is some target with exactly the groups it was dumped under, but for `file`. */
  lemma LoadedOwner(ts: seq<TargetNode>, i: nat) returns (owner: TargetNode)
    requires NormalInventory(ts) && i < |LoadAll(Listings(AsDocument(DumpOf(ts))))|
    ensures var (h, node) := LoadAll(Listings(AsDocument(DumpOf(ts))))[i];
      && owner in ts && owner.hostId == h && node == owner.(groups := node.groups)
      && forall g :: g in node.groups <==> g in GroupsOf(owner) && g != "file"
  {
    var ls := Listings(AsDocument(DumpOf(ts)));
    var out := LoadAll(ls);
    AllListTargets(ts);
    LoadedKeys(ts, ls);
    assert Keys(out)[i] in Keys(out);
    owner :| owner in ts && owner.hostId == out[i].0;
    LoadedTarget(ts, ls, owner);
    GetMember(out, out[i].0, out[i].1);
    assert out[i] in out;
    forall g
      ensures ListedUnder(ls, owner, g) <==> g in GroupsOf(owner) && g != "file"
    {
      LoadedGroups(ts, owner, g);
    }
  }

  lemma LoadedValueAt(ts: seq<TargetNode>, i: nat)
    requires NormalInventory(ts) && Readable(ts) && i < |LoadAll(Listings(AsDocument(DumpOf(ts))))|
    ensures LoadAll(Listings(AsDocument(DumpOf(ts))))[i].1 in ts
  {
    var out := LoadAll(Listings(AsDocument(DumpOf(ts))));
    var owner := LoadedOwner(ts, i);
    AllListTargets(ts);
    LoadedKeys(ts, Listings(AsDocument(DumpOf(ts))));
    LoadedBack(ts, owner);
    GetMember(out, out[i].0, out[i].1);
  }

  lemma LoadedValueOf(ts: seq<TargetNode>, t: TargetNode)
    requires NormalInventory(ts) && Readable(ts) && t in ts
    ensures t in Values(LoadAll(Listings(AsDocument(DumpOf(ts)))))
  {
    var out := LoadAll(Listings(AsDocument(DumpOf(ts))));
    AllListTargets(ts);
    LoadedKeys(ts, Listings(AsDocument(DumpOf(ts))));
    LoadedBack(ts, t);
    GetMember(out, t.hostId, t);
    var i :| 0 <= i < |out| && out[i] == (t.hostId, t);
    assert Values(out)[i] == t;
  }

  /** The loaded nodes are the dumped targets in some order. */
  lemma LoadedValues(ts: seq<TargetNode>)
    requires NormalInventory(ts) && Readable(ts)
    ensures multiset(Values(LoadAll(Listings(AsDocument(DumpOf(ts)))))) == multiset(ts)
  {
    var out := LoadAll(Listings(AsDocument(DumpOf(ts))));
    AllListTargets(ts);
    LoadedKeys(ts, Listings(AsDocument(DumpOf(ts))));
    forall t
      ensures t in Values(out) <==> t in ts
    {
      if t in ts {
        LoadedValueOf(ts, t);
      }
      if i :| 0 <= i < |out| && Values(out)[i] == t {
        LoadedValueAt(ts, i);
      }
    }
    forall i, j | 0 <= i < j < |out|
      ensures Values(out)[i] != Values(out)[j]
    {
      var a := LoadedOwner(ts, i);
      var b := LoadedOwner(ts, j);
      assert Keys(out)[i] != Keys(out)[j];
    }
    DistinctPermutation(Values(out), ts);
  }

  lemma ByIdWeak()
    ensures StrictWeak(ById)
  {
    StrLessWeak();
  }

  // ----- the sections a dump is first searched for

  lemma {:induction false} DocumentHosts(d: Grouped, g: string)
    ensures SectionHosts(AsDocument(d), g) == HostsIn(d, g)
  {
    if d != [] {
      assert AsDocument(d)[1..] == AsDocument(d[1..]);
      DocumentHosts(d[1..], g);
    }
  }

  /** The hosts dumped under a group are those of the targets in that group. */
  lemma HostsOfGroup(ts: seq<TargetNode>, g: string, h: string, p: Payload) returns (t: TargetNode)
    requires NormalInventory(ts) && (h, p) in HostsIn(DumpOf(ts), g)
    ensures DumpedUnder(ts, t, g) && t.hostId == h && p == PayloadOf(t)
  {
    DumpHasShape(ts);
    GetMember(DumpOf(ts), g, HostsIn(DumpOf(ts), g));
    GetMember(HostsIn(DumpOf(ts), g), h, p);
    t := DumpOwner(ts, g, h);
    DumpHolds(ts, t, g);
  }

  lemma NoHostsNoSection(ts: seq<TargetNode>, g: string)
    requires NormalInventory(ts) && forall t :: t in ts ==> g !in GroupsOf(t)
    ensures SectionHosts(AsDocument(DumpOf(ts)), g) == []
  {
    var hosts := HostsIn(DumpOf(ts), g);
    DocumentHosts(DumpOf(ts), g);
    if hosts != [] {
      assert (hosts[0].0, hosts[0].1) in hosts;
      var t := HostsOfGroup(ts, g, hosts[0].0, hosts[0].1);
    }
  }

  /** What the dump holds under `hosts` and `children` of group `all` decides whether anything looks nested. */
  lemma SomeLooksNested(ts: seq<TargetNode>)
    requires NormalInventory(ts)
    ensures var hosts, children := Lookup(DumpOf(ts), "all", "hosts"), Lookup(DumpOf(ts), "all", "children");
      (hosts == None || hosts == Some(EMPTY_PAYLOAD))
      && (children == None || !NamesAny(BodyHosts(Mapping(children.value.transport))))
      <==> forall t :: t in ts ==> !LooksNested(t)
  {
    OwnerInAll(ts, "hosts");
    OwnerInAll(ts, "children");
    forall t | t in ts && LooksNested(t)
      ensures Lookup(DumpOf(ts), "all", t.hostId) == Some(PayloadOf(t))
    {
      DumpHolds(ts, t, "all");
    }
  }

  /** What is dumped for host h under group `all` is that of a target in this group. */
  lemma OwnerInAll(ts: seq<TargetNode>, h: string)
    requires NormalInventory(ts)
    ensures Lookup(DumpOf(ts), "all", h).Some? ==>
              exists t :: t in ts && t.hostId == h && "all" in t.groups
                          && Lookup(DumpOf(ts), "all", h) == Some(PayloadOf(t))
  {
    if Lookup(DumpOf(ts), "all", h).Some? {
      var t := DumpOwner(ts, "all", h);
      DumpHolds(ts, t, "all");
      assert "all" in t.groups;
    }
  }

  /** The hierarchical reader finds something in the dump exactly if some target looks nested. */
  lemma NestedExactly(ts: seq<TargetNode>, read: FieldReader)
    requires NormalInventory(ts)
    ensures NestedHosts(SectionHosts(AsDocument(DumpOf(ts)), "all"), read) == []
            <==> forall t :: t in ts ==> !LooksNested(t)
  {
    DocumentHosts(DumpOf(ts), "all");
    NestedNothing(HostsIn(DumpOf(ts), "all"), read);
    SomeLooksNested(ts);
  }

  /** Hosts read from a list of hosts carry no groups but those they name themselves. */
  lemma {:induction false} ListedHosts(hosts: Hosts)
    requires forall e :: e in hosts ==> e.1.groups == []
    ensures forall e :: e in LoadHostsSection(hosts) ==> e.1.groups == []
  {
    if hosts != [] {
      var n := |hosts| - 1;
      ListedHosts(hosts[..n]);
      var name := Trim(hosts[n].0);
      if name != "" {
        assert hosts[n] in hosts;
        NoGroupsNormalized(name, hosts[n].1);
        PutPairs(LoadHostsSection(hosts[..n]), name, NormalizeHost(name, hosts[n].1, []));
      }
    }
  }

  lemma NoGroupsNormalized(name: string, p: Payload)
    requires p.groups == []
    ensures NormalizeHost(name, p, []).groups == []
  {
    assert [] + TrimAll([]) == [];
  }

  lemma {:induction false} SomeHostListed(hosts: Hosts, i: nat)
    requires i < |hosts| && Trim(hosts[i].0) != ""
    ensures LoadHostsSection(hosts) != []
  {
    var n := |hosts| - 1;
    if Trim(hosts[n].0) == "" {
      SomeHostListed(hosts[..n], i);
    }
  }

  // ----- what a reserved group name does

  /** A group named `hosts` is taken for the list of hosts, and every target read from it has lost its groups. */
  lemma HostsGroupLost(ts: seq<TargetNode>, t: TargetNode)
    requires NormalInventory(ts) && t in ts && "hosts" in t.groups
    ensures var listed := LoadHostsSection(SectionHosts(AsDocument(DumpOf(ts)), "hosts"));
      listed != [] && forall i :: 0 <= i < |listed| ==> listed[i].1.groups == []
  {
    var hosts := HostsIn(DumpOf(ts), "hosts");
    DocumentHosts(DumpOf(ts), "hosts");
    forall e | e in hosts
      ensures e.1.groups == []
    {
      var other := HostsOfGroup(ts, "hosts", e.0, e.1);
    }
    ListedHosts(hosts);
    var listed := LoadHostsSection(hosts);
    assert forall i :: 0 <= i < |listed| ==> listed[i] in listed;
    var i := HostsHold(ts, t, "hosts");
    TrimShape(t.hostId);
    SomeHostListed(hosts, i);
  }

  lemma HostsHold(ts: seq<TargetNode>, t: TargetNode, g: string) returns (i: nat)
    requires NormalInventory(ts) && DumpedUnder(ts, t, g)
    ensures i < |HostsIn(DumpOf(ts), g)| && HostsIn(DumpOf(ts), g)[i] == (t.hostId, PayloadOf(t))
  {
    var hosts := HostsIn(DumpOf(ts), g);
    DumpHolds(ts, t, g);
    DumpHasShape(ts);
    GetMember(DumpOf(ts), g, hosts);
    GetMember(hosts, t.hostId, PayloadOf(t));
    i :| 0 <= i < |hosts| && hosts[i] == (t.hostId, PayloadOf(t));
  }

  lemma NotItself(ts: seq<TargetNode>, owner: TargetNode, node: TargetNode, t: TargetNode)
    requires NormalInventory(ts) && owner in ts && t in ts && (t.groups == [] || "file" in t.groups)
    requires node == owner.(groups := node.groups)
    requires forall g :: g in node.groups <==> g in GroupsOf(owner) && g != "file"
    ensures node != t
  {
    if owner == t {
      assert "file" !in node.groups;
      assert t.groups == [] ==> "default" in GroupsOf(t) && "default" in node.groups;
    } else {
      assert owner.hostId != t.hostId;
    }
  }

  lemma NeverLoaded(ts: seq<TargetNode>, t: TargetNode, i: nat)
    requires NormalInventory(ts) && t in ts && (t.groups == [] || "file" in t.groups)
    requires i < |LoadAll(Listings(AsDocument(DumpOf(ts))))|
    ensures LoadAll(Listings(AsDocument(DumpOf(ts))))[i].1 != t
  {
    var owner := LoadedOwner(ts, i);
    NotItself(ts, owner, LoadAll(Listings(AsDocument(DumpOf(ts))))[i].1, t);
  }

  /**
   A target in a group named `file` is not among the loaded nodes, because that group is not read; nor is one
   without groups, because it is read as one in group `default`.
   */
  lemma FileGroupLost(ts: seq<TargetNode>, t: TargetNode)
    requires NormalInventory(ts) && t in ts && (t.groups == [] || "file" in t.groups)
    ensures t !in Values(LoadAll(Listings(AsDocument(DumpOf(ts)))))
  {
    var out := LoadAll(Listings(AsDocument(DumpOf(ts))));
    forall i | 0 <= i < |out|
      ensures out[i].1 != t
    {
      NeverLoaded(ts, t, i);
    }
  }

  lemma SortMembers(ts: seq<TargetNode>)
    ensures forall t :: t in Sort(ts, ById) <==> t in ts
    ensures |Sort(ts, ById)| == |ts|
  {
    ByIdWeak();
    SortCorrect(ts, ById);
    assert |multiset(ts)| == |ts| && |multiset(Sort(ts, ById))| == |Sort(ts, ById)|;
    forall t
      ensures t in Sort(ts, ById) <==> t in ts
    {
      assert t in multiset(Sort(ts, ById)) <==> t in multiset(ts);
    }
  }

  lemma ReadableLoads(ts: seq<TargetNode>, read: FieldReader)
    requires NormalInventory(ts) && ts != [] && Readable(ts)
    ensures LoadTargetsMapping(AsDocument(DumpOf(ts)), read) == Some(Sort(ts, ById))
  {
    var out := LoadAll(Listings(AsDocument(DumpOf(ts))));
    NoHostsNoSection(ts, "hosts");
    NestedExactly(ts, read);
    LoadedValues(ts);
    LoadedBack(ts, ts[0]);
    assert out != [];
    ByIdWeak();
    ByIdSeparates(ts);
    SortCanonical(ts, Values(out), ById);
  }

  /** If some target is not among the loaded nodes, what is loaded is not the inventory. */
  lemma NodeMissing(ts: seq<TargetNode>, out: seq<(string, TargetNode)>, t: TargetNode)
    requires t in ts && t !in Values(out)
    ensures Sort(Values(out), ById) != Sort(ts, ById)
  {
    SortMembers(ts);
    SortMembers(Values(out));
  }

  lemma HostsGroupUnread(ts: seq<TargetNode>, t: TargetNode, read: FieldReader)
    requires NormalInventory(ts) && t in ts && "hosts" in t.groups
    ensures LoadTargetsMapping(AsDocument(DumpOf(ts)), read) != Some(Sort(ts, ById))
  {
    var listed := LoadHostsSection(SectionHosts(AsDocument(DumpOf(ts)), "hosts"));
    HostsGroupLost(ts, t);
    forall i | 0 <= i < |listed|
      ensures Values(listed)[i] != t
    {
      assert listed[i].1.groups == [];
    }
    NodeMissing(ts, listed, t);
  }

  /**
   A target that looks nested does not come back: among the fields of a host named `hosts` none is named `hosts`,
   and what is found inside the transport settings of a host named `children` has smaller settings itself.
   */
  lemma NestedUnread(ts: seq<TargetNode>, t: TargetNode, read: FieldReader)
    requires NormalInventory(ts) && t in ts && LooksNested(t) && forall o :: o in ts ==> "hosts" !in GroupsOf(o)
    requires t.hostId == "hosts" ==> forall o :: o in ts && LooksNested(o) ==> o.hostId != "children"
    ensures LoadTargetsMapping(AsDocument(DumpOf(ts)), read) != Some(Sort(ts, ById))
  {
    var all := HostsIn(DumpOf(ts), "all");
    NoHostsNoSection(ts, "hosts");
    DocumentHosts(DumpOf(ts), "all");
    DumpHolds(ts, t, "all");
    NestedExactly(ts, read);
    if t.hostId == "hosts" {
      OwnerInAll(ts, "children");
      HostsNotFound(all, PayloadOf(t), read, t);
    } else {
      ChildrenNotFound(all, PayloadOf(t), read, t);
    }
    NodeMissing(ts, NestedHosts(all, read), t);
  }

  lemma UnreadableLoads(ts: seq<TargetNode>, read: FieldReader)
    requires NormalInventory(ts) && ts != [] && !Readable(ts)
    ensures LoadTargetsMapping(AsDocument(DumpOf(ts)), read) != Some(Sort(ts, ById))
  {
    if t :| t in ts && "hosts" in t.groups {
      HostsGroupUnread(ts, t, read);
    } else {
      NoHostsNoSection(ts, "hosts");
      if t :| t in ts && LooksNested(t) && t.hostId == "children" {
        NestedUnread(ts, t, read);
      } else if t :| t in ts && LooksNested(t) {
        NestedUnread(ts, t, read);
      } else {
        NestedExactly(ts, read);
        var t :| t in ts && (t.groups == [] || "file" in t.groups);
        FileGroupLost(ts, t);
        NodeMissing(ts, LoadAll(Listings(AsDocument(DumpOf(ts)))), t);
      }
    }
  }

  /**
   Round trip: loading the dump of a non-empty normal inventory gives the same targets, sorted by host id,
   although every host was dumped once per group, if and only if every target has a group, none is in a group
   named `hosts` or `file`, and in a group `all` no host named `hosts` has a field and no host named `children`
   has a mapping of hosts in its transport settings.
   */
  lemma LoadDumpRoundTrip(ts: seq<TargetNode>, read: FieldReader)
    requires NormalInventory(ts) && ts != []
    ensures LoadTargetsMapping(AsDocument(DumpOf(ts)), read) == Some(Sort(ts, ById)) <==> Readable(ts)
  {
    if Readable(ts) {
      ReadableLoads(ts, read);
    } else {
      UnreadableLoads(ts, read);
    }
  }

  /** A host named `children` in group `all` with a mapping of hosts in its transport settings does not come back. */
  lemma ChildrenLost(t: TargetNode, read: FieldReader)
    requires NormalTarget(t) && t.hostId == "children" && t.groups == ["all"]
    requires t.transport == [("hosts", Mapping([("x", Mapping([]))]))]
    ensures LoadTargetsMapping(AsDocument(DumpOf([t])), read) != Some([t])
  {
    var hosts := [("x", Mapping([]))];
    TrimShape("x");
    assert BodyHosts(Mapping(t.transport)) == hosts && hosts[0] in hosts;
    assert t in [t];
    LoadDumpRoundTrip([t], read);
    assert Sort([t], ById) == [t] by {
      assert [t][1..] == [];
    }
  }

  lemma ByIdSeparates(ts: seq<TargetNode>)
    requires NormalInventory(ts)
    ensures Separated(ts, ById)
  {
    forall x, y | x in ts && y in ts && x != y
      ensures ById(x, y) || ById(y, x)
    {
      StrLessTotal(x.hostId, y.hostId);
    }
  }
}
