/** Every inventory that has been loaded is in the shape in which dumping and loading give it back. */
module LoadedTargets {
  import opened Wrappers
  import opened Sequences
  import opened Sorting
  import opened Text
  import opened OrderedDict
  import opened Targets
  import opened TargetsRoundTrip

  lemma {:induction false} TrimAllTrimmed(xs: seq<string>)
    ensures forall x :: x in TrimAll(xs) ==> Trimmed(x)
  {
    if xs != [] {
      var n := |xs| - 1;
      TrimAllTrimmed(xs[..n]);
      TrimShape(xs[n]);
    }
  }

  lemma PutLabels(m: Labels, k: string, v: string)
    requires NormalLabels(m) && Trimmed(k)
    ensures NormalLabels(Put(m, k, v))
  {
    PutIsDict(m, k, v);
    PutPairs(m, k, v);
  }

  lemma {:induction false} StringifiedNormal(m: Labels)
    ensures NormalLabels(StringifyMap(m))
  {
    if m != [] {
      var n := |m| - 1;
      StringifiedNormal(m[..n]);
      TrimShape(m[n].0);
      if Trim(m[n].0) != "" {
        PutLabels(StringifyMap(m[..n]), Trim(m[n].0), m[n].1);
      }
    }
  }

  lemma {:induction false} UpdatedLabels(d: Labels, e: Labels)
    requires NormalLabels(d) && forall i :: 0 <= i < |e| ==> Trimmed(e[i].0)
    ensures NormalLabels(Update(d, e))
  {
    if e != [] {
      var n := |e| - 1;
      UpdatedLabels(d, e[..n]);
      PutLabels(Update(d, e[..n]), e[n].0, e[n].1);
    }
  }

  lemma {:induction false} UpdatedDict<K, V>(d: seq<(K, V)>, e: seq<(K, V)>)
    requires IsDict(d)
    ensures IsDict(Update(d, e))
  {
    if e != [] {
      var n := |e| - 1;
      UpdatedDict(d, e[..n]);
      PutIsDict(Update(d, e[..n]), e[n].0, e[n].1);
    }
  }

  /** A host of a document: its transport settings form a dictionary. */
  predicate WellFormed(p: Payload) {
    IsDict(p.transport)
  }

  lemma NormalizedNormal(name: string, p: Payload, groups: seq<string>)
    requires Trimmed(name) && WellFormed(p) && forall g :: g in groups ==> Trimmed(g)
    ensures NormalTarget(NormalizeHost(name, p, groups)) && NormalizeHost(name, p, groups).hostId == name
  {
    TrimShape(FirstNonEmpty(p.name, name));
    TrimShape(FirstNonEmpty(p.address, FirstNonEmpty(p.host, FirstNonEmpty(p.hostname, p.ansibleHost))));
    TrimShape(p.credential);
    StringifiedNormal(p.labels);
    TrimAllTrimmed(p.groups);
    SortedSetShape(groups + TrimAll(p.groups));
  }

  lemma MergedNormal(known: TargetNode, g: string, t: TargetNode)
    requires NormalTarget(known) && NormalTarget(t) && Trimmed(g)
    ensures NormalTarget(Merge(known, g, t)) && Merge(known, g, t).hostId == known.hostId
  {
    SortedSetShape(known.groups + [g] + t.groups);
    UpdatedLabels(known.labels, t.labels);
    UpdatedDict(known.transport, t.transport);
  }

  /** Loaded nodes by their host ids, each normal. */
  ghost predicate NormalNodes(out: seq<(string, TargetNode)>) {
    && IsDict(out)
    && forall i :: 0 <= i < |out| ==> NormalTarget(out[i].1) && out[i].1.hostId == out[i].0
  }

  lemma PutNode(out: seq<(string, TargetNode)>, t: TargetNode)
    requires NormalNodes(out) && NormalTarget(t)
    ensures NormalNodes(Put(out, t.hostId, t))
  {
    PutIsDict(out, t.hostId, t);
    PutPairs(out, t.hostId, t);
  }

  lemma NodeOf(out: seq<(string, TargetNode)>, h: string)
    requires NormalNodes(out) && Get(out, h).Some?
    ensures NormalTarget(Get(out, h).value) && Get(out, h).value.hostId == h
  {
    GetMember(out, h, Get(out, h).value);
  }

  lemma {:induction false} LoadedAllNormal(ls: seq<Listing>)
    requires forall l :: l in ls ==> Trimmed(l.group) && WellFormed(l.payload)
    ensures NormalNodes(LoadAll(ls))
  {
    if ls != [] {
      var n := |ls| - 1;
      var l, out := ls[n], LoadAll(ls[..n]);
      assert l in ls;
      LoadedAllNormal(ls[..n]);
      var name := Trim(l.name);
      TrimShape(l.name);
      if name != "" {
        NormalizedNormal(name, l.payload, [l.group]);
        var t := NormalizeHost(name, l.payload, [l.group]);
        if Get(out, name).Some? {
          NodeOf(out, name);
          MergedNormal(Get(out, name).value, l.group, t);
          PutNode(out, Merge(Get(out, name).value, l.group, t));
        } else {
          PutNode(out, t);
        }
      }
    }
  }

  lemma {:induction false} ListedHostsNormal(hosts: Hosts)
    requires forall e :: e in hosts ==> WellFormed(e.1)
    ensures NormalNodes(LoadHostsSection(hosts))
  {
    if hosts != [] {
      var n := |hosts| - 1;
      assert hosts[n] in hosts;
      ListedHostsNormal(hosts[..n]);
      TrimShape(hosts[n].0);
      if Trim(hosts[n].0) != "" {
        NormalizedNormal(Trim(hosts[n].0), hosts[n].1, []);
        PutNode(LoadHostsSection(hosts[..n]), NormalizeHost(Trim(hosts[n].0), hosts[n].1, []));
      }
    }
  }

  /** Every host of the document is well formed. */
  ghost predicate WellFormedDocument(doc: Document) {
    forall i, e :: 0 <= i < |doc| && doc[i].1.HostsSection? && e in doc[i].1.hosts ==> WellFormed(e.1)
  }

  lemma {:induction false} ListingsWellFormed(doc: Document)
    requires WellFormedDocument(doc)
    ensures forall l :: l in Listings(doc) ==> Trimmed(l.group) && WellFormed(l.payload)
  {
    if doc != [] {
      var n := |doc| - 1;
      ListingsWellFormed(doc[..n]);
      TrimShape(doc[n].0);
      if IsGroup(doc[n].0, doc[n].1) {
        var hosts := doc[n].1.hosts;
        forall l | l in ListHosts(Trim(doc[n].0), hosts)
          ensures Trimmed(l.group) && WellFormed(l.payload)
        {
          HostListed(Trim(doc[n].0), hosts, l);
          assert (l.name, l.payload) in hosts;
        }
      }
    }
  }

  lemma {:induction false} SectionWellFormed(doc: Document, name: string)
    requires WellFormedDocument(doc)
    ensures forall e :: e in SectionHosts(doc, name) ==> WellFormed(e.1)
  {
    if doc != [] && doc[0].0 != name {
      assert forall i :: 0 <= i < |doc[1..]| ==> doc[1..][i] == doc[i + 1];
      SectionWellFormed(doc[1..], name);
    }
  }

  lemma SortedNodesNormal(out: seq<(string, TargetNode)>)
    requires NormalNodes(out)
    ensures NormalInventory(Sort(Values(out), ById))
  {
    var vs, ts := Values(out), Sort(Values(out), ById);
    ByIdWeak();
    SortCorrect(vs, ById);
    SortMembers(vs);
    forall i, j | 0 <= i < j < |vs|
      ensures vs[i].hostId != vs[j].hostId
    {
      assert Keys(out)[i] != Keys(out)[j];
    }
    SameDistinct(vs, ts);
    forall i, j | 0 <= i < j < |ts|
      ensures ts[i].hostId != ts[j].hostId
    {
      assert ts[i] in vs && ts[j] in vs && ts[i] != ts[j];
    }
    assert forall v :: v in vs ==> NormalTarget(v);
  }

  /** A permutation of distinct elements has distinct elements. */
  lemma SameDistinct<T>(a: seq<T>, b: seq<T>)
    requires Distinct(a) && multiset(a) == multiset(b)
    ensures Distinct(b)
  {
    forall i, j | 0 <= i < j < |b|
      ensures b[i] != b[j]
    {
      DistinctCounts(a, b[i]);
      assert b == b[..j] + b[j..];
      assert b[..j][i] == b[i] && b[j..][0] == b[j];
      assert multiset(b) == multiset(b[..j]) + multiset(b[j..]);
    }
  }

  /** Loading a document that is not in the hierarchical form leaves a normal inventory. */
  lemma LoadedInventoryNormal(doc: Document, read: FieldReader)
    requires WellFormedDocument(doc) && NestedHosts(SectionHosts(doc, "all"), read) == []
    requires LoadTargetsMapping(doc, read).Some?
    ensures NormalInventory(LoadTargetsMapping(doc, read).value) && LoadTargetsMapping(doc, read).value != []
  {
    var listed := LoadHostsSection(SectionHosts(doc, "hosts"));
    SectionWellFormed(doc, "hosts");
    ListedHostsNormal(SectionHosts(doc, "hosts"));
    ListingsWellFormed(doc);
    LoadedAllNormal(Listings(doc));
    var out := if listed != [] then listed else LoadAll(Listings(doc));
    SortedNodesNormal(out);
    SortMembers(Values(out));
  }

  /**
   What has been loaded from any such document is given back by dumping and loading it again exactly if it is
   readable; loading it once more changes nothing.
   */
  lemma LoadDumpLoad(doc: Document, read: FieldReader)
    requires WellFormedDocument(doc) && NestedHosts(SectionHosts(doc, "all"), read) == []
    requires LoadTargetsMapping(doc, read).Some?
    ensures var ts := LoadTargetsMapping(doc, read).value;
      LoadTargetsMapping(AsDocument(DumpOf(ts)), read) == Some(ts) <==> Readable(ts)
  {
    var ts := LoadTargetsMapping(doc, read).value;
    LoadedInventoryNormal(doc, read);
    LoadDumpRoundTrip(ts, read);
    SortedTwice(ts, doc, read);
  }

  lemma SortedTwice(ts: seq<TargetNode>, doc: Document, read: FieldReader)
    requires LoadTargetsMapping(doc, read) == Some(ts) && NormalInventory(ts)
    ensures Sort(ts, ById) == ts
  {
    var hosts :| ts == Sort(hosts, ById);
    ByIdWeak();
    ByIdSeparates(ts);
    SortCorrect(hosts, ById);
    SortCorrect(ts, ById);
    SortedUnique(Sort(ts, ById), ts, ById) by {
      SortMembers(ts);
      assert forall x, y :: x in ts && y in ts && x != y ==> ById(x, y) || ById(y, x);
    }
  }
}
