/** What the hierarchical reader finds when the hosts of a group are taken for lists of hosts and of groups. */
module NestedTargets {
  import opened Wrappers
  import opened Text
  import opened OrderedDict
  import opened Targets

  /** Some entry has a name that is not blank. */
  ghost predicate NamesAny(entries: Settings) {
    exists e :: e in entries && Trim(e.0) != ""
  }

  lemma {:induction false} NamedAny(entries: Settings)
    ensures NamedEntries(entries) != [] <==> NamesAny(entries)
  {
    if entries != [] {
      var n := |entries| - 1;
      NamedAny(entries[..n]);
      assert entries == entries[..n] + [entries[n]];
      assert entries[n] in entries;
    }
  }

  lemma {:induction false} DefaultsAny(known: Settings, entries: Settings)
    ensures AddDefaults(known, entries) != [] <==> known != [] || NamesAny(entries)
  {
    if entries != [] {
      var n := |entries| - 1;
      DefaultsAny(known, entries[..n]);
      assert entries == entries[..n] + [entries[n]];
      assert entries[n] in entries;
    }
  }

  /** The body of some named group lists a host. */
  ghost predicate ChildrenAny(groups: Settings) {
    exists g :: g in groups && Trim(g.0) != "" && NamesAny(BodyHosts(g.1))
  }

  lemma {:induction false} AddedAny(known: Settings, groups: Settings)
    ensures AddChildren(known, groups) != [] <==> known != [] || ChildrenAny(groups)
  {
    if groups != [] {
      var n := |groups| - 1;
      AddedAny(known, groups[..n]);
      DefaultsAny(AddChildren(known, groups[..n]), BodyHosts(groups[n].1));
      assert groups == groups[..n] + [groups[n]];
      assert groups[n] in groups;
    }
  }

  // ----- the fields of a host

  /** Field names are never blank, and none is `hosts` or `children`. */
  lemma FieldNamed(p: Payload, e: (string, Value))
    requires e in FieldsOf(p)
    ensures Trim(e.0) == e.0 != "" && e.0 != "hosts" && e.0 != "children"
    ensures BodyHosts(e.1) == [] || (e.0 == "transport" && e.1 == Mapping(p.transport))
  {
    FieldKey(p, e);
    TrimShape(e.0);
    LabelsHoldNoHosts(p.labels);
  }

  lemma FieldKey(p: Payload, e: (string, Value))
    requires e in FieldsOf(p)
    ensures Trimmed(e.0) && e.0 != "hosts" && e.0 != "children"
  {
    if e in NamesOf(p) {
      NameKey(p, e);
    }
  }

  lemma NameKey(p: Payload, e: (string, Value))
    requires e in NamesOf(p)
    ensures Trimmed(e.0) && e.0 != "hosts" && e.0 != "children" && e.0 != "transport" && e.1.Scalar?
  {}

  lemma {:induction false} LabelsHoldNoHosts(labels: Labels)
    ensures BodyHosts(Mapping(LabelValues(labels))) == []
  {
    if labels != [] {
      LabelsHoldNoHosts(labels[1..]);
      assert LabelValues(labels)[1..] == LabelValues(labels[1..]);
    }
  }

  lemma FieldsAny(p: Payload)
    ensures FieldsOf(p) == [] <==> p == EMPTY_PAYLOAD
    ensures NamesAny(FieldsOf(p)) <==> p != EMPTY_PAYLOAD
    ensures ChildrenAny(FieldsOf(p)) <==> NamesAny(BodyHosts(Mapping(p.transport)))
  {
    if FieldsOf(p) != [] {
      FieldNamed(p, FieldsOf(p)[0]);
      assert FieldsOf(p)[0] in FieldsOf(p);
    }
    if p.transport != [] {
      TransportWritten(p);
      FieldNamed(p, ("transport", Mapping(p.transport)));
    }
    if g :| g in FieldsOf(p) && Trim(g.0) != "" && NamesAny(BodyHosts(g.1)) {
      FieldNamed(p, g);
    }
  }

  lemma TransportWritten(p: Payload)
    requires p.transport != []
    ensures ("transport", Mapping(p.transport)) in FieldsOf(p)
  {}

  /** Nothing is found exactly if no host named `hosts` has a field and none named `children` holds hosts. */
  lemma NestedNothing(all: Hosts, read: FieldReader)
    ensures NestedHosts(all, read) == [] <==>
      && (Get(all, "hosts") == None || Get(all, "hosts") == Some(EMPTY_PAYLOAD))
      && (Get(all, "children") == None || !NamesAny(BodyHosts(Mapping(Get(all, "children").value.transport))))
  {
    if Get(all, "hosts").Some? {
      FieldsAny(Get(all, "hosts").value);
    }
    if Get(all, "children").Some? {
      FieldsAny(Get(all, "children").value);
    }
    NamedAny(EntryOf(all, "hosts"));
    AddedAny(NamedEntries(EntryOf(all, "hosts")), EntryOf(all, "children"));
  }

  // ----- where a found entry comes from

  /** The entry stands, under some spelling of its name, in the given list. */
  ghost predicate Spelled(entries: Settings, e: (string, Value)) {
    exists f :: f in entries && Trim(f.0) == e.0 && f.1 == e.1
  }

  lemma SpelledMore(entries: Settings, n: nat, e: (string, Value))
    requires n <= |entries| && Spelled(entries[..n], e)
    ensures Spelled(entries, e)
  {
    var f :| f in entries[..n] && Trim(f.0) == e.0 && f.1 == e.1;
    assert f in entries;
  }

  lemma {:induction false} NamedSource(entries: Settings, e: (string, Value))
    requires e in NamedEntries(entries)
    ensures Spelled(entries, e)
  {
    var n := |entries| - 1;
    var name := Trim(entries[n].0);
    if name != "" {
      PutPairs(NamedEntries(entries[..n]), name, entries[n].1);
    }
    if e in NamedEntries(entries[..n]) {
      NamedSource(entries[..n], e);
      SpelledMore(entries, n, e);
    } else {
      assert entries[n] in entries;
    }
  }

  lemma {:induction false} DefaultsSource(known: Settings, entries: Settings, e: (string, Value))
    requires e in AddDefaults(known, entries)
    ensures e in known || Spelled(entries, e)
  {
    if entries != [] {
      var n := |entries| - 1;
      if e in AddDefaults(known, entries[..n]) {
        DefaultsSource(known, entries[..n], e);
        if Spelled(entries[..n], e) {
          SpelledMore(entries, n, e);
        }
      } else {
        assert entries[n] in entries;
      }
    }
  }

  lemma {:induction false} ChildrenSource(known: Settings, groups: Settings, e: (string, Value))
    requires e in AddChildren(known, groups)
    ensures e in known || exists g :: g in groups && Spelled(BodyHosts(g.1), e)
  {
    if groups != [] {
      var n := |groups| - 1;
      assert groups[n] in groups;
      if e in AddChildren(known, groups[..n]) {
        ChildrenSource(known, groups[..n], e);
        if g :| g in groups[..n] && Spelled(BodyHosts(g.1), e) {
          assert g in groups;
        }
      } else {
        DefaultsSource(AddChildren(known, groups[..n]), BodyHosts(groups[n].1), e);
      }
    }
  }

  /** What is found is a field of the host `hosts` or stands in the transport settings of the host `children`. */
  lemma NestedSource(all: Hosts, e: (string, Value))
    requires e in NestedEntries(all)
    ensures (Get(all, "hosts").Some? && e in FieldsOf(Get(all, "hosts").value))
            || (Get(all, "children").Some? && Spelled(BodyHosts(Mapping(Get(all, "children").value.transport)), e))
  {
    ChildrenSource(NamedEntries(EntryOf(all, "hosts")), EntryOf(all, "children"), e);
    if e in NamedEntries(EntryOf(all, "hosts")) {
      NamedSource(EntryOf(all, "hosts"), e);
      var f :| f in EntryOf(all, "hosts") && Trim(f.0) == e.0 && f.1 == e.1;
      FieldNamed(Get(all, "hosts").value, f);
      assert f == e;
    } else {
      var g :| g in EntryOf(all, "children") && Spelled(BodyHosts(g.1), e);
      FieldNamed(Get(all, "children").value, g);
    }
  }

  // ----- what is found is not what was dumped

  function Sum(ns: seq<nat>): (n: nat) {
    if ns == [] then 0 else ns[0] + Sum(ns[1..])
  }

  lemma {:induction false} PartOfSum(ns: seq<nat>, i: nat)
    requires i < |ns|
    ensures ns[i] <= Sum(ns)
  {
    if i > 0 {
      PartOfSum(ns[1..], i - 1);
    }
  }

  /** How many mappings and other values a value is made of. */
  function Size(v: Value): (n: nat) {
    match v
    case Scalar(_) => 1
    case Mapping(entries) => 1 + Sum(seq(|entries|, i requires 0 <= i < |entries| => Size(entries[i].1)))
  }

  lemma PartSmaller(entries: Settings, e: (string, Value))
    requires e in entries
    ensures Size(e.1) < Size(Mapping(entries))
  {
    var i :| 0 <= i < |entries| && entries[i] == e;
    PartOfSum(seq(|entries|, i requires 0 <= i < |entries| => Size(entries[i].1)), i);
  }

  lemma {:induction false} GetMeans<K, V>(d: seq<(K, V)>, k: K)
    requires Get(d, k).Some?
    ensures (k, Get(d, k).value) in d
  {
    if d[0].0 != k {
      GetMeans(d[1..], k);
    }
  }

  /** The settings of a host found inside some settings are smaller than these. */
  lemma FoundSmaller(transport: Settings, e: (string, Value))
    requires Spelled(BodyHosts(Mapping(transport)), e)
    ensures TransportIn(e.1) != transport
  {
    var hosts := BodyHosts(Mapping(transport));
    var f :| f in hosts && Trim(f.0) == e.0 && f.1 == e.1;
    GetMeans(transport, "hosts");
    PartSmaller(transport, ("hosts", Mapping(hosts)));
    PartSmaller(hosts, f);
    if TransportIn(e.1) != [] {
      GetMeans(e.1.entries, "transport");
      PartSmaller(e.1.entries, ("transport", Mapping(TransportIn(e.1))));
    }
  }

  /** A host named `hosts` is not found among its own fields. */
  lemma HostsNotFound(all: Hosts, p: Payload, read: FieldReader, t: TargetNode)
    requires Get(all, "hosts") == Some(p) && t.hostId == "hosts"
    requires Get(all, "children").Some? ==> !NamesAny(BodyHosts(Mapping(Get(all, "children").value.transport)))
    ensures t !in Values(NestedHosts(all, read))
  {
    var found := NestedEntries(all);
    forall i | 0 <= i < |found|
      ensures found[i].0 != "hosts"
    {
      NestedSource(all, found[i]);
      if found[i] in FieldsOf(p) {
        FieldNamed(p, found[i]);
      } else {
        NotSpelled(BodyHosts(Mapping(Get(all, "children").value.transport)), found[i]);
      }
    }
  }

  lemma NotSpelled(entries: Settings, e: (string, Value))
    requires !NamesAny(entries)
    ensures Spelled(entries, e) ==> e.0 == ""
  {}

  /** A host named `children` is not found inside its own transport settings, which are too large for that. */
  lemma ChildrenNotFound(all: Hosts, p: Payload, read: FieldReader, t: TargetNode)
    requires Get(all, "children") == Some(p) && t.hostId == "children" && p.transport == t.transport
    ensures t !in Values(NestedHosts(all, read))
  {
    var found := NestedEntries(all);
    forall i | 0 <= i < |found|
      ensures found[i].0 != "children" || TransportIn(found[i].1) != t.transport
    {
      NestedSource(all, found[i]);
      if Get(all, "hosts").Some? && found[i] in FieldsOf(Get(all, "hosts").value) {
        FieldNamed(Get(all, "hosts").value, found[i]);
      } else {
        FoundSmaller(t.transport, found[i]);
      }
    }
  }
}
