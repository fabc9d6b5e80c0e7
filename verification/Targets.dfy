/** Target inventories: dumping nodes group by group, and loading them back with one node per host. */
module Targets {
  import opened Wrappers
  import opened Sorting
  import opened Text
  import opened OrderedDict

  type Labels = seq<(string, string)>

  /** A value in a document: a mapping, or something else, such as text, a number or a list, by what it says. */
  datatype Value = Scalar(text: string) | Mapping(entries: Settings)

  type Settings = seq<(string, Value)>

  datatype TargetNode = TargetNode(
    hostId: string, name: string, address: Option<string>, groups: seq<string>,
    labels: Labels, credential: Option<string>, transport: Settings)

  /** The fields of a host as written in a document; a missing field is empty. */
  datatype Payload = Payload(
    name: string, address: string, host: string, hostname: string, ansibleHost: string,
    labels: Labels, credential: string, transport: Settings, groups: seq<string>)

  const EMPTY_PAYLOAD := Payload("", "", "", "", "", [], "", [], [])

  type Hosts = seq<(string, Payload)>

  /** A top-level entry of a document: a mapping of hosts or something else. */
  datatype Section = HostsSection(hosts: Hosts) | OtherSection

  type Document = seq<(string, Section)>

  // ----- normalisation

  /** Inserts into a strictly sorted list unless present. */
  function InsertNew(x: string, s: seq<string>): (r: seq<string>) {
    if s == [] then [x]
    else if x == s[0] then s
    else if StrLess(x, s[0]) then [x] + s
    else [s[0]] + InsertNew(x, s[1..])
  }

  /** The elements of xs, sorted and without repetition. */
  function SortedSet(xs: seq<string>): (r: seq<string>) {
    if xs == [] then [] else InsertNew(xs[|xs| - 1], SortedSet(xs[..|xs| - 1]))
  }

  function TrimAll(xs: seq<string>): (r: seq<string>) {
    if xs == [] then []
    else
      var n := |xs| - 1;
      TrimAll(xs[..n]) + if Trim(xs[n]) == "" then [] else [Trim(xs[n])]
  }

  function StringifyMap(m: Labels): (r: Labels) {
    if m == [] then []
    else
      var n := |m| - 1;
      var key := Trim(m[n].0);
      if key == "" then StringifyMap(m[..n]) else Put(StringifyMap(m[..n]), key, m[n].1)
  }

  function FirstNonEmpty(a: string, b: string): (r: string) {
    if a != "" then a else b
  }

  function NonBlank(s: string): (r: Option<string>) {
    if Trim(s) == "" then None else Some(Trim(s))
  }

  function NormalizeHost(name: string, p: Payload, groups: seq<string>): (t: TargetNode) {
    var display := Trim(FirstNonEmpty(p.name, name));
    TargetNode(
      name,
      FirstNonEmpty(display, name),
      NonBlank(FirstNonEmpty(p.address, FirstNonEmpty(p.host, FirstNonEmpty(p.hostname, p.ansibleHost)))),
      SortedSet(groups + TrimAll(p.groups)),
      StringifyMap(p.labels),
      NonBlank(p.credential),
      p.transport)
  }

  function FirstSome<T>(a: Option<T>, b: Option<T>): (r: Option<T>) {
    if a.Some? then a else b
  }

  /** A host met again in another group: later fields win where given, groups and mappings are joined. */
  function Merge(known: TargetNode, group: string, t: TargetNode): (r: TargetNode) {
    TargetNode(
      known.hostId,
      FirstNonEmpty(t.name, known.name),
      FirstSome(t.address, known.address),
      SortedSet(known.groups + [group] + t.groups),
      Update(known.labels, t.labels),
      FirstSome(t.credential, known.credential),
      Update(known.transport, t.transport))
  }

  // ----- loading

  datatype Listing = Listing(group: string, name: string, payload: Payload)

  function LoadOne(out: seq<(string, TargetNode)>, l: Listing): (r: seq<(string, TargetNode)>) {
    var name := Trim(l.name);
    if name == "" then out
    else
      var t := NormalizeHost(name, l.payload, [l.group]);
      Put(out, name, match Get(out, name) case None => t case Some(known) => Merge(known, l.group, t))
  }

  function LoadAll(ls: seq<Listing>): (r: seq<(string, TargetNode)>) {
    if ls == [] then [] else LoadOne(LoadAll(ls[..|ls| - 1]), ls[|ls| - 1])
  }

  function ListHosts(group: string, hosts: Hosts): (ls: seq<Listing>) {
    seq(|hosts|, i requires 0 <= i < |hosts| => Listing(group, hosts[i].0, hosts[i].1))
  }

  predicate IsGroup(name: string, section: Section) {
    Trim(name) != "" && Trim(name) != "file" && section.HostsSection?
  }

  /** All hosts of a document in the order they are read, each with its group. */
  function Listings(doc: Document): (ls: seq<Listing>) {
    if doc == [] then []
    else
      var n := |doc| - 1;
      Listings(doc[..n]) + if IsGroup(doc[n].0, doc[n].1) then ListHosts(Trim(doc[n].0), doc[n].1.hosts) else []
  }

  method LoadGroupedTargets(doc: Document) returns (out: seq<(string, TargetNode)>)
    ensures out == LoadAll(Listings(doc))
  {
    out := [];
    for g := 0 to |doc|
      invariant out == LoadAll(Listings(doc[..g]))
    {
      ListingsSnoc(doc, g);
      assert Listings(doc[..g]) + [] == Listings(doc[..g]);
      var group := Trim(doc[g].0);
      if IsGroup(doc[g].0, doc[g].1) {
        out := LoadGroup(out, group, doc[g].1.hosts);
        LoadAllAppend(Listings(doc[..g]), ListHosts(group, doc[g].1.hosts));
      }
    }
    assert doc[..|doc|] == doc;
  }

  lemma ListingsSnoc(doc: Document, g: nat)
    requires g < |doc|
    ensures Listings(doc[..g + 1]) ==
            Listings(doc[..g]) + if IsGroup(doc[g].0, doc[g].1) then ListHosts(Trim(doc[g].0), doc[g].1.hosts) else []
  {
    assert doc[..g + 1][..g] == doc[..g];
  }

  /** Loading more listings onto what has been loaded. */
  function LoadOnto(before: seq<(string, TargetNode)>, ls: seq<Listing>): (r: seq<(string, TargetNode)>) {
    if ls == [] then before else LoadOne(LoadOnto(before, ls[..|ls| - 1]), ls[|ls| - 1])
  }

  lemma {:induction false} LoadAllAppend(a: seq<Listing>, b: seq<Listing>)
    ensures LoadAll(a + b) == LoadOnto(LoadAll(a), b)
  {
    if b == [] {
      assert a + b == a;
    } else {
      var n := |b| - 1;
      assert (a + b)[..|a + b| - 1] == a + b[..n];
      LoadAllAppend(a, b[..n]);
    }
  }

  method LoadGroup(before: seq<(string, TargetNode)>, group: string, hosts: Hosts)
    returns (out: seq<(string, TargetNode)>)
    ensures out == LoadOnto(before, ListHosts(group, hosts))
  {
    out := before;
    var ls := ListHosts(group, hosts);
    for h := 0 to |hosts|
      invariant out == LoadOnto(before, ls[..h])
    {
      assert ls[..h + 1][..h] == ls[..h];
      out := LoadHost(out, group, hosts[h].0, hosts[h].1);
    }
    assert ls[..|hosts|] == ls;
  }

  method LoadHost(before: seq<(string, TargetNode)>, group: string, rawName: string, payload: Payload)
    returns (out: seq<(string, TargetNode)>)
    ensures out == LoadOne(before, Listing(group, rawName, payload))
  {
    var name := Trim(rawName);
    if name == "" {
      return before;
    }
    var t := NormalizeHost(name, payload, [group]);
    var known := Get(before, name);
    out := Put(before, name, if known.Some? then Merge(known.value, group, t) else t);
  }

  /** Hosts listed directly under `hosts`; later spellings of one name replace earlier ones. */
  function LoadHostsSection(hosts: Hosts): (out: seq<(string, TargetNode)>) {
    if hosts == [] then []
    else
      var n := |hosts| - 1;
      var name := Trim(hosts[n].0);
      if name == "" then LoadHostsSection(hosts[..n])
      else Put(LoadHostsSection(hosts[..n]), name, NormalizeHost(name, hosts[n].1, []))
  }

  predicate ById(a: TargetNode, b: TargetNode) {
    StrLess(a.hostId, b.hostId)
  }

  /** The hosts of a top-level section, if it is a mapping. */
  function SectionHosts(doc: Document, name: string): (hosts: Hosts) {
    var section: Option<Section> := Get(doc, name);
    if section.Some? && section.value.HostsSection? then section.value.hosts else []
  }

  // ----- the hierarchical form

  function LabelValues(labels: Labels): (entries: Settings) {
    seq(|labels|, i requires 0 <= i < |labels| => (labels[i].0, Scalar(labels[i].1)))
  }

  function Given(name: string, text: string): (entries: Settings) {
    if text == "" then [] else [(name, Scalar(text))]
  }

  /** The fields that name a host and its address. */
  function NamesOf(p: Payload): (entries: Settings) {
    Given("name", p.name) + Given("address", p.address) + Given("host", p.host) + Given("hostname", p.hostname)
    + Given("ansible_host", p.ansibleHost)
  }

  /** The mapping that is written for a host: the fields it has, in order. */
  function FieldsOf(p: Payload): (entries: Settings) {
    NamesOf(p)
    + (if p.labels == [] then [] else [("labels", Mapping(LabelValues(p.labels)))])
    + Given("credential", p.credential)
    + (if p.transport == [] then [] else [("transport", Mapping(p.transport))])
    + (if p.groups == [] then [] else [("groups", Scalar(""))])
  }

  /** What the entry with the given name holds if the hosts of a section are taken for entries. */
  function EntryOf(all: Hosts, name: string): (entries: Settings) {
    match Get(all, name) case None => [] case Some(p) => FieldsOf(p)
  }

  /** The entries under their trimmed names; of two spellings of one name the later one counts. */
  function NamedEntries(entries: Settings): (r: Settings) {
    if entries == [] then []
    else
      var n := |entries| - 1;
      var name := Trim(entries[n].0);
      if name == "" then NamedEntries(entries[..n]) else Put(NamedEntries(entries[..n]), name, entries[n].1)
  }

  /** Adds the entries whose trimmed names are new. */
  function AddDefaults(known: Settings, entries: Settings): (r: Settings) {
    if entries == [] then known
    else
      var n := |entries| - 1;
      var name := Trim(entries[n].0);
      var before := AddDefaults(known, entries[..n]);
      if name == "" || Get(before, name).Some? then before else before + [(name, entries[n].1)]
  }

  /** The entries of the mapping with the given name; none if it is not there or no mapping. */
  function MappingIn(entries: Settings, name: string): (held: Settings) {
    var v: Option<Value> := Get(entries, name);
    if v.Some? && v.value.Mapping? then v.value.entries else []
  }

  /** The hosts of a group body: what its `hosts` entry holds, if both are mappings. */
  function BodyHosts(body: Value): (entries: Settings) {
    if body.Scalar? then [] else MappingIn(body.entries, "hosts")
  }

  /** Adds the hosts of all groups, group by group; a group without a name is passed over. */
  function AddChildren(known: Settings, groups: Settings): (r: Settings) {
    if groups == [] then known
    else
      var n := |groups| - 1;
      var before := AddChildren(known, groups[..n]);
      if Trim(groups[n].0) == "" then before else AddDefaults(before, BodyHosts(groups[n].1))
  }

  /** The hosts that the hierarchical reader finds: first those under `hosts`, then those of the groups. */
  function NestedEntries(all: Hosts): (entries: Settings) {
    AddChildren(NamedEntries(EntryOf(all, "hosts")), EntryOf(all, "children"))
  }

  /** The transport settings of a host given by a value. */
  function TransportIn(v: Value): (transport: Settings) {
    if v.Scalar? then [] else MappingIn(v.entries, "transport")
  }

  /** Whatever else the reader makes of the value of a host, given the whole section. */
  type FieldReader = (Hosts, string) -> TargetNode

  /** The nodes of the hierarchical form: a host for every entry found. */
  function NestedHosts(all: Hosts, read: FieldReader): (out: seq<(string, TargetNode)>) {
    var found := NestedEntries(all);
    seq(|found|, i requires 0 <= i < |found| =>
      (found[i].0, read(all, found[i].0).(hostId := found[i].0, transport := TransportIn(found[i].1))))
  }

  /**
   The targets of a document, sorted by host id; None if it defines no host. The hosts section is searched
   first, then the hierarchical form, then all groups.
   */
  function LoadTargetsMapping(doc: Document, read: FieldReader): (r: Option<seq<TargetNode>>)
  {
    var listed := LoadHostsSection(SectionHosts(doc, "hosts"));
    var nested := NestedHosts(SectionHosts(doc, "all"), read);
    var hosts := if listed != [] then listed else if nested != [] then nested else LoadAll(Listings(doc));
    if hosts == [] then None else Some(Sort(Values(hosts), ById))
  }

  // ----- dumping

  function PayloadOf(t: TargetNode): (p: Payload) {
    EMPTY_PAYLOAD.(
      name := if t.name != t.hostId then t.name else "",
      address := if t.address.Some? then t.address.value else "",
      labels := t.labels,
      credential := if t.credential.Some? then t.credential.value else "",
      transport := t.transport)
  }

  function GroupsOf(t: TargetNode): (gs: seq<string>) {
    if t.groups == [] then ["default"] else t.groups
  }

  type Grouped = seq<(string, Hosts)>

  function HostsIn(d: Grouped, group: string): (h: Hosts) {
    match Get(d, group) case None => [] case Some(hosts) => hosts
  }

  function Place(d: Grouped, group: string, t: TargetNode): (r: Grouped) {
    Put(d, group, Put(HostsIn(d, group), t.hostId, PayloadOf(t)))
  }

  function PlaceAll(d: Grouped, groups: seq<string>, t: TargetNode): (r: Grouped) {
    if groups == [] then d else Place(PlaceAll(d, groups[..|groups| - 1], t), groups[|groups| - 1], t)
  }

  function DumpOf(ts: seq<TargetNode>): (d: Grouped) {
    if ts == [] then [] else PlaceAll(DumpOf(ts[..|ts| - 1]), GroupsOf(ts[|ts| - 1]), ts[|ts| - 1])
  }

  method DumpGroupedTargets(ts: seq<TargetNode>) returns (d: Grouped)
    ensures d == DumpOf(ts)
  {
    d := [];
    for i := 0 to |ts|
      invariant d == DumpOf(ts[..i])
    {
      assert ts[..i + 1][..i] == ts[..i];
      var groups := if ts[i].groups != [] then ts[i].groups else ["default"];
      for g := 0 to |groups|
        invariant d == PlaceAll(DumpOf(ts[..i]), groups[..g], ts[i])
      {
        assert groups[..g + 1][..g] == groups[..g];
        if Get(d, groups[g]) == None {
          GetPut(d, groups[g], [], groups[g]);
          PutTwice(d, groups[g], [], Put([], ts[i].hostId, PayloadOf(ts[i])));
          d := Put(d, groups[g], []);
        }
        var hosts := HostsIn(d, groups[g]);
        d := Put(d, groups[g], Put(hosts, ts[i].hostId, PayloadOf(ts[i])));
      }
      assert groups[..|groups|] == groups;
    }
    assert ts[..|ts|] == ts;
  }

  lemma {:induction false} PutTwice<K, V>(d: seq<(K, V)>, k: K, v: V, w: V)
    ensures Put(Put(d, k, v), k, w) == Put(d, k, w)
  {
    if d != [] && d[0].0 != k {
      PutTwice(d[1..], k, v, w);
      assert Put(d, k, v)[1..] == Put(d[1..], k, v);
    } else if d != [] {
      assert Put(d, k, v)[1..] == d[1..];
    }
  }

  /** A dumped inventory as a document. */
  function AsDocument(d: Grouped): (doc: Document) {
    seq(|d|, i requires 0 <= i < |d| => (d[i].0, HostsSection(d[i].1)))
  }
}
