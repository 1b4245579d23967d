/** The label set that publishes a node's topology.  Serialized JSON and sysfs-derived figures are
    given; what is modelled is which keys are written and what they count. */
module Labels {
  import opened Text
  import opened Sensors
  import opened Counts
  import opened Sorting
  import Slug
  import Lldp
  import Discover
  import opened Labeler

  const VENDOR := ACCEL_PREFIX + "vendor."
  const MODEL := ACCEL_PREFIX + "model."
  const MEMORY := ACCEL_PREFIX + "memory-kind."
  const FABRIC := TOPO_PREFIX + "fabric-domain."
  const COUNT := ".count"
  const PHYSICAL := ".physical-count"

  const RACK := TOPO_PREFIX + "rack"
  const RDMA := NET_PREFIX + "rdma"
  const TOTAL := ACCEL_PREFIX + "total-count"
  const BLOCK := TOPO_PREFIX + "block"
  const CHASSIS_COUNT := TOPO_PREFIX + "lldp.chassis-count"
  const SRIOV_TOTAL := ACCEL_PREFIX + "sriov.total"
  const SRIOV_CONFIGURED := ACCEL_PREFIX + "sriov.configured"
  const RDMA_DEVICES := NET_PREFIX + "rdma.devices-count"
  const DOMAINS_COUNT := TOPO_PREFIX + "fabric-domains-count"

  datatype Topology = Topology(
    block: Option<string>,
    rack: Option<string>,
    domains: seq<Discover.FabricDomain>,
    neighbors: seq<Lldp.Neighbor>,
    activeRoce: bool,
    rdmaDevices: nat)

  /** The JSON annotations, missing where serialization failed. */
  datatype Serialized = Serialized(
    inventory: Option<string>,
    fabricGraph: Option<string>,
    rdma: Option<string>,
    lldp: Option<string>)

  // Reading labels of one shape

  /** The labels of the shape `prefix key suffix` are exactly the entries of `m`. */
  ghost predicate Carries(labels: map<string, string>, prefix: string, suffix: string, m: map<string, nat>) {
    forall key: string ::
      && (prefix + key + suffix in labels <==> key in m)
      && (key in m ==> labels[prefix + key + suffix] == Decimal(m[key]))
  }

  /** `l` has not that shape. */
  ghost predicate Apart(l: string, prefix: string, suffix: string) {
    forall key: string :: prefix + key + suffix != l
  }

  lemma ApartByPrefix(l: string, prefix: string, suffix: string, i: nat)
    requires i < |prefix| && (i >= |l| || l[i] != prefix[i])
    ensures Apart(l, prefix, suffix)
  {
  }

  lemma ShapeInjective(prefix: string, suffix: string, a: string, b: string)
    requires prefix + a + suffix == prefix + b + suffix
    ensures a == b
  {
    var s, t := prefix + a + suffix, prefix + b + suffix;
    assert s[|prefix|..|s| - |suffix|] == a && t[|prefix|..|t| - |suffix|] == b;
  }

  lemma PutOther(labels: map<string, string>, l: string, v: string, prefix: string, suffix: string, m: map<string, nat>)
    requires Carries(labels, prefix, suffix, m) && Apart(l, prefix, suffix)
    ensures Carries(labels[l := v], prefix, suffix, m)
  {
  }

  lemma PutCount(labels: map<string, string>, key: string, prefix: string, suffix: string, m: map<string, nat>, n: nat)
    requires Carries(labels, prefix, suffix, m)
    ensures Carries(labels[prefix + key + suffix := Decimal(n)], prefix, suffix, m[key := n])
  {
    hide Decimal;
    forall k: string
      ensures prefix + k + suffix == prefix + key + suffix ==> k == key
    {
      if prefix + k + suffix == prefix + key + suffix {
        ShapeInjective(prefix, suffix, k, key);
      }
    }
  }

  /** `parse_count_labels`: strip the prefix, strip the suffix, parse the number. */
  method ParseCountLabels(labels: map<string, string>, prefix: string, suffix: string) returns (out: map<string, nat>)
    ensures forall key: string ::
      key in out <==> prefix + key + suffix in labels && ParseU64(labels[prefix + key + suffix]).Some?
    ensures forall key | key in out :: ParseU64(labels[prefix + key + suffix]) == Some(out[key])
  {
    hide ParseU64;
    out := map[];
    var todo := labels.Keys;
    while todo != {}
      invariant todo <= labels.Keys
      invariant Parsed(labels, prefix, suffix, labels.Keys - todo, out)
      decreases |todo|
    {
      hide Parsed, StripPrefix, StripSuffix;
      var l :| l in todo;
      ParsedStep(labels, prefix, suffix, labels.Keys - todo, l, out);
      var rest := StripPrefix(l, prefix);
      if rest.Some? {
        var key := StripSuffix(rest.value, suffix);
        if key.Some? {
          var n := ParseU64(labels[l]);
          if n.Some? {
            out := out[key.value := n.value];
          }
        }
      }
      assert labels.Keys - (todo - {l}) == labels.Keys - todo + {l};
      todo := todo - {l};
    }
    assert labels.Keys - {} == labels.Keys;
  }

  /** The labels in `done` have been read. */
  ghost predicate Parsed(labels: map<string, string>, prefix: string, suffix: string, done: set<string>,
                         out: map<string, nat>) {
    && (forall key: string :: key in out <==>
          prefix + key + suffix in done && prefix + key + suffix in labels
          && ParseU64(labels[prefix + key + suffix]).Some?)
    && (forall key | key in out ::
          prefix + key + suffix in labels && ParseU64(labels[prefix + key + suffix]) == Some(out[key]))
  }

  /** Stripping succeeds exactly on labels of the shape, and gives back the key. */
  lemma StripsBack(l: string, prefix: string, suffix: string)
    ensures var rest := StripPrefix(l, prefix);
      if rest.Some? && StripSuffix(rest.value, suffix).Some?
      then prefix + StripSuffix(rest.value, suffix).value + suffix == l
      else Apart(l, prefix, suffix)
  {
  }

  lemma ParsedStep(labels: map<string, string>, prefix: string, suffix: string, done: set<string>, l: string,
                   out: map<string, nat>)
    requires l in labels && Parsed(labels, prefix, suffix, done, out)
    ensures var rest := StripPrefix(l, prefix);
      Parsed(labels, prefix, suffix, done + {l},
        if rest.Some? && StripSuffix(rest.value, suffix).Some? && ParseU64(labels[l]).Some?
        then out[StripSuffix(rest.value, suffix).value := ParseU64(labels[l]).value] else out)
  {
    hide ParseU64, StripPrefix, StripSuffix;
    StripsBack(l, prefix, suffix);
    var rest := StripPrefix(l, prefix);
    if rest.Some? && StripSuffix(rest.value, suffix).Some? {
      var k := StripSuffix(rest.value, suffix).value;
      forall key: string | prefix + key + suffix == l
        ensures key == k
      {
        ShapeInjective(prefix, suffix, key, k);
      }
    }
  }

  /** Reading labels that carry some counts gives back exactly those counts. */
  lemma CarriedCountsReadBack(labels: map<string, string>, prefix: string, suffix: string, m: map<string, nat>,
                              out: map<string, nat>)
    requires Carries(labels, prefix, suffix, m) && forall k | k in m :: m[k] < U64_LIMIT
    requires forall key: string ::
      key in out <==> prefix + key + suffix in labels && ParseU64(labels[prefix + key + suffix]).Some?
    requires forall key | key in out :: ParseU64(labels[prefix + key + suffix]) == Some(out[key])
    ensures out == m
  {
    hide ParseU64, Decimal;
    forall key: string
      ensures key in out <==> key in m
      ensures key in m ==> out[key] == m[key]
    {
      if key in m {
        ParseDecimal(m[key]);
      }
    }
  }

  // Writing labels

  /** The families of counting labels. */
  datatype Family = Vendors | PhysicalCards | Models | MemoryKinds | Domains

  function PrefixOf(f: Family): string {
    match f
    case Vendors => VENDOR
    case PhysicalCards => VENDOR
    case Models => MODEL
    case MemoryKinds => MEMORY
    case Domains => FABRIC
  }

  function SuffixOf(f: Family): string {
    match f
    case PhysicalCards => PHYSICAL
    case Domains => ""
    case _ => COUNT
  }

  /** What a label set says: the counts of each family, and its other labels. */
  datatype View = View(tables: map<Family, map<string, nat>>, singles: map<string, string>)

  /** Every family's labels carry that family's counts. */
  ghost predicate CarriesAll(labels: map<string, string>, v: View) {
    forall f: Family :: f in v.tables && Carries(labels, PrefixOf(f), SuffixOf(f), v.tables[f])
  }

  /** The labels outside the families are exactly the view's. */
  ghost predicate ShowsSingles(labels: map<string, string>, v: View) {
    forall l | Single(l) :: Lookup(labels, l) == Lookup(v.singles, l)
  }

  ghost predicate Published(labels: map<string, string>, v: View) {
    && CarriesAll(labels, v) && ShowsSingles(labels, v)
    && AllManaged(labels)
    && forall l | l in labels :: !StartsWith(l, READY_PREFIX)
  }

  /** A label the daemon owns that is in no family and no readiness class. */
  ghost predicate Single(l: string) {
    && (forall f: Family :: Apart(l, PrefixOf(f), SuffixOf(f)))
    && IsManaged(l) && !StartsWith(l, READY_PREFIX)
  }

  lemma PutSingle(labels: map<string, string>, v: View, l: string, value: string)
    requires Published(labels, v) && Single(l)
    ensures Published(labels[l := value], v.(singles := v.singles[l := value]))
  {
    hide Carries, Apart, IsManaged, StartsWith;
    forall f: Family
      ensures Carries(labels[l := value], PrefixOf(f), SuffixOf(f), v.tables[f])
    {
      PutOther(labels, l, value, PrefixOf(f), SuffixOf(f), v.tables[f]);
    }
  }

  lemma SuffixesApart(a: string, b: string)
    ensures VENDOR + a + PHYSICAL != VENDOR + b + COUNT
  {
    var s, t := VENDOR + a + PHYSICAL, VENDOR + b + COUNT;
    assert s[|s| - 6] == PHYSICAL[|PHYSICAL| - 6] == '-';
    assert t[|t| - 6] == COUNT[0] == '.';
  }

  /** Labels of two families never coincide. */
  lemma FamiliesApart(f: Family, g: Family, key: string)
    requires f != g
    ensures Apart(PrefixOf(f) + key + SuffixOf(f), PrefixOf(g), SuffixOf(g))
  {
    hide Apart, IsManaged;
    var l := PrefixOf(f) + key + SuffixOf(f);
    assert forall i | 0 <= i < |PrefixOf(f)| :: l[i] == PrefixOf(f)[i];
    if PrefixOf(f) == PrefixOf(g) {
      SameVendorPrefix(f, g, key);
    } else if f.Domains? || g.Domains? {
      assert |VENDOR| > 5 && |MODEL| > 5 && |MEMORY| > 5 && |FABRIC| > 5;
      assert PrefixOf(f)[5] != PrefixOf(g)[5];
      ApartByPrefix(l, PrefixOf(g), SuffixOf(g), 5);
    } else if PrefixOf(f)[18] != PrefixOf(g)[18] {
      ApartByPrefix(l, PrefixOf(g), SuffixOf(g), 18);
    } else {
      assert PrefixOf(f)[19] != PrefixOf(g)[19];
      ApartByPrefix(l, PrefixOf(g), SuffixOf(g), 19);
    }
  }

  lemma SameVendorPrefix(f: Family, g: Family, key: string)
    requires f != g && PrefixOf(f) == PrefixOf(g)
    ensures Apart(PrefixOf(f) + key + SuffixOf(f), PrefixOf(g), SuffixOf(g))
  {
    PrefixesDiffer();
    forall other: string
      ensures PrefixOf(g) + other + SuffixOf(g) != PrefixOf(f) + key + SuffixOf(f)
    {
      if f.Vendors? {
        SuffixesApart(other, key);
      } else {
        SuffixesApart(key, other);
      }
    }
  }

  lemma PrefixesDiffer()
    ensures |{VENDOR, MODEL, MEMORY, FABRIC}| == 4
  {
  }

  lemma FamilyLabelIsOwned(f: Family, key: string)
    ensures var l := PrefixOf(f) + key + SuffixOf(f);
      IsManaged(l) && !StartsWith(l, READY_PREFIX) && !Single(l)
  {
    var p, l := PrefixOf(f), PrefixOf(f) + key + SuffixOf(f);
    assert l == p + (key + SuffixOf(f));
    assert forall i | 0 <= i < |p| :: l[i] == p[i];
    if f.Domains? {
      assert FABRIC == TOPO_PREFIX + "fabric-domain.";
      assert StartsWith(l, TOPO_PREFIX);
      PrefixMismatch(l, TOPO_PREFIX, READY_PREFIX, 6);
    } else {
      assert StartsWith(p, ACCEL_PREFIX) && |p| > 18;
      assert StartsWith(l, ACCEL_PREFIX);
      PrefixMismatch(l, ACCEL_PREFIX, READY_PREFIX, 5);
      assert l[5] == '.';
    }
  }

  lemma PutFamily(labels: map<string, string>, v: View, f: Family, m: map<string, nat>, key: string, n: nat)
    requires Published(labels, v) && f in v.tables && v.tables[f] == m
    ensures Published(labels[PrefixOf(f) + key + SuffixOf(f) := Decimal(n)], v.(tables := v.tables[f := m[key := n]]))
  {
    hide Carries, Apart, IsManaged, StartsWith, PrefixOf, SuffixOf, Decimal, Single;
    var l := PrefixOf(f) + key + SuffixOf(f);
    FamilyLabelIsOwned(f, key);
    forall g: Family
      ensures Carries(labels[l := Decimal(n)], PrefixOf(g), SuffixOf(g), if g == f then m[key := n] else v.tables[g])
    {
      if g == f {
        PutCount(labels, key, PrefixOf(f), SuffixOf(f), m, n);
      } else {
        FamiliesApart(f, g, key);
        PutOther(labels, l, Decimal(n), PrefixOf(g), SuffixOf(g), v.tables[g]);
      }
    }
  }

  /** The entries of `counts` not waiting in `todo`. */
  function Written(counts: map<string, nat>, todo: set<string>): map<string, nat> {
    map k | k in counts && k !in todo :: counts[k]
  }

  lemma WrittenSteps(counts: map<string, nat>, todo: set<string>, k: string)
    requires k in counts && k in todo
    ensures Written(counts, todo - {k}) == Written(counts, todo)[k := counts[k]]
  {
  }

  lemma WrittenEnds(counts: map<string, nat>)
    ensures Written(counts, counts.Keys) == map[] && Written(counts, {}) == counts
  {
  }

  /** One label per count: `<prefix><key><suffix>`. */
  method EmitCounts(labels: map<string, string>, f: Family, counts: map<string, nat>, ghost v: View)
    returns (out: map<string, string>)
    requires Published(labels, v) && f in v.tables && v.tables[f] == map[]
    ensures Published(out, v.(tables := v.tables[f := counts]))
  {
    hide *;
    out := labels;
    var todo := counts.Keys;
    WrittenEnds(counts);
    assert v.tables[f := Written(counts, todo)] == v.tables;
    while todo != {}
      invariant todo <= counts.Keys
      invariant Published(out, v.(tables := v.tables[f := Written(counts, todo)]))
      decreases |todo|
    {
      var k :| k in todo;
      ghost var w := Written(counts, todo);
      PutFamily(out, v.(tables := v.tables[f := w]), f, w, k, counts[k]);
      WrittenSteps(counts, todo, k);
      assert v.tables[f := w][f := w[k := counts[k]]] == v.tables[f := w[k := counts[k]]];
      out := out[PrefixOf(f) + k + SuffixOf(f) := Decimal(counts[k])];
      todo := todo - {k};
    }
  }

  /** `count_by` counts each accelerator under its key. */
  function Items(accels: seq<Accelerator>, key: Accelerator -> string): seq<(string, nat)> {
    seq(|accels|, i requires 0 <= i < |accels| => (key(accels[i]), 1))
  }

  method CountBy(accels: seq<Accelerator>, key: Accelerator -> string) returns (counts: map<string, nat>)
    ensures counts == Tally(Items(accels, key))
  {
    counts := map[];
    for i := 0 to |accels|
      invariant counts == Tally(Items(accels[..i], key))
    {
      hide Bump;
      assert Items(accels[..i + 1], key) == Items(accels[..i], key) + [(key(accels[i]), 1)];
      TallySnoc(Items(accels[..i], key), key(accels[i]), 1);
      counts := Bump(counts, key(accels[i]), 1);
    }
    assert accels[..|accels|] == accels;
  }

  lemma TallySnoc(items: seq<(string, nat)>, k: string, n: nat)
    ensures Tally(items + [(k, n)]) == Bump(Tally(items), k, n)
  {
  }

  function DomainItems(domains: seq<Discover.FabricDomain>): seq<(string, nat)> {
    seq(|domains|, i requires 0 <= i < |domains| => (domains[i].id, |domains[i].members|))
  }

  method CountDomains(domains: seq<Discover.FabricDomain>) returns (counts: map<string, nat>)
    ensures counts == Tally(DomainItems(domains))
  {
    counts := map[];
    for i := 0 to |domains|
      invariant counts == Tally(DomainItems(domains[..i]))
    {
      hide Bump;
      assert DomainItems(domains[..i + 1]) == DomainItems(domains[..i]) + [(domains[i].id, |domains[i].members|)];
      TallySnoc(DomainItems(domains[..i]), domains[i].id, |domains[i].members|);
      counts := Bump(counts, domains[i].id, |domains[i].members|);
    }
    assert domains[..|domains|] == domains;
  }

  /** The distinct parent directories of one vendor's accelerators. */
  function Parents(accels: seq<Accelerator>, vendor: string): set<string> {
    set a | a in accels && a.parent.Some? && a.id.vendor.Slug() == vendor :: a.parent.value
  }

  /** The physical cards of each vendor that has any: partitions of a card share its parent. */
  function PhysicalCounts(accels: seq<Accelerator>): map<string, nat> {
    var vendors := set a | a in accels && a.parent.Some? :: a.id.vendor.Slug();
    map v | v in vendors :: |Parents(accels, v)|
  }

  /** The parents seen so far, by vendor. */
  ghost predicate Gathered(accels: seq<Accelerator>, funcs: map<string, set<string>>) {
    && (forall v: string :: v in funcs <==> exists a :: a in accels && a.parent.Some? && a.id.vendor.Slug() == v)
    && (forall v | v in funcs :: funcs[v] == Parents(accels, v))
  }

  lemma GatherOne(accels: seq<Accelerator>, a: Accelerator, funcs: map<string, set<string>>)
    requires Gathered(accels, funcs)
    ensures var v := a.id.vendor.Slug();
      Gathered(accels + [a],
        if a.parent.None? then funcs else funcs[v := (if v in funcs then funcs[v] else {}) + {a.parent.value}])
  {
    forall v: string
      ensures Parents(accels + [a], v)
        == Parents(accels, v) + if a.parent.Some? && a.id.vendor.Slug() == v then {a.parent.value} else {}
      ensures v !in funcs ==> Parents(accels, v) == {}
    {
    }
  }

  method CountPhysical(accels: seq<Accelerator>) returns (counts: map<string, nat>)
    ensures counts == PhysicalCounts(accels)
  {
    var funcs: map<string, set<string>> := map[];
    for i := 0 to |accels|
      invariant Gathered(accels[..i], funcs)
    {
      hide Gathered;
      var a := accels[i];
      GatherOne(accels[..i], a, funcs);
      assert accels[..i + 1] == accels[..i] + [a];
      if a.parent.Some? {
        var v := a.id.vendor.Slug();
        funcs := funcs[v := (if v in funcs then funcs[v] else {}) + {a.parent.value}];
      }
    }
    assert accels[..|accels|] == accels;
    counts := map v | v in funcs :: |funcs[v]|;
  }

  lemma TopoSingle(rest: string)
    requires rest != "" && rest[0] != 'f'
    ensures Single(TOPO_PREFIX + rest)
  {
    hide Apart;
    var l := TOPO_PREFIX + rest;
    assert l[23] == rest[0] && l[5] == '-' && l[6] == 't';
    assert FABRIC[23] == 'f' && VENDOR[5] == MODEL[5] == MEMORY[5] == '.';
    forall f: Family
      ensures Apart(l, PrefixOf(f), SuffixOf(f))
    {
      ApartByPrefix(l, PrefixOf(f), SuffixOf(f), if f.Domains? then 23 else 5);
    }
    PrefixMismatch(l, TOPO_PREFIX, READY_PREFIX, 6);
  }

  lemma DomainsCountSingle()
    ensures Single(DOMAINS_COUNT)
  {
    hide Apart;
    var l := DOMAINS_COUNT;
    assert |FABRIC| == 37 && FABRIC[36] == '.' && l[36] == 's' && l[5] == '-' && l[6] == 't' && l[23] == 'f';
    assert VENDOR[5] == MODEL[5] == MEMORY[5] == '.';
    forall f: Family
      ensures Apart(l, PrefixOf(f), SuffixOf(f))
    {
      ApartByPrefix(l, PrefixOf(f), SuffixOf(f), if f.Domains? then 36 else 5);
    }
    assert StartsWith(l, TOPO_PREFIX);
    PrefixMismatch(l, TOPO_PREFIX, READY_PREFIX, 6);
  }

  lemma AccelSingle(rest: string)
    requires rest != "" && rest[0] !in {'v', 'm'}
    ensures Single(ACCEL_PREFIX + rest)
  {
    hide Apart;
    var l := ACCEL_PREFIX + rest;
    assert l[18] == rest[0] && l[5] == '.';
    assert VENDOR[18] == 'v' && MODEL[18] == MEMORY[18] == 'm' && FABRIC[5] == '-';
    forall f: Family
      ensures Apart(l, PrefixOf(f), SuffixOf(f))
    {
      ApartByPrefix(l, PrefixOf(f), SuffixOf(f), if f.Domains? then 5 else 18);
    }
    PrefixMismatch(l, ACCEL_PREFIX, READY_PREFIX, 5);
  }

  lemma NetSingle(rest: string)
    ensures Single(NET_PREFIX + rest)
  {
    hide Apart;
    var l := NET_PREFIX + rest;
    assert l[5] == '-' && l[6] == 'n';
    assert FABRIC[6] == 't' && VENDOR[5] == MODEL[5] == MEMORY[5] == '.';
    forall f: Family
      ensures Apart(l, PrefixOf(f), SuffixOf(f))
    {
      ApartByPrefix(l, PrefixOf(f), SuffixOf(f), if f.Domains? then 6 else 5);
    }
    PrefixMismatch(l, NET_PREFIX, READY_PREFIX, 6);
  }

  // The label set

  function VendorKey(a: Accelerator): string { a.id.vendor.Slug() }

  function ModelKey(a: Accelerator): string { Slug.LabelSlug(a.model) }

  function MemoryKey(a: Accelerator): string { a.memoryKind.Slug() }

  function NoView(): View {
    View(map[Vendors := map[], PhysicalCards := map[], Models := map[], MemoryKinds := map[], Domains := map[]], map[])
  }

  lemma NothingPublished()
    ensures Published(map[], NoView())
  {
    forall f: Family
      ensures f in NoView().tables && NoView().tables[f] == map[]
    {
      match f
      case Vendors =>
      case PhysicalCards =>
      case Models =>
      case MemoryKinds =>
      case Domains =>
    }
  }

  // The labels outside the families

  function OneIf(condition: bool, l: string, value: string): map<string, string> {
    if condition then map[l := value] else map[]
  }

  function PlaceLabels(t: Topology): map<string, string> {
    (if t.block.Some? then map[BLOCK := t.block.value] else map[])
    + if t.rack.Some? then map[RACK := t.rack.value] else map[]
  }

  /** The virtual functions of the cards that tell. */
  function SriovOf(accels: seq<Accelerator>): seq<(nat, nat)> {
    if accels == [] then []
    else
      var last := accels[|accels| - 1];
      SriovOf(accels[..|accels| - 1]) + if last.parent.Some? && last.sriov.Some? then [last.sriov.value] else []
  }

  function Largest(sriov: seq<(nat, nat)>): nat {
    if sriov == [] then 0
    else
      var before, last := Largest(sriov[..|sriov| - 1]), sriov[|sriov| - 1].0;
      if last > before then last else before
  }

  function Configured(sriov: seq<(nat, nat)>): nat {
    if sriov == [] then 0 else Configured(sriov[..|sriov| - 1]) + sriov[|sriov| - 1].1
  }

  function SriovLabels(accels: seq<Accelerator>): map<string, string> {
    var sriov := SriovOf(accels);
    if sriov == [] then map[]
    else map[SRIOV_TOTAL := Decimal(Largest(sriov)), SRIOV_CONFIGURED := Decimal(Configured(sriov))]
  }

  function RdmaLabels(t: Topology): map<string, string> {
    OneIf(t.activeRoce, RDMA, "present") + OneIf(t.rdmaDevices > 0, RDMA_DEVICES, Decimal(t.rdmaDevices))
  }

  function ChassisIds(neighbors: seq<Lldp.Neighbor>): set<string> {
    set n | n in neighbors :: n.chassisId
  }

  function ChassisLabel(n: Lldp.Neighbor): string {
    TOPO_PREFIX + ("lldp.chassis." + Lldp.RackSlug(n))
  }

  /** One label per chassis, named after the first neighbor that reported it. */
  function ChassisLabels(neighbors: seq<Lldp.Neighbor>): map<string, string> {
    if neighbors == [] then map[]
    else
      var before, last := neighbors[..|neighbors| - 1], neighbors[|neighbors| - 1];
      if last.chassisId in ChassisIds(before) then ChassisLabels(before)
      else ChassisLabels(before)[ChassisLabel(last) := "1"]
  }

  function LldpLabels(t: Topology): map<string, string> {
    if t.neighbors == [] then map[]
    else ChassisLabels(t.neighbors)[CHASSIS_COUNT := Decimal(|ChassisIds(t.neighbors)|)]
  }

  lemma ChassisLabelShape(n: Lldp.Neighbor)
    ensures var l := ChassisLabel(n);
      |l| > 35 && l[5] == '-' && l[6] == 't' && l[23] == 'l' && l[35] == '.'
  {
    hide Lldp.RackSlug;
    var l, p := ChassisLabel(n), "lldp.chassis.";
    assert |TOPO_PREFIX| == 23 && |p| == 13;
    assert l[5] == TOPO_PREFIX[5] && l[6] == TOPO_PREFIX[6] && l[23] == p[0] && l[35] == p[12];
  }

  lemma {:induction false} ChassisLabelsShape(neighbors: seq<Lldp.Neighbor>, l: string)
    requires l in ChassisLabels(neighbors)
    ensures |l| > 35 && l[5] == '-' && l[6] == 't' && l[23] == 'l' && l[35] == '.'
  {
    hide ChassisLabel, ChassisIds;
    var last := neighbors[|neighbors| - 1];
    if l == ChassisLabel(last) {
      ChassisLabelShape(last);
    } else {
      ChassisLabelsShape(neighbors[..|neighbors| - 1], l);
    }
  }

  lemma GetPlus(m: map<string, string>, n: map<string, string>, l: string)
    ensures Lookup(m + n, l) == if l in n then Lookup(n, l) else Lookup(m, l)
  {
  }

  lemma SriovKeys(accels: seq<Accelerator>)
    ensures forall l | l in SriovLabels(accels) :: |l| > 18 && l[5] == '.' && l[18] == 's'
  {
  }

  lemma RdmaKeys(t: Topology)
    ensures forall l | l in RdmaLabels(t) :: |l| > 6 && l[5] == '-' && l[6] == 'n'
    ensures Lookup(RdmaLabels(t), RDMA) == if t.activeRoce then Some("present") else None
  {
    hide Decimal;
    assert |RDMA| != |RDMA_DEVICES|;
    assert RDMA[5] == RDMA_DEVICES[5] == '-' && RDMA[6] == RDMA_DEVICES[6] == 'n';
  }

  lemma LldpKeys(t: Topology)
    ensures forall l | l in LldpLabels(t) :: |l| > 35 && l[5] == '-' && l[6] == 't' && l[23] == 'l'
    ensures t.neighbors != [] ==> Lookup(LldpLabels(t), CHASSIS_COUNT) == Some(Decimal(|ChassisIds(t.neighbors)|))
  {
    hide Decimal, ChassisLabels, ChassisIds;
    assert |CHASSIS_COUNT| > 35 && CHASSIS_COUNT[5] == '-' && CHASSIS_COUNT[6] == 't' && CHASSIS_COUNT[23] == 'l';
    forall l | l in ChassisLabels(t.neighbors)
      ensures |l| > 35 && l[5] == '-' && l[6] == 't' && l[23] == 'l'
    {
      ChassisLabelsShape(t.neighbors, l);
    }
  }

  lemma NamesDiffer()
    ensures RACK != BLOCK && RACK != DOMAINS_COUNT && RACK != TOTAL && RACK != RDMA
    ensures BLOCK != DOMAINS_COUNT && BLOCK != TOTAL && BLOCK != RDMA
    ensures DOMAINS_COUNT != TOTAL && DOMAINS_COUNT != RDMA && TOTAL != RDMA
  {
  }

  lemma PutApart(block: string, rack: string, domains: string, total: string, rdma: string, t: Topology,
                 d: string, n: string)
    requires rack != block && rack != domains && rack != total && rack != rdma
    requires block != domains && block != total && block != rdma
    requires domains != total && domains != rdma && total != rdma
    ensures var m := ((if t.block.Some? then map[block := t.block.value] else map[])
        + if t.rack.Some? then map[rack := t.rack.value] else map[])[domains := d][total := n];
      && Lookup(m, rack) == t.rack && Lookup(m, block) == t.block && Lookup(m, rdma).None?
      && Lookup(m, total) == Some(n) && Lookup(m, domains) == Some(d)
  {
  }

  lemma CommonKeys(t: Topology, accels: seq<Accelerator>)
    ensures var m := PlaceLabels(t)[DOMAINS_COUNT := Decimal(|t.domains|)][TOTAL := Decimal(|accels|)];
      && Lookup(m, RACK) == t.rack && Lookup(m, BLOCK) == t.block && Lookup(m, RDMA).None?
      && Lookup(m, TOTAL) == Some(Decimal(|accels|)) && Lookup(m, DOMAINS_COUNT) == Some(Decimal(|t.domains|))
  {
    hide Decimal, Lookup;
    NamesDiffer();
    PutApart(BLOCK, RACK, DOMAINS_COUNT, TOTAL, RDMA, t, Decimal(|t.domains|), Decimal(|accels|));
  }

  lemma LateKeys(t: Topology, accels: seq<Accelerator>)
    ensures RACK !in LldpLabels(t) && BLOCK !in LldpLabels(t) && RDMA !in LldpLabels(t) && TOTAL !in LldpLabels(t)
      && DOMAINS_COUNT !in LldpLabels(t)
    ensures RACK !in RdmaLabels(t) && BLOCK !in RdmaLabels(t) && TOTAL !in RdmaLabels(t)
      && DOMAINS_COUNT !in RdmaLabels(t)
    ensures RACK !in SriovLabels(accels) && BLOCK !in SriovLabels(accels) && RDMA !in SriovLabels(accels)
      && TOTAL !in SriovLabels(accels) && DOMAINS_COUNT !in SriovLabels(accels)
  {
    hide LldpLabels, RdmaLabels, SriovLabels, Decimal, Lookup, ChassisIds;
    LldpKeys(t);
    RdmaKeys(t);
    SriovKeys(accels);
    assert RACK[23] == 'r' && BLOCK[23] == 'b' && DOMAINS_COUNT[23] == 'f' && TOTAL[5] == '.' && TOTAL[18] == 't';
    assert RACK[5] == BLOCK[5] == DOMAINS_COUNT[5] == RDMA[5] == '-';
    assert RACK[6] == BLOCK[6] == DOMAINS_COUNT[6] == 't' && RDMA[6] == 'n';
  }

  /** The labels other programs read: where the node stands, whether it can be probed, how many
      accelerators, domains and switches it has. */
  lemma SinglesMeaning(t: Topology, accels: seq<Accelerator>)
    ensures var m := ViewOf(t, accels).singles;
      && Lookup(m, RACK) == t.rack && Lookup(m, BLOCK) == t.block
      && Lookup(m, RDMA) == (if t.activeRoce then Some("present") else None)
      && Lookup(m, TOTAL) == Some(Decimal(|accels|)) && Lookup(m, DOMAINS_COUNT) == Some(Decimal(|t.domains|))
      && (t.neighbors != [] ==> Lookup(m, CHASSIS_COUNT) == Some(Decimal(|ChassisIds(t.neighbors)|)))
  {
    hide Decimal, PlaceLabels, SriovLabels, RdmaLabels, LldpLabels, Lookup, ChassisIds, Tally, Items, DomainItems, PhysicalCounts;
    CommonKeys(t, accels);
    LateKeys(t, accels);
    RdmaKeys(t);
    LldpKeys(t);
    var m := PlaceLabels(t)[DOMAINS_COUNT := Decimal(|t.domains|)][TOTAL := Decimal(|accels|)];
    SinglesGet(t, accels, m, RACK);
    SinglesGet(t, accels, m, BLOCK);
    SinglesGet(t, accels, m, RDMA);
    SinglesGet(t, accels, m, TOTAL);
    SinglesGet(t, accels, m, DOMAINS_COUNT);
    SinglesGet(t, accels, m, CHASSIS_COUNT);
    PresentIs(LldpLabels(t), CHASSIS_COUNT);
    PresentIs(RdmaLabels(t), RDMA);
  }

  lemma SinglesGet(t: Topology, accels: seq<Accelerator>, m: map<string, string>, l: string)
    requires m == PlaceLabels(t)[DOMAINS_COUNT := Decimal(|t.domains|)][TOTAL := Decimal(|accels|)]
    ensures Lookup(ViewOf(t, accels).singles, l)
      == if l in LldpLabels(t) then Lookup(LldpLabels(t), l) else if l in RdmaLabels(t) then Lookup(RdmaLabels(t), l)
         else if l in SriovLabels(accels) then Lookup(SriovLabels(accels), l) else Lookup(m, l)
  {
    hide Decimal, PlaceLabels, SriovLabels, RdmaLabels, LldpLabels, Lookup, Tally, Items, DomainItems, PhysicalCounts;
    GetPlus(m + SriovLabels(accels) + RdmaLabels(t), LldpLabels(t), l);
    GetPlus(m + SriovLabels(accels), RdmaLabels(t), l);
    GetPlus(m, SriovLabels(accels), l);
  }

  lemma PresentIs(m: map<string, string>, l: string)
    ensures Lookup(m, l).Some? <==> l in m
  {
  }

  lemma KnownSingles()
    ensures Single(BLOCK) && Single(RACK) && Single(TOTAL) && Single(SRIOV_TOTAL) && Single(SRIOV_CONFIGURED)
    ensures Single(RDMA) && Single(RDMA_DEVICES) && Single(CHASSIS_COUNT) && Single(DOMAINS_COUNT)
  {
    hide Single;
    TopoSingle("block");
    TopoSingle("rack");
    AccelSingle("total-count");
    AccelSingle("sriov.total");
    AccelSingle("sriov.configured");
    NetSingle("rdma");
    NetSingle("rdma.devices-count");
    TopoSingle("lldp.chassis-count");
    DomainsCountSingle();
  }

  method PutPlace(t: Topology) returns (labels: map<string, string>)
    ensures Published(labels, NoView().(singles := PlaceLabels(t)))
  {
    hide Published, Single;
    labels := map[];
    ghost var v := NoView();
    NothingPublished();
    KnownSingles();
    if t.block.Some? {
      PutSingle(labels, v, BLOCK, t.block.value);
      labels := labels[BLOCK := t.block.value];
      v := v.(singles := v.singles[BLOCK := t.block.value]);
    }
    if t.rack.Some? {
      PutSingle(labels, v, RACK, t.rack.value);
      labels := labels[RACK := t.rack.value];
      v := v.(singles := v.singles[RACK := t.rack.value]);
    }
    assert v.singles == PlaceLabels(t);
  }

  /** Domain counts, one label per domain id, and how many domains there are. */
  method PutFabric(labels: map<string, string>, t: Topology, ghost v: View) returns (out: map<string, string>)
    requires Published(labels, v) && Domains in v.tables && v.tables[Domains] == map[]
    ensures Published(out, View(v.tables[Domains := Tally(DomainItems(t.domains))],
                                v.singles[DOMAINS_COUNT := Decimal(|t.domains|)]))
  {
    hide *;
    var counts := CountDomains(t.domains);
    out := EmitCounts(labels, Domains, counts, v);
    KnownSingles();
    PutSingle(out, v.(tables := v.tables[Domains := counts]), DOMAINS_COUNT, Decimal(|t.domains|));
    out := out[DOMAINS_COUNT := Decimal(|t.domains|)];
  }

  /** A view with the cards counted: by vendor, model and memory kind, and as physical cards. */
  function WithCards(v: View, accels: seq<Accelerator>): View {
    View(v.tables[Vendors := Tally(Items(accels, VendorKey))][Models := Tally(Items(accels, ModelKey))]
           [MemoryKinds := Tally(Items(accels, MemoryKey))][PhysicalCards := PhysicalCounts(accels)],
         v.singles[TOTAL := Decimal(|accels|)])
  }

  method PutCards(labels: map<string, string>, accels: seq<Accelerator>, ghost v: View) returns (out: map<string, string>)
    requires Published(labels, v)
    requires {Vendors, Models, MemoryKinds, PhysicalCards} <= v.tables.Keys
    requires forall f | f in {Vendors, Models, MemoryKinds, PhysicalCards} :: v.tables[f] == map[]
    ensures Published(out, WithCards(v, accels))
  {
    hide Published, Tally, Items, PhysicalCounts, Decimal, Single;
    var vendors := CountBy(accels, VendorKey);
    var models := CountBy(accels, ModelKey);
    var memory := CountBy(accels, MemoryKey);
    out := EmitCounts(labels, Vendors, vendors, v);
    ghost var v1 := v.(tables := v.tables[Vendors := vendors]);
    out := EmitCounts(out, Models, models, v1);
    ghost var v2 := v1.(tables := v1.tables[Models := models]);
    out := EmitCounts(out, MemoryKinds, memory, v2);
    ghost var v3 := v2.(tables := v2.tables[MemoryKinds := memory]);
    var cards := CountPhysical(accels);
    out := EmitCounts(out, PhysicalCards, cards, v3);
    ghost var v4 := v3.(tables := v3.tables[PhysicalCards := cards]);
    KnownSingles();
    PutSingle(out, v4, TOTAL, Decimal(|accels|));
    out := out[TOTAL := Decimal(|accels|)];
  }

  lemma NoSriov()
    ensures SriovOf([]) == [] && Largest([]) == 0 && Configured([]) == 0
  {
  }

  lemma SriovStep(accels: seq<Accelerator>, i: nat)
    requires i < |accels|
    ensures var before, after := SriovOf(accels[..i]), SriovOf(accels[..i + 1]);
      if accels[i].parent.Some? && accels[i].sriov.Some?
      then
        var (capacity, configured) := accels[i].sriov.value;
        && after != [] && Configured(after) == Configured(before) + configured
        && Largest(after) == if capacity > Largest(before) then capacity else Largest(before)
      else after == before
  {
    assert accels[..i + 1][..i] == accels[..i];
    var before, after := SriovOf(accels[..i]), SriovOf(accels[..i + 1]);
    if accels[i].parent.Some? && accels[i].sriov.Some? {
      assert after == before + [accels[i].sriov.value];
      assert after[..|after| - 1] == before;
    }
  }

  /** The largest capacity and the sum of what is configured, where any card says. */
  method PutSriov(labels: map<string, string>, accels: seq<Accelerator>, ghost v: View) returns (out: map<string, string>)
    requires Published(labels, v)
    ensures Published(out, v.(singles := v.singles + SriovLabels(accels)))
  {
    hide Published, Single, Decimal, SriovOf, Largest, Configured;
    NoSriov();
    var total, used, seen := 0, 0, false;
    for i := 0 to |accels|
      invariant seen <==> SriovOf(accels[..i]) != []
      invariant total == Largest(SriovOf(accels[..i])) && used == Configured(SriovOf(accels[..i]))
    {
      SriovStep(accels, i);
      if accels[i].parent.Some? && accels[i].sriov.Some? {
        var (capacity, configured) := accels[i].sriov.value;
        total := if capacity > total then capacity else total;
        used := used + configured;
        seen := true;
      }
    }
    assert accels[..|accels|] == accels;
    out := labels;
    KnownSingles();
    if seen {
      assert |SRIOV_TOTAL| != |SRIOV_CONFIGURED|;
      PutSingle(out, v, SRIOV_TOTAL, Decimal(total));
      out := out[SRIOV_TOTAL := Decimal(total)];
      ghost var w := v.(singles := v.singles[SRIOV_TOTAL := Decimal(total)]);
      PutSingle(out, w, SRIOV_CONFIGURED, Decimal(used));
      out := out[SRIOV_CONFIGURED := Decimal(used)];
      assert w.singles[SRIOV_CONFIGURED := Decimal(used)] == v.singles + SriovLabels(accels);
    } else {
      assert v.singles + SriovLabels(accels) == v.singles;
    }
  }

  lemma OneIfPlus(m: map<string, string>, condition: bool, l: string, value: string)
    ensures m + OneIf(condition, l, value) == if condition then m[l := value] else m
  {
  }

  lemma PlusPlus(a: map<string, string>, b: map<string, string>, c: map<string, string>)
    ensures a + b + c == a + (b + c)
  {
  }

  method PutRdma(labels: map<string, string>, t: Topology, ghost v: View) returns (out: map<string, string>)
    requires Published(labels, v)
    ensures Published(out, v.(singles := v.singles + RdmaLabels(t)))
  {
    hide Published, Single, Decimal, OneIf;
    KnownSingles();
    OneIfPlus(v.singles, t.activeRoce, RDMA, "present");
    ghost var first := v.singles + OneIf(t.activeRoce, RDMA, "present");
    OneIfPlus(first, t.rdmaDevices > 0, RDMA_DEVICES, Decimal(t.rdmaDevices));
    PlusPlus(v.singles, OneIf(t.activeRoce, RDMA, "present"),
             OneIf(t.rdmaDevices > 0, RDMA_DEVICES, Decimal(t.rdmaDevices)));
    out := labels;
    if t.activeRoce {
      PutSingle(out, v, RDMA, "present");
      out := out[RDMA := "present"];
    }
    if t.rdmaDevices > 0 {
      PutSingle(out, v.(singles := first), RDMA_DEVICES, Decimal(t.rdmaDevices));
      out := out[RDMA_DEVICES := Decimal(t.rdmaDevices)];
    }
  }

  lemma ChassisStep(neighbors: seq<Lldp.Neighbor>, i: nat)
    requires i < |neighbors|
    ensures ChassisIds(neighbors[..i + 1]) == ChassisIds(neighbors[..i]) + {neighbors[i].chassisId}
    ensures ChassisLabels(neighbors[..i + 1])
      == if neighbors[i].chassisId in ChassisIds(neighbors[..i]) then ChassisLabels(neighbors[..i])
         else ChassisLabels(neighbors[..i])[ChassisLabel(neighbors[i]) := "1"]
    ensures Single(ChassisLabel(neighbors[i]))
  {
    hide Single;
    assert neighbors[..i + 1][..i] == neighbors[..i];
    assert neighbors[..i + 1] == neighbors[..i] + [neighbors[i]];
    TopoSingle("lldp.chassis." + Lldp.RackSlug(neighbors[i]));
  }

  /** One label per switch chassis observed, and how many there are. */
  method PutLldp(labels: map<string, string>, t: Topology, ghost v: View) returns (out: map<string, string>)
    requires Published(labels, v)
    ensures Published(out, v.(singles := v.singles + LldpLabels(t)))
  {
    hide Published, Single, ChassisLabels, ChassisIds, Lldp.RackSlug, Decimal;
    out := labels;
    if t.neighbors == [] {
      assert v.singles + LldpLabels(t) == v.singles;
      return;
    }
    var seen: set<string> := {};
    NoChassis();
    assert v.singles + map[] == v.singles && t.neighbors[..0] == [];
    for i := 0 to |t.neighbors|
      invariant seen == ChassisIds(t.neighbors[..i])
      invariant Published(out, v.(singles := v.singles + ChassisLabels(t.neighbors[..i])))
    {
      var n := t.neighbors[i];
      var slug := Lldp.RackSlug(n);
      ChassisStep(t.neighbors, i);
      ghost var before := ChassisLabels(t.neighbors[..i]);
      if n.chassisId !in seen {
        var l := TOPO_PREFIX + ("lldp.chassis." + slug);
        PutSingle(out, v.(singles := v.singles + before), l, "1");
        assert (v.singles + before)[l := "1"] == v.singles + before[l := "1"];
        out := out[l := "1"];
      }
      seen := seen + {n.chassisId};
    }
    assert t.neighbors[..|t.neighbors|] == t.neighbors;
    KnownSingles();
    ghost var all := ChassisLabels(t.neighbors);
    PutSingle(out, v.(singles := v.singles + all), CHASSIS_COUNT, Decimal(|seen|));
    assert (v.singles + all)[CHASSIS_COUNT := Decimal(|seen|)] == v.singles + all[CHASSIS_COUNT := Decimal(|seen|)];
    out := out[CHASSIS_COUNT := Decimal(|seen|)];
  }

  lemma NoChassis()
    ensures ChassisIds([]) == {} && ChassisLabels([]) == map[]
  {
  }

  /** Annotations the daemon owns, none of them a readiness one. */
  ghost predicate OwnedAnnotations(annotations: map<string, string>) {
    AllManaged(annotations) && forall l | l in annotations :: !StartsWith(l, READY_PREFIX)
  }

  lemma OwnedKey(prefix: string, rest: string)
    requires prefix in {ACCEL_PREFIX, NET_PREFIX, TOPO_PREFIX}
    ensures IsManaged(prefix + rest) && !StartsWith(prefix + rest, READY_PREFIX)
  {
    var l := prefix + rest;
    assert l[5] == prefix[5] && l[6] == prefix[6] && l[7] == prefix[7];
    if prefix == ACCEL_PREFIX {
      PrefixMismatch(l, ACCEL_PREFIX, READY_PREFIX, 5);
    } else {
      PrefixMismatch(l, prefix, READY_PREFIX, 6);
    }
  }

  function Given(key: string, json: Option<string>): map<string, string> {
    if json.Some? then map[key := json.value] else map[]
  }

  const INVENTORY := ACCEL_PREFIX + "inventory"
  const FABRIC_GRAPH := ACCEL_PREFIX + "fabric-graph"
  const RDMA_INVENTORY := NET_PREFIX + "rdma-inventory"
  const LLDP_NEIGHBORS := TOPO_PREFIX + "lldp-neighbors"

  lemma KnownAnnotations()
    ensures forall key | key in {INVENTORY, FABRIC_GRAPH, RDMA_INVENTORY, LLDP_NEIGHBORS} ::
      IsManaged(key) && !StartsWith(key, READY_PREFIX)
  {
    hide IsManaged, StartsWith;
    OwnedKey(ACCEL_PREFIX, "inventory");
    OwnedKey(ACCEL_PREFIX, "fabric-graph");
    OwnedKey(NET_PREFIX, "rdma-inventory");
    OwnedKey(TOPO_PREFIX, "lldp-neighbors");
  }

  method Annotate(annotations: map<string, string>, key: string, json: Option<string>) returns (out: map<string, string>)
    requires OwnedAnnotations(annotations) && IsManaged(key) && !StartsWith(key, READY_PREFIX)
    ensures OwnedAnnotations(out) && out == annotations + Given(key, json)
  {
    hide IsManaged, StartsWith;
    out := annotations;
    if json.Some? {
      out := out[key := json.value];
    }
  }

  /** RDMA and LLDP details are attached only where there are any. */
  function JsonAnnotations(t: Topology, json: Serialized): map<string, string> {
    var always := map[] + Given(INVENTORY, json.inventory) + Given(FABRIC_GRAPH, json.fabricGraph);
    var rdma := if t.rdmaDevices > 0 then always + Given(RDMA_INVENTORY, json.rdma) else always;
    if t.neighbors != [] then rdma + Given(LLDP_NEIGHBORS, json.lldp) else rdma
  }

  /** What the labels of a node say about its place, domains and accelerators, and its links. */
  function BaseView(t: Topology): View {
    View(NoView().tables[Domains := Tally(DomainItems(t.domains))],
         PlaceLabels(t)[DOMAINS_COUNT := Decimal(|t.domains|)])
  }

  function ViewOf(t: Topology, accels: seq<Accelerator>): View {
    var v := WithCards(BaseView(t), accels);
    v.(singles := v.singles + SriovLabels(accels) + RdmaLabels(t) + LldpLabels(t))
  }

  method BuildLabels(t: Topology, accels: seq<Accelerator>) returns (labels: map<string, string>)
    ensures Published(labels, ViewOf(t, accels))
  {
    hide Published, Tally, Items, DomainItems, PhysicalCounts, Decimal, PlaceLabels, SriovLabels, RdmaLabels, LldpLabels,
      WithCards;
    labels := PutPlace(t);
    labels := PutFabric(labels, t, NoView().(singles := PlaceLabels(t)));
    labels := PutCards(labels, accels, BaseView(t));
    ghost var v := WithCards(BaseView(t), accels);
    labels := PutSriov(labels, accels, v);
    v := v.(singles := v.singles + SriovLabels(accels));
    labels := PutRdma(labels, t, v);
    v := v.(singles := v.singles + RdmaLabels(t));
    labels := PutLldp(labels, t, v);
  }

  method Build(t: Topology, accels: seq<Accelerator>, json: Serialized) returns (r: LabelSet)
    ensures Published(r.labels, ViewOf(t, accels))
    ensures OwnedAnnotations(r.annotations) && r.annotations == JsonAnnotations(t, json)
  {
    hide Published, OwnedAnnotations, Given, IsManaged, StartsWith, ViewOf;
    var labels := BuildLabels(t, accels);
    NoAnnotations();
    KnownAnnotations();
    var annotations := Annotate(map[], INVENTORY, json.inventory);
    annotations := Annotate(annotations, FABRIC_GRAPH, json.fabricGraph);
    if t.rdmaDevices > 0 {
      annotations := Annotate(annotations, RDMA_INVENTORY, json.rdma);
    }
    if t.neighbors != [] {
      annotations := Annotate(annotations, LLDP_NEIGHBORS, json.lldp);
    }
    r := LabelSet(labels, annotations);
  }

  lemma NoAnnotations()
    ensures OwnedAnnotations(map[])
  {
  }

  // Conservation

  lemma TablesAre(t: Topology, accels: seq<Accelerator>)
    ensures var tables := ViewOf(t, accels).tables;
      && {Vendors, Models, MemoryKinds, Domains, PhysicalCards} <= tables.Keys
      && tables[Vendors] == Tally(Items(accels, VendorKey)) && tables[Models] == Tally(Items(accels, ModelKey))
      && tables[MemoryKinds] == Tally(Items(accels, MemoryKey)) && tables[PhysicalCards] == PhysicalCounts(accels)
      && tables[Domains] == Tally(DomainItems(t.domains))
  {
    hide Tally, Items, DomainItems, PhysicalCounts, PlaceLabels, SriovLabels, RdmaLabels, LldpLabels, Decimal;
  }

  lemma {:induction false} ItemsAmount(accels: seq<Accelerator>, key: Accelerator -> string)
    ensures Amounts(Items(accels, key)) == |accels|
  {
    if accels != [] {
      var k := |accels| - 1;
      ItemsAmount(accels[..k], key);
      assert Items(accels, key)[..k] == Items(accels[..k], key);
    }
  }

  lemma {:induction false} DomainAmounts(domains: seq<Discover.FabricDomain>)
    ensures Amounts(DomainItems(domains)) == |Discover.AllMembers(domains)|
  {
    if domains != [] {
      var k := |domains| - 1;
      DomainAmounts(domains[..k]);
      assert DomainItems(domains)[..k] == DomainItems(domains[..k]);
    }
  }

  /** Vendor, model and memory counts each sum to the number of accelerators; so do the domain
      counts after discovery, even when two domains share an id. */
  lemma CountsSumToTotal(t: Topology, accels: seq<Accelerator>)
    requires multiset(Discover.AllMembers(t.domains)) == multiset(Discover.Ids(accels))
    ensures var tables := ViewOf(t, accels).tables;
      && {Vendors, Models, MemoryKinds, Domains} <= tables.Keys
      && Total(tables[Vendors]) == Total(tables[Models]) == Total(tables[MemoryKinds]) == |accels|
      && Total(tables[Domains]) == |accels|
  {
    hide Tally, Items, DomainItems, At, Total, ViewOf;
    TablesAre(t, accels);
    TallyConserves(Items(accels, VendorKey));
    TallyConserves(Items(accels, ModelKey));
    TallyConserves(Items(accels, MemoryKey));
    TallyConserves(DomainItems(t.domains));
    ItemsAmount(accels, VendorKey);
    ItemsAmount(accels, ModelKey);
    ItemsAmount(accels, MemoryKey);
    DomainAmounts(t.domains);
    assert |multiset(Discover.AllMembers(t.domains))| == |multiset(Discover.Ids(accels))|;
  }

  lemma {:induction false} AmountBounded(items: seq<(string, nat)>, k: string)
    ensures AmountOf(items, k) <= Amounts(items)
  {
    if items != [] {
      AmountBounded(items[..|items| - 1], k);
    }
  }

  lemma TallyBounded(items: seq<(string, nat)>, limit: nat)
    requires Amounts(items) < limit
    ensures forall k | k in Tally(items) :: Tally(items)[k] < limit
  {
    TallyConserves(items);
    forall k | k in Tally(items)
      ensures Tally(items)[k] < limit
    {
      AmountBounded(items, k);
      assert At(Tally(items), k) == AmountOf(items, k);
    }
  }

  /** No count is too large to be read back. */
  ghost predicate Readable(v: View) {
    forall f, k | f in v.tables && k in v.tables[f] :: v.tables[f][k] < U64_LIMIT
  }

  /** Decoding labels that carry a view's counts gives back its vendor, model and domain counts. */
  method ReadTables(labels: map<string, string>, ghost v: View)
    returns (vendors: map<string, nat>, models: map<string, nat>, fabric: map<string, nat>)
    requires CarriesAll(labels, v) && Readable(v)
    ensures {Vendors, Models, Domains} <= v.tables.Keys
    ensures vendors == v.tables[Vendors] && models == v.tables[Models] && fabric == v.tables[Domains]
  {
    hide Decimal, Carries;
    assert Carries(labels, PrefixOf(Vendors), SuffixOf(Vendors), v.tables[Vendors]);
    assert Carries(labels, PrefixOf(Models), SuffixOf(Models), v.tables[Models]);
    assert Carries(labels, PrefixOf(Domains), SuffixOf(Domains), v.tables[Domains]);
    vendors := ParseCountLabels(labels, VENDOR, COUNT);
    CarriedCountsReadBack(labels, VENDOR, COUNT, v.tables[Vendors], vendors);
    models := ParseCountLabels(labels, MODEL, COUNT);
    CarriedCountsReadBack(labels, MODEL, COUNT, v.tables[Models], models);
    fabric := ParseCountLabels(labels, FABRIC, "");
    CarriedCountsReadBack(labels, FABRIC, "", v.tables[Domains], fabric);
  }

  lemma {:induction false} PhysicalBounded(accels: seq<Accelerator>, vendor: string)
    ensures |Parents(accels, vendor)| <= |accels|
  {
    if accels != [] {
      var n := |accels| - 1;
      PhysicalBounded(accels[..n], vendor);
      assert accels == accels[..n] + [accels[n]];
      var more := if accels[n].parent.Some? then {accels[n].parent.value} else {};
      assert Parents(accels, vendor) <= Parents(accels[..n], vendor) + more;
      SubsetSize(Parents(accels, vendor), Parents(accels[..n], vendor) + more);
    }
  }

  /** The counts of a node with fewer than 2^64 accelerators are all readable. */
  lemma CountsAreReadable(t: Topology, accels: seq<Accelerator>)
    requires |accels| < U64_LIMIT && |Discover.AllMembers(t.domains)| < U64_LIMIT
    ensures Readable(ViewOf(t, accels))
  {
    hide Tally, Items, DomainItems, Parents, ViewOf;
    TablesAre(t, accels);
    ItemsAmount(accels, VendorKey);
    ItemsAmount(accels, ModelKey);
    ItemsAmount(accels, MemoryKey);
    DomainAmounts(t.domains);
    TallyBounded(Items(accels, VendorKey), U64_LIMIT);
    TallyBounded(Items(accels, ModelKey), U64_LIMIT);
    TallyBounded(Items(accels, MemoryKey), U64_LIMIT);
    TallyBounded(DomainItems(t.domains), U64_LIMIT);
    forall f, k | f in ViewOf(t, accels).tables && k in ViewOf(t, accels).tables[f]
      ensures ViewOf(t, accels).tables[f][k] < U64_LIMIT
    {
      match f
      case Vendors =>
      case Models =>
      case MemoryKinds =>
      case Domains =>
      case PhysicalCards => PhysicalBounded(accels, k);
    }
  }

  /** The round trip: decoding the built labels gives back exactly the counts, for every vendor,
      every model slug and every domain id. */
  method ReadBack(labels: map<string, string>, ghost t: Topology, ghost accels: seq<Accelerator>)
    returns (vendors: map<string, nat>, models: map<string, nat>, fabric: map<string, nat>)
    requires CarriesAll(labels, ViewOf(t, accels)) && |accels| < U64_LIMIT
    requires |Discover.AllMembers(t.domains)| < U64_LIMIT
    ensures vendors == Tally(Items(accels, VendorKey))
    ensures models == Tally(Items(accels, ModelKey))
    ensures fabric == Tally(DomainItems(t.domains))
  {
    hide Tally, Items, DomainItems, CarriesAll, Readable, ViewOf;
    TablesAre(t, accels);
    CountsAreReadable(t, accels);
    vendors, models, fabric := ReadTables(labels, ViewOf(t, accels));
  }
}
