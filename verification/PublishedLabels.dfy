/** What a built label set says, label by label: the names consumers of the labels use, and what each
    one counts in terms of the accelerators, domains and neighbors it was built from. */
module PublishedLabels {
  import opened Text
  import opened Sensors
  import opened Counts
  import Discover
  import Lldp
  import Slug
  import opened Labeler
  import Labels

  /** The label says `n`, and is left out where there is nothing to count. */
  ghost predicate Says(labels: map<string, string>, l: string, n: nat) {
    Lookup(labels, l) == if n == 0 then None else Some(Decimal(n))
  }

  // Names

  lemma FamilyNames()
    ensures Labels.PrefixOf(Labels.Vendors) == Labels.PrefixOf(Labels.PhysicalCards) == "accel.lunnova.dev/vendor."
    ensures Labels.PrefixOf(Labels.Models) == "accel.lunnova.dev/model."
    ensures Labels.PrefixOf(Labels.MemoryKinds) == "accel.lunnova.dev/memory-kind."
    ensures Labels.PrefixOf(Labels.Domains) == "accel-topo.lunnova.dev/fabric-domain."
  {
  }

  lemma FamilySuffixes()
    ensures Labels.SuffixOf(Labels.Vendors) == Labels.SuffixOf(Labels.Models) == ".count"
    ensures Labels.SuffixOf(Labels.MemoryKinds) == ".count"
    ensures Labels.SuffixOf(Labels.PhysicalCards) == ".physical-count" && Labels.SuffixOf(Labels.Domains) == ""
  {
  }

  lemma PlaceNames()
    ensures Labels.RACK == "accel-topo.lunnova.dev/rack" && Labels.BLOCK == "accel-topo.lunnova.dev/block"
    ensures Labels.RDMA == "accel-net.lunnova.dev/rdma" && Labels.TOTAL == "accel.lunnova.dev/total-count"
  {
  }

  lemma SriovNames()
    ensures Labels.SRIOV_TOTAL == "accel.lunnova.dev/sriov.total"
    ensures Labels.SRIOV_CONFIGURED == "accel.lunnova.dev/sriov.configured"
  {
  }

  lemma CountNames()
    ensures Labels.RDMA_DEVICES == "accel-net.lunnova.dev/rdma.devices-count"
    ensures Labels.DOMAINS_COUNT == "accel-topo.lunnova.dev/fabric-domains-count"
  {
  }

  lemma ChassisNames()
    ensures Labels.CHASSIS_COUNT == "accel-topo.lunnova.dev/lldp.chassis-count"
  {
  }

  lemma AnnotationNames()
    ensures Labels.INVENTORY == "accel.lunnova.dev/inventory"
    ensures Labels.FABRIC_GRAPH == "accel.lunnova.dev/fabric-graph"
    ensures Labels.RDMA_INVENTORY == "accel-net.lunnova.dev/rdma-inventory"
    ensures Labels.LLDP_NEIGHBORS == "accel-topo.lunnova.dev/lldp-neighbors"
  {
  }

  function VendorWord(v: Vendor): string {
    match v
    case Amd => "amd"
    case Nvidia => "nvidia"
    case Intel => "intel"
    case Other => "other"
  }

  function MemoryWord(kind: MemoryKind): string {
    match kind
    case Dedicated => "dedicated"
    case Unified => "unified"
    case Shared => "shared"
    case Unknown => "unknown"
  }

  // Counts

  /** Where in a list the accelerators of one key are. */
  function Keyed(accels: seq<Accelerator>, key: Accelerator -> string, k: string): set<int> {
    set i | 0 <= i < |accels| && key(accels[i]) == k
  }

  lemma OneMoreKeyed(accels: seq<Accelerator>, key: Accelerator -> string, k: string)
    ensures Keyed([], key, k) == {}
    ensures accels != [] ==>
      |Keyed(accels, key, k)|
        == |Keyed(accels[..|accels| - 1], key, k)| + if key(accels[|accels| - 1]) == k then 1 else 0
  {
    if accels != [] {
      var n := |accels| - 1;
      assert Keyed(accels, key, k) == Keyed(accels[..n], key, k) + if key(accels[n]) == k then {n} else {};
    }
  }

  /** The tally of a key has an entry exactly for the keys that occur, and counts how often. */
  lemma {:induction false} TallyOfKey(accels: seq<Accelerator>, key: Accelerator -> string, k: string)
    ensures var tally, n := Tally(Labels.Items(accels, key)), |Keyed(accels, key, k)|;
      (k in tally <==> n > 0) && (k in tally ==> tally[k] == n)
  {
    hide Keyed;
    OneMoreKeyed(accels, key, k);
    if accels != [] {
      var n := |accels| - 1;
      TallyOfKey(accels[..n], key, k);
      assert Labels.Items(accels, key)[..n] == Labels.Items(accels[..n], key);
      BumpAt(Tally(Labels.Items(accels[..n], key)), key(accels[n]), 1, k);
    }
  }

  /** Accelerators in all domains of one id. */
  function MembersUnder(domains: seq<Discover.FabricDomain>, id: string): nat {
    if domains == [] then 0
    else
      var last := domains[|domains| - 1];
      MembersUnder(domains[..|domains| - 1], id) + if last.id == id then |last.members| else 0
  }

  lemma {:induction false} TallyOfDomains(domains: seq<Discover.FabricDomain>, id: string)
    ensures var tally := Tally(Labels.DomainItems(domains));
      && (id in tally <==> exists d :: d in domains && d.id == id)
      && (id in tally ==> tally[id] == MembersUnder(domains, id))
      && (id !in tally ==> MembersUnder(domains, id) == 0)
  {
    if domains != [] {
      var k := |domains| - 1;
      TallyOfDomains(domains[..k], id);
      assert Labels.DomainItems(domains)[..k] == Labels.DomainItems(domains[..k]);
      assert domains == domains[..k] + [domains[k]];
    }
  }

  lemma SameKeys(accels: seq<Accelerator>, k: string)
    ensures Keyed(accels, Labels.VendorKey, k) == set i | 0 <= i < |accels| && VendorWord(accels[i].id.vendor) == k
    ensures Keyed(accels, Labels.ModelKey, k) == set i | 0 <= i < |accels| && Slug.LabelSlug(accels[i].model) == k
    ensures Keyed(accels, Labels.MemoryKey, k) == set i | 0 <= i < |accels| && MemoryWord(accels[i].memoryKind) == k
  {
    hide Slug.LabelSlug;
    assert forall v: Vendor :: v.Slug() == VendorWord(v);
    assert forall m: MemoryKind :: m.Slug() == MemoryWord(m);
  }

  /** The count labels of a built set: per vendor, model and memory kind the number of accelerators,
      per vendor the number of distinct parent devices, per domain id the number of members. */
  lemma CountLabels(labels: map<string, string>, t: Labels.Topology, accels: seq<Accelerator>, k: string)
    requires Labels.Published(labels, Labels.ViewOf(t, accels))
    ensures Says(labels, "accel.lunnova.dev/vendor." + k + ".count",
                 |set i | 0 <= i < |accels| && VendorWord(accels[i].id.vendor) == k|)
    ensures Says(labels, "accel.lunnova.dev/model." + k + ".count",
                 |set i | 0 <= i < |accels| && Slug.LabelSlug(accels[i].model) == k|)
    ensures Says(labels, "accel.lunnova.dev/memory-kind." + k + ".count",
                 |set i | 0 <= i < |accels| && MemoryWord(accels[i].memoryKind) == k|)
    ensures Says(labels, "accel.lunnova.dev/vendor." + k + ".physical-count",
                 |set a | a in accels && a.parent.Some? && VendorWord(a.id.vendor) == k :: a.parent.value|)
    ensures Lookup(labels, "accel-topo.lunnova.dev/fabric-domain." + k) ==
      if exists d :: d in t.domains && d.id == k then Some(Decimal(MembersUnder(t.domains, k))) else None
  {
    hide *;
    FamilyNames();
    FamilySuffixes();
    Labels.TablesAre(t, accels);
    KeyedCount(labels, t, accels, Labels.Vendors, Labels.VendorKey, k);
    KeyedCount(labels, t, accels, Labels.Models, Labels.ModelKey, k);
    KeyedCount(labels, t, accels, Labels.MemoryKinds, Labels.MemoryKey, k);
    SameKeys(accels, k);
    PhysicalCount(labels, t, accels, k);
    DomainCount(labels, t, accels, k);
    assert "accel-topo.lunnova.dev/fabric-domain." + k + "" == "accel-topo.lunnova.dev/fabric-domain." + k;
  }

  lemma KeyedCount(labels: map<string, string>, t: Labels.Topology, accels: seq<Accelerator>, f: Labels.Family,
                   key: Accelerator -> string, k: string)
    requires Labels.Published(labels, Labels.ViewOf(t, accels)) && f in Labels.ViewOf(t, accels).tables
    requires Labels.ViewOf(t, accels).tables[f] == Tally(Labels.Items(accels, key))
    ensures Says(labels, Labels.PrefixOf(f) + k + Labels.SuffixOf(f), |Keyed(accels, key, k)|)
  {
    hide Labels.ViewOf, Tally, Labels.Items, Decimal, Keyed, Labels.PrefixOf, Labels.SuffixOf, Labels.ShowsSingles;
    TallyOfKey(accels, key, k);
    assert Labels.Carries(labels, Labels.PrefixOf(f), Labels.SuffixOf(f), Labels.ViewOf(t, accels).tables[f]);
  }

  lemma PhysicalCount(labels: map<string, string>, t: Labels.Topology, accels: seq<Accelerator>, k: string)
    requires Labels.Published(labels, Labels.ViewOf(t, accels))
    ensures Says(labels, Labels.PrefixOf(Labels.PhysicalCards) + k + Labels.SuffixOf(Labels.PhysicalCards),
                 |set a | a in accels && a.parent.Some? && VendorWord(a.id.vendor) == k :: a.parent.value|)
  {
    hide Labels.ViewOf, Decimal, Labels.ShowsSingles, Labels.PrefixOf, Labels.SuffixOf;
    Labels.TablesAre(t, accels);
    var v := Labels.ViewOf(t, accels);
    assert Labels.Carries(labels, Labels.PrefixOf(Labels.PhysicalCards), Labels.SuffixOf(Labels.PhysicalCards),
                          v.tables[Labels.PhysicalCards]);
    var cards := set a | a in accels && a.parent.Some? && VendorWord(a.id.vendor) == k :: a.parent.value;
    assert cards == Labels.Parents(accels, k);
    if a :| a in accels && a.parent.Some? && VendorWord(a.id.vendor) == k {
      assert a.parent.value in cards;
    }
  }

  lemma DomainCount(labels: map<string, string>, t: Labels.Topology, accels: seq<Accelerator>, k: string)
    requires Labels.Published(labels, Labels.ViewOf(t, accels))
    ensures Lookup(labels, Labels.PrefixOf(Labels.Domains) + k + Labels.SuffixOf(Labels.Domains)) ==
      if exists d :: d in t.domains && d.id == k then Some(Decimal(MembersUnder(t.domains, k))) else None
  {
    hide Labels.ViewOf, Decimal, Tally, Labels.DomainItems, Labels.ShowsSingles, Labels.PrefixOf, Labels.SuffixOf;
    Labels.TablesAre(t, accels);
    TallyOfDomains(t.domains, k);
    var v := Labels.ViewOf(t, accels);
    assert Labels.Carries(labels, Labels.PrefixOf(Labels.Domains), Labels.SuffixOf(Labels.Domains),
                          v.tables[Labels.Domains]);
  }

  // The other labels

  predicate Tells(a: Accelerator) { a.parent.Some? && a.sriov.Some? }

  /** The virtual functions configured on the cards that tell. */
  function ConfiguredFunctions(accels: seq<Accelerator>): nat {
    if accels == [] then 0
    else
      var last := accels[|accels| - 1];
      ConfiguredFunctions(accels[..|accels| - 1]) + if Tells(last) then last.sriov.value.1 else 0
  }

  /** `n` is the largest capacity any card tells. */
  ghost predicate IsLargest(accels: seq<Accelerator>, n: nat) {
    && (exists a :: a in accels && Tells(a) && a.sriov.value.0 == n)
    && (forall a | a in accels && Tells(a) :: a.sriov.value.0 <= n)
  }

  ghost predicate NoneTells(accels: seq<Accelerator>) {
    forall a | a in accels :: !Tells(a)
  }

  lemma {:induction false} SriovFigures(accels: seq<Accelerator>)
    ensures var sriov := Labels.SriovOf(accels);
      && (sriov == [] <==> NoneTells(accels))
      && (sriov != [] ==> IsLargest(accels, Labels.Largest(sriov)))
      && Labels.Configured(sriov) == ConfiguredFunctions(accels)
  {
    if accels == [] {
      Labels.NoSriov();
    } else {
      hide Labels.SriovOf, Labels.Largest, Labels.Configured, IsLargest, NoneTells;
      var k := |accels| - 1;
      SriovFigures(accels[..k]);
      Labels.SriovStep(accels, k);
      assert accels[..k + 1] == accels && accels == accels[..k] + [accels[k]];
      LargestGrows(accels[..k], accels[k], Labels.SriovOf(accels[..k]));
    }
  }

  lemma LargestGrows(accels: seq<Accelerator>, a: Accelerator, sriov: seq<(nat, nat)>)
    requires sriov == [] <==> NoneTells(accels)
    requires sriov != [] ==> IsLargest(accels, Labels.Largest(sriov))
    ensures NoneTells(accels + [a]) <==> NoneTells(accels) && !Tells(a)
    ensures Tells(a) ==>
      var c := a.sriov.value.0;
      IsLargest(accels + [a], if c > Labels.Largest(sriov) then c else Labels.Largest(sriov))
    ensures !Tells(a) && sriov != [] ==> IsLargest(accels + [a], Labels.Largest(sriov))
  {
    var all := accels + [a];
    assert a in all && forall x | x in accels :: x in all;
  }

  /** The first neighbor to report its chassis. */
  ghost predicate IsFirst(neighbors: seq<Lldp.Neighbor>, i: nat)
    requires i < |neighbors|
  {
    forall j | 0 <= j < i :: neighbors[j].chassisId != neighbors[i].chassisId
  }

  lemma {:induction false} ChassisFigures(neighbors: seq<Lldp.Neighbor>, l: string)
    ensures Lookup(Labels.ChassisLabels(neighbors), l) == if NamesFirst(neighbors, l) then Some("1") else None
  {
    hide Labels.ChassisLabel, NamesFirst, Labels.ChassisIds;
    if neighbors == [] {
      NobodyNamed(l);
    } else {
      var k := |neighbors| - 1;
      ChassisFigures(neighbors[..k], l);
      OneMoreNeighbor(neighbors[..k], neighbors[k], l);
      assert neighbors == neighbors[..k] + [neighbors[k]];
    }
  }

  /** The label names a chassis after the first neighbor that reported it. */
  ghost predicate NamesFirst(neighbors: seq<Lldp.Neighbor>, l: string) {
    exists i :: 0 <= i < |neighbors| && IsFirst(neighbors, i) && Labels.ChassisLabel(neighbors[i]) == l
  }

  lemma NobodyNamed(l: string)
    ensures !NamesFirst([], l)
  {
  }

  lemma OneMoreNeighbor(neighbors: seq<Lldp.Neighbor>, n: Lldp.Neighbor, l: string)
    ensures NamesFirst(neighbors + [n], l) <==>
      || NamesFirst(neighbors, l)
      || (n.chassisId !in Labels.ChassisIds(neighbors) && Labels.ChassisLabel(n) == l)
  {
    hide Labels.ChassisLabel, Labels.ChassisIds, IsFirst;
    var all, k := neighbors + [n], |neighbors|;
    forall i | 0 <= i < k
      ensures IsFirst(all, i) <==> IsFirst(neighbors, i)
    {
      FirstBefore(neighbors, n, i);
    }
    FirstHere(neighbors, n);
    if i :| 0 <= i < k && IsFirst(neighbors, i) && Labels.ChassisLabel(neighbors[i]) == l {
      assert all[i] == neighbors[i];
    }
    if i :| 0 <= i <= k && IsFirst(all, i) && Labels.ChassisLabel(all[i]) == l {
      assert i < k ==> all[i] == neighbors[i];
    }
    assert all[k] == n;
  }

  lemma FirstBefore(neighbors: seq<Lldp.Neighbor>, n: Lldp.Neighbor, i: nat)
    requires i < |neighbors|
    ensures IsFirst(neighbors + [n], i) <==> IsFirst(neighbors, i)
  {
    assert forall j | 0 <= j < |neighbors| :: (neighbors + [n])[j] == neighbors[j];
  }

  lemma FirstHere(neighbors: seq<Lldp.Neighbor>, n: Lldp.Neighbor)
    ensures IsFirst(neighbors + [n], |neighbors|) <==> n.chassisId !in Labels.ChassisIds(neighbors)
  {
    var all, k := neighbors + [n], |neighbors|;
    assert forall j | 0 <= j < k :: all[j] == neighbors[j];
    if n.chassisId in Labels.ChassisIds(neighbors) {
      var m :| m in neighbors && m.chassisId == n.chassisId;
      var j :| 0 <= j < k && neighbors[j] == m;
      assert all[j].chassisId == all[k].chassisId;
    } else {
      forall j | 0 <= j < k
        ensures all[j].chassisId != all[k].chassisId
      {
        assert neighbors[j] in neighbors;
      }
    }
  }

  /** The labels of the place and the total start as no other does. */
  lemma BaseKeys(t: Labels.Topology, d: string, n: string)
    ensures forall l | l in Labels.PlaceLabels(t)[Labels.DOMAINS_COUNT := d][Labels.TOTAL := n] ::
      || (|l| > 23 && l[5] == '-' && l[6] == 't' && l[23] in {'r', 'b', 'f'})
      || (|l| > 18 && l[5] == '.' && l[18] == 't')
  {
    assert Labels.RACK[23] == 'r' && Labels.BLOCK[23] == 'b' && Labels.DOMAINS_COUNT[23] == 'f';
    assert Labels.TOTAL[5] == '.' && Labels.TOTAL[18] == 't';
  }

  /** Labels of virtual functions, RDMA devices and chassis are published by their own steps only. */
  lemma LateSingle(t: Labels.Topology, accels: seq<Accelerator>, l: string)
    ensures var v := Labels.ViewOf(t, accels).singles;
      && (|l| > 18 && l[5] == '.' && l[18] == 's' ==> Lookup(v, l) == Lookup(Labels.SriovLabels(accels), l))
      && (|l| > 6 && l[5] == '-' && l[6] == 'n' ==> Lookup(v, l) == Lookup(Labels.RdmaLabels(t), l))
      && (|l| > 35 && l[5] == '-' && l[6] == 't' && l[23] == 'l' ==> Lookup(v, l) == Lookup(Labels.LldpLabels(t), l))
  {
    hide *;
    var m := Labels.PlaceLabels(t)[Labels.DOMAINS_COUNT := Decimal(|t.domains|)][Labels.TOTAL := Decimal(|accels|)];
    BaseKeys(t, Decimal(|t.domains|), Decimal(|accels|));
    Labels.SinglesGet(t, accels, m, l);
    Labels.SriovKeys(accels);
    Labels.RdmaKeys(t);
    Labels.LldpKeys(t);
    Missing(m, l);
    Missing(Labels.SriovLabels(accels), l);
    Missing(Labels.RdmaLabels(t), l);
    Missing(Labels.LldpLabels(t), l);
  }

  lemma Missing(m: map<string, string>, l: string)
    ensures l !in m ==> Lookup(m, l).None?
  {
  }

  lemma ShownAs(labels: map<string, string>, t: Labels.Topology, accels: seq<Accelerator>, l: string)
    requires Labels.Published(labels, Labels.ViewOf(t, accels)) && Labels.Single(l)
    ensures Lookup(labels, l) == Lookup(Labels.ViewOf(t, accels).singles, l)
  {
    hide Labels.ViewOf, Labels.CarriesAll, Labels.Single, Lookup;
  }

  /** Where the node stands, whether it takes part in RoCE, and how many accelerators and domains it
      has. */
  lemma PlaceLabels(labels: map<string, string>, t: Labels.Topology, accels: seq<Accelerator>)
    requires Labels.Published(labels, Labels.ViewOf(t, accels))
    ensures Lookup(labels, "accel-topo.lunnova.dev/rack") == t.rack
    ensures Lookup(labels, "accel-topo.lunnova.dev/block") == t.block
    ensures Lookup(labels, "accel-net.lunnova.dev/rdma") == if t.activeRoce then Some("present") else None
    ensures Lookup(labels, "accel.lunnova.dev/total-count") == Some(Decimal(|accels|))
    ensures Lookup(labels, "accel-topo.lunnova.dev/fabric-domains-count") == Some(Decimal(|t.domains|))
  {
    hide *;
    PlaceNames();
    CountNames();
    Labels.KnownSingles();
    Labels.SinglesMeaning(t, accels);
    ShownAs(labels, t, accels, Labels.RACK);
    ShownAs(labels, t, accels, Labels.BLOCK);
    ShownAs(labels, t, accels, Labels.RDMA);
    ShownAs(labels, t, accels, Labels.TOTAL);
    ShownAs(labels, t, accels, Labels.DOMAINS_COUNT);
  }

  /** RDMA devices; and where some card tells its virtual functions, the largest capacity and the sum
      of those configured. */
  lemma CapacityLabels(labels: map<string, string>, t: Labels.Topology, accels: seq<Accelerator>)
    requires Labels.Published(labels, Labels.ViewOf(t, accels))
    ensures Says(labels, "accel-net.lunnova.dev/rdma.devices-count", t.rdmaDevices)
    ensures var total := Lookup(labels, "accel.lunnova.dev/sriov.total");
      var used := Lookup(labels, "accel.lunnova.dev/sriov.configured");
      if exists a :: a in accels && Tells(a)
      then
        && (exists n :: IsLargest(accels, n) && total == Some(Decimal(n)))
        && used == Some(Decimal(ConfiguredFunctions(accels)))
      else total.None? && used.None?
  {
    hide *;
    SriovNames();
    CountNames();
    Labels.KnownSingles();
    ShownAs(labels, t, accels, Labels.RDMA_DEVICES);
    ShownAs(labels, t, accels, Labels.SRIOV_TOTAL);
    ShownAs(labels, t, accels, Labels.SRIOV_CONFIGURED);
    LateShapes();
    LateSingle(t, accels, Labels.RDMA_DEVICES);
    LateSingle(t, accels, Labels.SRIOV_TOTAL);
    LateSingle(t, accels, Labels.SRIOV_CONFIGURED);
    DevicesLabel(t, labels);
    SriovFigures(accels);
    SomeTells(accels);
    FunctionLabels(accels);
  }

  lemma SomeTells(accels: seq<Accelerator>)
    ensures NoneTells(accels) <==> !exists a :: a in accels && Tells(a)
  {
  }

  lemma LateShapes()
    ensures var l := Labels.RDMA_DEVICES; |l| > 6 && l[5] == '-' && l[6] == 'n'
    ensures forall l | l in {Labels.SRIOV_TOTAL, Labels.SRIOV_CONFIGURED} :: |l| > 18 && l[5] == '.' && l[18] == 's'
    ensures var l := Labels.CHASSIS_COUNT; |l| > 35 && l[5] == '-' && l[6] == 't' && l[23] == 'l' && l[35] == '-'
  {
  }

  lemma DevicesLabel(t: Labels.Topology, labels: map<string, string>)
    requires Lookup(labels, Labels.RDMA_DEVICES) == Lookup(Labels.RdmaLabels(t), Labels.RDMA_DEVICES)
    ensures Says(labels, Labels.RDMA_DEVICES, t.rdmaDevices)
  {
    hide Decimal;
    assert |Labels.RDMA| != |Labels.RDMA_DEVICES|;
  }

  lemma FunctionLabels(accels: seq<Accelerator>)
    ensures var sriov, m := Labels.SriovOf(accels), Labels.SriovLabels(accels);
      && (sriov == [] ==> Lookup(m, Labels.SRIOV_TOTAL).None? && Lookup(m, Labels.SRIOV_CONFIGURED).None?)
      && (sriov != [] ==>
            && Lookup(m, Labels.SRIOV_TOTAL) == Some(Decimal(Labels.Largest(sriov)))
            && Lookup(m, Labels.SRIOV_CONFIGURED) == Some(Decimal(Labels.Configured(sriov))))
  {
    hide Decimal, Labels.SriovOf, Labels.Largest, Labels.Configured;
    assert |Labels.SRIOV_TOTAL| != |Labels.SRIOV_CONFIGURED|;
  }

  /** One label per switch chassis, named by the rack slug of the first neighbor that reported it, and
      the number of chassis; none of these without neighbors. */
  lemma ChassisLabels(labels: map<string, string>, t: Labels.Topology, accels: seq<Accelerator>, slug: string)
    requires Labels.Published(labels, Labels.ViewOf(t, accels))
    ensures Lookup(labels, "accel-topo.lunnova.dev/lldp.chassis." + slug) ==
      if exists i :: 0 <= i < |t.neighbors| && IsFirst(t.neighbors, i) && Lldp.RackSlug(t.neighbors[i]) == slug
      then Some("1") else None
    ensures Says(labels, "accel-topo.lunnova.dev/lldp.chassis-count", |set n | n in t.neighbors :: n.chassisId|)
  {
    hide *;
    ChassisNames();
    Labels.KnownSingles();
    LateShapes();
    ShownAs(labels, t, accels, Labels.CHASSIS_COUNT);
    LateSingle(t, accels, Labels.CHASSIS_COUNT);
    CountOfChassis(t, labels);
    var l := ChassisName(slug);
    Labels.TopoSingle("lldp.chassis." + slug);
    ShownAs(labels, t, accels, l);
    LateSingle(t, accels, l);
    NamedChassis(t, slug, l);
    ChassisFigures(t.neighbors, l);
  }

  lemma ChassisName(slug: string) returns (l: string)
    ensures l == TOPO_PREFIX + ("lldp.chassis." + slug) == "accel-topo.lunnova.dev/lldp.chassis." + slug
    ensures "lldp.chassis." + slug != "" && ("lldp.chassis." + slug)[0] == 'l'
    ensures |l| > 35 && l[5] == '-' && l[6] == 't' && l[23] == 'l' && l[35] == '.'
    ensures forall other :: TOPO_PREFIX + ("lldp.chassis." + other) == l ==> other == slug
  {
    l := TOPO_PREFIX + ("lldp.chassis." + slug);
    assert TOPO_PREFIX + "lldp.chassis." == "accel-topo.lunnova.dev/lldp.chassis.";
    assert l == TOPO_PREFIX + "lldp.chassis." + slug;
    assert |TOPO_PREFIX + "lldp.chassis."| == 36;
    forall other | TOPO_PREFIX + ("lldp.chassis." + other) == l
      ensures other == slug
    {
      assert (TOPO_PREFIX + ("lldp.chassis." + other))[36..] == other && l[36..] == slug;
    }
  }

  lemma NamedChassis(t: Labels.Topology, slug: string, l: string)
    requires l == TOPO_PREFIX + ("lldp.chassis." + slug) && |l| > 35 && l[35] == '.'
    requires forall other :: TOPO_PREFIX + ("lldp.chassis." + other) == l ==> other == slug
    ensures Lookup(Labels.LldpLabels(t), l) == Lookup(Labels.ChassisLabels(t.neighbors), l)
    ensures NamesFirst(t.neighbors, l) <==>
      exists i :: 0 <= i < |t.neighbors| && IsFirst(t.neighbors, i) && Lldp.RackSlug(t.neighbors[i]) == slug
  {
    hide Labels.ChassisIds, Decimal, IsFirst, Lldp.RackSlug;
    LateShapes();
  }

  lemma CountOfChassis(t: Labels.Topology, labels: map<string, string>)
    requires Lookup(labels, Labels.CHASSIS_COUNT) == Lookup(Labels.LldpLabels(t), Labels.CHASSIS_COUNT)
    ensures Says(labels, Labels.CHASSIS_COUNT, |set n | n in t.neighbors :: n.chassisId|)
  {
    hide Decimal, Labels.ChassisLabels;
    assert (set n | n in t.neighbors :: n.chassisId) == Labels.ChassisIds(t.neighbors);
    if t.neighbors != [] {
      assert t.neighbors[0].chassisId in Labels.ChassisIds(t.neighbors);
    }
  }

  /** The annotations of a built set: the four JSON documents, each where it serialized, those on RDMA
      and LLDP only where there is something to tell. */
  lemma AnnotationsMeaning(t: Labels.Topology, json: Labels.Serialized)
    ensures var m := Labels.JsonAnnotations(t, json);
      && Lookup(m, "accel.lunnova.dev/inventory") == json.inventory
      && Lookup(m, "accel.lunnova.dev/fabric-graph") == json.fabricGraph
      && Lookup(m, "accel-net.lunnova.dev/rdma-inventory") == (if t.rdmaDevices > 0 then json.rdma else None)
      && Lookup(m, "accel-topo.lunnova.dev/lldp-neighbors") == (if t.neighbors != [] then json.lldp else None)
      && m.Keys <= {"accel.lunnova.dev/inventory", "accel.lunnova.dev/fabric-graph",
                    "accel-net.lunnova.dev/rdma-inventory", "accel-topo.lunnova.dev/lldp-neighbors"}
  {
    AnnotationNames();
    AnnotationNamesDiffer();
    FourGiven(t, json, Labels.INVENTORY, Labels.FABRIC_GRAPH, Labels.RDMA_INVENTORY, Labels.LLDP_NEIGHBORS);
  }

  lemma AnnotationNamesDiffer()
    ensures |{Labels.INVENTORY, Labels.FABRIC_GRAPH, Labels.RDMA_INVENTORY, Labels.LLDP_NEIGHBORS}| == 4
    ensures Labels.INVENTORY !in {Labels.FABRIC_GRAPH, Labels.RDMA_INVENTORY, Labels.LLDP_NEIGHBORS}
    ensures Labels.FABRIC_GRAPH !in {Labels.RDMA_INVENTORY, Labels.LLDP_NEIGHBORS}
    ensures Labels.RDMA_INVENTORY != Labels.LLDP_NEIGHBORS
  {
    assert Labels.INVENTORY[5] == Labels.FABRIC_GRAPH[5] == '.';
    assert Labels.RDMA_INVENTORY[5] == Labels.LLDP_NEIGHBORS[5] == '-';
    assert Labels.INVENTORY[18] != Labels.FABRIC_GRAPH[18] && Labels.RDMA_INVENTORY[6] != Labels.LLDP_NEIGHBORS[6];
  }

  lemma FourGiven(t: Labels.Topology, json: Labels.Serialized, a: string, b: string, c: string, d: string)
    requires a !in {b, c, d} && b !in {c, d} && c != d
    ensures var m := map[] + Labels.Given(a, json.inventory) + Labels.Given(b, json.fabricGraph)
        + (if t.rdmaDevices > 0 then Labels.Given(c, json.rdma) else map[])
        + (if t.neighbors != [] then Labels.Given(d, json.lldp) else map[]);
      && Lookup(m, a) == json.inventory && Lookup(m, b) == json.fabricGraph
      && Lookup(m, c) == (if t.rdmaDevices > 0 then json.rdma else None)
      && Lookup(m, d) == (if t.neighbors != [] then json.lldp else None)
      && m.Keys <= {a, b, c, d}
  {
  }
}
