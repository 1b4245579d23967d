/** The admin reader: a node's verdict from its strongest source, and the cluster summary. */
module Admin {
  import opened Text
  import opened MergePatch
  import opened NodeObject
  import opened Counts
  import Annotations
  import Preflight

  datatype VerdictSource = Pair | Loopback | Readiness

  datatype ProbeRecord = ProbeRecord(
    at: Option<string>,
    bandwidth: Option<real>,
    partner: Option<string>,
    verdict: Option<string>,
    source: VerdictSource,
    reason: Option<string>)

  /** Parsing a bandwidth figure: any partial function on strings. */
  type ParseFigure = string -> Option<real>

  function IsEmpty(r: ProbeRecord): bool {
    r.at.None? && r.bandwidth.None? && r.partner.None? && r.verdict.None?
  }

  function ReadOptional(annotations: map<string, string>, key: string): Option<string> {
    if key in annotations && annotations[key] != "" then Some(annotations[key]) else None
  }

  function ReadFigure(annotations: map<string, string>, key: string, parse: ParseFigure): Option<real> {
    if key in annotations then parse(annotations[key]) else None
  }

  function ReadFamily(annotations: map<string, string>, keys: Annotations.Keys, source: VerdictSource, parse: ParseFigure)
    : Option<ProbeRecord>
  {
    var r := ProbeRecord(
      ReadOptional(annotations, keys.lastAt),
      ReadFigure(annotations, keys.bwAvg, parse),
      if keys.lastPartner.Some? then ReadOptional(annotations, keys.lastPartner.value) else None,
      ReadOptional(annotations, keys.verdict),
      source,
      ReadOptional(annotations, keys.reason));
    if IsEmpty(r) then None else Some(r)
  }

  function ReadPreflight(labels: map<string, string>, annotations: map<string, string>): Option<ProbeRecord> {
    if Preflight.INFERENCE !in labels then None
    else
      var inference := labels[Preflight.INFERENCE];
      Some(ProbeRecord(
        ReadOptional(annotations, Preflight.LAST_CHECK), None, None,
        Some(if inference == "true" then "ok" else if inference == "false" then "fail" else inference),
        Readiness,
        ReadOptional(annotations, Preflight.FAILED)))
  }

  /** An annotation that is there and not empty. */
  lemma ReadOptionalMeaning(annotations: map<string, string>, key: string, x: string)
    ensures ReadOptional(annotations, key) == Some(x) <==> Lookup(annotations, key) == Some(x) && x != ""
  {
  }

  /** The record of a family: each field is the annotation of that name, empty ones counting as
      missing; there is none exactly when time, figure, partner and verdict are all missing. */
  lemma ReadFamilyMeaning(annotations: map<string, string>, keys: Annotations.Keys, source: VerdictSource,
                          parse: ParseFigure)
    ensures var rec := ReadFamily(annotations, keys, source, parse);
      var figure := Lookup(annotations, keys.bwAvg);
      && (rec.None? <==>
            && Lookup(annotations, keys.lastAt) in {None, Some("")}
            && Lookup(annotations, keys.verdict) in {None, Some("")}
            && (keys.lastPartner.Some? ==> Lookup(annotations, keys.lastPartner.value) in {None, Some("")})
            && (figure.Some? ==> parse(figure.value).None?))
      && (rec.Some? ==>
            && rec.value.source == source
            && rec.value.bandwidth == (if figure.Some? then parse(figure.value) else None)
            && forall x ::
              && (rec.value.at == Some(x) <==> Lookup(annotations, keys.lastAt) == Some(x) && x != "")
              && (rec.value.verdict == Some(x) <==> Lookup(annotations, keys.verdict) == Some(x) && x != "")
              && (rec.value.reason == Some(x) <==> Lookup(annotations, keys.reason) == Some(x) && x != "")
              && (rec.value.partner == Some(x) <==>
                    && keys.lastPartner.Some? && Lookup(annotations, keys.lastPartner.value) == Some(x) && x != ""))
  {
  }

  /** The daemon's readiness as the admin reads it: there is a record exactly when the label is
      there; `true` reads as ok, `false` as fail, any other word as itself. */
  lemma ReadPreflightMeaning(labels: map<string, string>, annotations: map<string, string>)
    ensures var rec, word := ReadPreflight(labels, annotations), Lookup(labels, "accel-ready.lunnova.dev/inference");
      && (rec.None? <==> word.None?)
      && (rec.Some? ==>
            && rec.value.source == Readiness && rec.value.bandwidth == None && rec.value.partner == None
            && rec.value.verdict == Some(
                 if word == Some("true") then "ok" else if word == Some("false") then "fail" else word.value)
            && forall x ::
              && (rec.value.at == Some(x) <==>
                    Lookup(annotations, "accel-ready.lunnova.dev/last-check") == Some(x) && x != "")
              && (rec.value.reason == Some(x) <==>
                    Lookup(annotations, "accel-ready.lunnova.dev/failed") == Some(x) && x != ""))
  {
  }

  function ResolveVerdict(annotations: map<string, string>, labels: map<string, string>, parse: ParseFigure)
    : Option<ProbeRecord>
  {
    var pair := ReadFamily(annotations, Annotations.RACK, Pair, parse);
    if pair.Some? then pair
    else
      var loopback := ReadFamily(annotations, Annotations.LOOPBACK, Loopback, parse);
      if loopback.Some? then loopback else ReadPreflight(labels, annotations)
  }

  /** What a report reads back as: empty strings count as missing. */
  function NonEmpty(s: string): Option<string> {
    if s == "" then None else Some(s)
  }

  /** A record tells what a report said. */
  ghost predicate Tells(rec: ProbeRecord, r: Annotations.Report, source: VerdictSource, parse: ParseFigure) {
    && rec.source == source
    && rec.at == NonEmpty(r.now)
    && rec.verdict == Some(Annotations.Label(r.verdict))
    && rec.reason == (if r.verdict.Ok? then None else NonEmpty(Annotations.ReasonOf(r.verdict)))
    && (!r.verdict.Ok? ==> rec.bandwidth == None)
    && (r.verdict.Ok? && r.verdict.rec.bwAvg.Some? ==> rec.bandwidth == parse(r.verdict.rec.bwAvg.value))
    && (r.keys.lastPartner.Some? && r.partner.Some? ==> rec.partner == NonEmpty(r.partner.value))
  }

  /** A section shows an entry for each of a family's keys that the report wrote. */
  lemma FamilyReadsBack(section: map<string, Json>, r: Annotations.Report, source: VerdictSource, parse: ParseFigure)
    requires Annotations.DistinctKeys(r.keys) && Annotations.Shows(section, Annotations.EntriesOf(r))
    ensures var rec := ReadFamily(Strings(section), r.keys, source, parse);
      rec.Some? && Tells(rec.value, r, source, parse)
  {
    hide Annotations.Entries, Annotations.DistinctKeys, Annotations.KeySet;
    Annotations.EntriesMeaning(r.keys, r.partner, r.now, r.verdict);
    var e, anns := Annotations.EntriesOf(r), Strings(section);
    assert Annotations.Sets(e, r.keys.lastAt, r.now) && Annotations.Sets(e, r.keys.verdict, Annotations.Label(r.verdict));
    assert anns[r.keys.lastAt] == r.now && anns[r.keys.verdict] == Annotations.Label(r.verdict);
    assert Annotations.FigureKey(r.keys, Annotations.BwAvg) == r.keys.bwAvg;
    if r.verdict.Ok? {
      assert Annotations.FigureOf(r.verdict.rec, Annotations.BwAvg) == r.verdict.rec.bwAvg;
    }
    if !r.verdict.Ok? {
      assert Annotations.Sets(e, r.keys.reason, Annotations.ReasonOf(r.verdict));
      assert Annotations.Removes(e, r.keys.bwAvg);
    }
  }

  /** A section agrees on a family's keys with what a history of reports left. */
  ghost predicate Follows(section: map<string, Json>, anns: map<string, Json>, reports: seq<Annotations.Report>,
                          keys: Annotations.Keys) {
    forall k | k in Annotations.KeySet(keys) :: SameAt(section, Annotations.After(anns, reports), k)
  }

  /** After any history of reports the pair verdict is that of the latest rack report, or what the
      node showed before; without either a loopback report speaks, and readiness only when there
      is none of those. */
  lemma StrongestSourceSpeaks(anns: map<string, Json>, reports: seq<Annotations.Report>, labels: map<string, string>,
                              parse: ParseFigure, section: map<string, Json>)
    requires forall r | r in reports :: Annotations.IsFamily(r.keys)
    requires Follows(section, anns, reports, Annotations.RACK) && Follows(section, anns, reports, Annotations.LOOPBACK)
    ensures var rec := ResolveVerdict(Strings(section), labels, parse);
      var rack, loopback := Annotations.Latest(reports, Annotations.RACK), Annotations.Latest(reports, Annotations.LOOPBACK);
      var pairBefore := ReadFamily(Strings(anns), Annotations.RACK, Pair, parse);
      var loopbackBefore := ReadFamily(Strings(anns), Annotations.LOOPBACK, Loopback, parse);
      if rack.Some? then rec.Some? && Tells(rec.value, rack.value, Pair, parse)
      else if pairBefore.Some? then rec == pairBefore
      else if loopback.Some? then rec.Some? && Tells(rec.value, loopback.value, Loopback, parse)
      else if loopbackBefore.Some? then rec == loopbackBefore
      else rec == ReadPreflight(labels, Strings(section))
  {
    hide Annotations.EntriesOf, Annotations.DistinctKeys, Annotations.KeySet, Annotations.FamilyKeys, Tells, ReadFamily,
      Follows, Annotations.Latest;
    FamilySpeaks(anns, reports, Annotations.RACK, section, Pair, parse);
    FamilySpeaks(anns, reports, Annotations.LOOPBACK, section, Loopback, parse);
  }

  lemma FamilySpeaks(anns: map<string, Json>, reports: seq<Annotations.Report>, keys: Annotations.Keys,
                     section: map<string, Json>, source: VerdictSource, parse: ParseFigure)
    requires Annotations.IsFamily(keys) && forall r | r in reports :: Annotations.IsFamily(r.keys)
    requires Follows(section, anns, reports, keys)
    ensures var rec, last := ReadFamily(Strings(section), keys, source, parse), Annotations.Latest(reports, keys);
      if last.Some? then rec.Some? && Tells(rec.value, last.value, source, parse)
      else rec == ReadFamily(Strings(anns), keys, source, parse)
  {
    hide Annotations.EntriesOf, Annotations.DistinctKeys, Annotations.KeySet, Annotations.FamilyKeys, Tells, ReadFamily;
    Annotations.FamiliesAreApart();
    Annotations.ProberReports(reports, keys);
    var last := Annotations.Latest(reports, keys);
    if last.Some? {
      Annotations.HistoryShowsLatest(anns, reports, keys);
      SectionShows(section, Annotations.After(anns, reports), last.value);
      FamilyReadsBack(section, last.value, source, parse);
    } else {
      NeverReported(anns, reports, keys);
      SameReading(section, anns, keys, source, parse);
    }
  }

  lemma SectionShows(section: map<string, Json>, after: map<string, Json>, r: Annotations.Report)
    requires Annotations.DistinctKeys(r.keys) && Annotations.Shows(after, Annotations.EntriesOf(r))
    requires forall k | k in Annotations.KeySet(r.keys) :: SameAt(section, after, k)
    ensures Annotations.Shows(section, Annotations.EntriesOf(r))
  {
    hide Annotations.Entries, Annotations.DistinctKeys, Annotations.KeySet;
    Annotations.EntriesMeaning(r.keys, r.partner, r.now, r.verdict);
  }

  /** Keys of a family nobody reported for stay as they were. */
  lemma {:induction false} NeverReported(anns: map<string, Json>, reports: seq<Annotations.Report>, keys: Annotations.Keys)
    requires Annotations.SeenFrom(reports, keys) && Annotations.Latest(reports, keys).None?
    ensures forall k | k in Annotations.KeySet(keys) :: SameAt(Annotations.After(anns, reports), anns, k)
  {
    hide Annotations.EntriesOf, Annotations.DistinctKeys, Annotations.KeySet;
    if reports != [] {
      var before, last := reports[..|reports| - 1], reports[|reports| - 1];
      NeverReported(anns, before, keys);
      assert last in reports && last.keys != keys;
      forall k | k in Annotations.KeySet(keys)
        ensures SameAt(Annotations.After(anns, reports), anns, k)
      {
        Annotations.ReportLeavesOthers(Annotations.After(anns, before), last, k);
      }
    }
  }

  /** A reading depends on the family's own keys only. */
  lemma SameReading(a: map<string, Json>, b: map<string, Json>, keys: Annotations.Keys, source: VerdictSource,
                    parse: ParseFigure)
    requires forall k | k in Annotations.KeySet(keys) :: SameAt(a, b, k)
    ensures ReadFamily(Strings(a), keys, source, parse) == ReadFamily(Strings(b), keys, source, parse)
  {
    hide Annotations.FamilyKeys;
    var s, t := Strings(a), Strings(b);
    forall k | k in Annotations.KeySet(keys)
      ensures (k in s <==> k in t) && (k in s ==> s[k] == t[k])
    {
      assert SameAt(a, b, k);
    }
    assert keys.lastAt in Annotations.KeySet(keys) && keys.bwAvg in Annotations.KeySet(keys);
    assert keys.verdict in Annotations.KeySet(keys) && keys.reason in Annotations.KeySet(keys);
  }

  // The cluster summary

  datatype NodeView = NodeView(
    name: string, rack: Option<string>, vendorCounts: map<string, nat>, verdict: Option<string>, ready: bool)

  datatype RackSummary = RackSummary(nodes: seq<string>, healthy: nat, failed: nat)

  datatype Summary = Summary(
    nodesTotal: nat,
    nodesReady: nat,
    racks: map<string, RackSummary>,
    verdicts: map<string, nat>,
    vendorTotals: map<string, nat>)

  predicate Healthy(verdict: Option<string>) {
    verdict == Some("pass") || verdict == Some("ok")
  }

  function OfRack(nodes: seq<NodeView>, rack: string): RackSummary {
    if nodes == [] then RackSummary([], 0, 0)
    else
      var before, n := OfRack(nodes[..|nodes| - 1], rack), nodes[|nodes| - 1];
      if n.rack != Some(rack) then before
      else RackSummary(
        before.nodes + [n.name],
        before.healthy + (if Healthy(n.verdict) then 1 else 0),
        before.failed + if n.verdict.Some? && !Healthy(n.verdict) then 1 else 0)
  }

  function ReadyCount(nodes: seq<NodeView>): nat {
    if nodes == [] then 0
    else ReadyCount(nodes[..|nodes| - 1]) + if nodes[|nodes| - 1].ready then 1 else 0
  }

  function VerdictTally(nodes: seq<NodeView>): map<string, nat> {
    if nodes == [] then map[]
    else
      var before, n := VerdictTally(nodes[..|nodes| - 1]), nodes[|nodes| - 1];
      if n.verdict.Some? then Bump(before, n.verdict.value, 1) else before
  }

  function VendorSum(nodes: seq<NodeView>): map<string, nat> {
    if nodes == [] then map[]
    else Plus(VendorSum(nodes[..|nodes| - 1]), nodes[|nodes| - 1].vendorCounts)
  }

  ghost function Accelerators(nodes: seq<NodeView>): nat {
    if nodes == [] then 0 else Accelerators(nodes[..|nodes| - 1]) + Total(nodes[|nodes| - 1].vendorCounts)
  }

  function WithVerdict(nodes: seq<NodeView>): nat {
    if nodes == [] then 0
    else WithVerdict(nodes[..|nodes| - 1]) + if nodes[|nodes| - 1].verdict.Some? then 1 else 0
  }

  /** Where in a list the nodes of one kind are. */
  function Places(nodes: seq<NodeView>, kind: NodeView -> bool): set<int> {
    set i | 0 <= i < |nodes| && kind(nodes[i])
  }

  lemma OnePlaceMore(nodes: seq<NodeView>, kind: NodeView -> bool)
    ensures Places([], kind) == {}
    ensures nodes != [] ==>
      |Places(nodes, kind)| == |Places(nodes[..|nodes| - 1], kind)| + if kind(nodes[|nodes| - 1]) then 1 else 0
  {
    if nodes != [] {
      var k := |nodes| - 1;
      assert Places(nodes, kind) == Places(nodes[..k], kind) + if kind(nodes[k]) then {k} else {};
    }
  }

  function In(rack: string): NodeView -> bool { (n: NodeView) => n.rack == Some(rack) }

  function Good(rack: string): NodeView -> bool {
    (n: NodeView) => n.rack == Some(rack) && (n.verdict == Some("ok") || n.verdict == Some("pass"))
  }

  function Bad(rack: string): NodeView -> bool {
    (n: NodeView) => n.rack == Some(rack) && n.verdict.Some? && n.verdict.value != "ok" && n.verdict.value != "pass"
  }

  /** A rack's summary lists its nodes, and counts as healthy those whose verdict is `ok` or `pass`
      and as failed those with any other verdict. */
  lemma {:induction false} OfRackMeaning(nodes: seq<NodeView>, rack: string)
    ensures var r := OfRack(nodes, rack);
      && |r.nodes| == |Places(nodes, In(rack))|
      && r.healthy == |Places(nodes, Good(rack))| && r.failed == |Places(nodes, Bad(rack))|
  {
    hide Places;
    OnePlaceMore(nodes, In(rack));
    OnePlaceMore(nodes, Good(rack));
    OnePlaceMore(nodes, Bad(rack));
    if nodes != [] {
      OfRackMeaning(nodes[..|nodes| - 1], rack);
    }
  }

  /** The names of a rack's nodes come in the order of the list. */
  lemma {:induction false} OfRackInOrder(a: seq<NodeView>, n: NodeView, b: seq<NodeView>, rack: string)
    ensures OfRack(a + [n] + b, rack).nodes
      == OfRack(a, rack).nodes + (if n.rack == Some(rack) then [n.name] else []) + OfRack(b, rack).nodes
  {
    var all := a + [n] + b;
    if b == [] {
      assert all[..|all| - 1] == a;
    } else {
      assert all[..|all| - 1] == a + [n] + b[..|b| - 1];
      OfRackInOrder(a, n, b[..|b| - 1], rack);
    }
  }

  function IsReady(): NodeView -> bool { (n: NodeView) => n.ready }

  function HasVerdict(): NodeView -> bool { (n: NodeView) => n.verdict.Some? }

  function Says(v: string): NodeView -> bool { (n: NodeView) => n.verdict == Some(v) }

  /** The counters of the summary, as counts of nodes. */
  lemma {:induction false} CountersMeaning(nodes: seq<NodeView>, v: string)
    ensures ReadyCount(nodes) == |Places(nodes, IsReady())|
    ensures WithVerdict(nodes) == |Places(nodes, HasVerdict())|
    ensures At(VerdictTally(nodes), v) == |Places(nodes, Says(v))|
  {
    hide Places;
    OnePlaceMore(nodes, IsReady());
    OnePlaceMore(nodes, HasVerdict());
    OnePlaceMore(nodes, Says(v));
    if nodes != [] {
      CountersMeaning(nodes[..|nodes| - 1], v);
    }
  }

  /** Accelerators of one vendor over all nodes. */
  function OfVendor(nodes: seq<NodeView>, vendor: string): nat {
    if nodes == [] then 0
    else
      var counts := nodes[|nodes| - 1].vendorCounts;
      OfVendor(nodes[..|nodes| - 1], vendor) + if vendor in counts then counts[vendor] else 0
  }

  lemma {:induction false} VendorSumMeaning(nodes: seq<NodeView>, vendor: string)
    ensures At(VendorSum(nodes), vendor) == OfVendor(nodes, vendor)
  {
    if nodes != [] {
      VendorSumMeaning(nodes[..|nodes| - 1], vendor);
    }
  }

  ghost predicate RacksAre(racks: map<string, RackSummary>, nodes: seq<NodeView>) {
    && (forall rack | rack in racks :: racks[rack] == OfRack(nodes, rack))
    && (forall rack | rack !in racks :: OfRack(nodes, rack) == RackSummary([], 0, 0))
  }

  lemma RackStep(racks: map<string, RackSummary>, nodes: seq<NodeView>, n: NodeView)
    requires RacksAre(racks, nodes)
    ensures n.rack.None? ==> RacksAre(racks, nodes + [n])
    ensures n.rack.Some? ==>
      var e := if n.rack.value in racks then racks[n.rack.value] else RackSummary([], 0, 0);
      RacksAre(racks[n.rack.value := RackSummary(
        e.nodes + [n.name],
        e.healthy + (if Healthy(n.verdict) then 1 else 0),
        e.failed + if n.verdict.Some? && !Healthy(n.verdict) then 1 else 0)], nodes + [n])
  {
    hide Healthy;
    assert (nodes + [n])[..|nodes|] == nodes;
  }

  method SummarizeRacks(nodes: seq<NodeView>) returns (racks: map<string, RackSummary>)
    ensures RacksAre(racks, nodes)
  {
    racks := map[];
    for i := 0 to |nodes|
      invariant RacksAre(racks, nodes[..i])
    {
      hide RacksAre;
      var n := nodes[i];
      RackStep(racks, nodes[..i], n);
      assert nodes[..i + 1] == nodes[..i] + [n];
      if n.rack.Some? {
        var rack := n.rack.value;
        var e := if rack in racks then racks[rack] else RackSummary([], 0, 0);
        racks := racks[rack := RackSummary(
          e.nodes + [n.name],
          e.healthy + (if Healthy(n.verdict) then 1 else 0),
          e.failed + if n.verdict.Some? && !Healthy(n.verdict) then 1 else 0)];
      }
    }
    assert nodes[..|nodes|] == nodes;
  }

  /** The summary loses no accelerator and no verdict: vendor totals add up to all accelerators of
      all nodes and verdict counts to all nodes that have one. */
  method Summarize(nodes: seq<NodeView>) returns (s: Summary)
    ensures s.nodesTotal == |nodes| && s.nodesReady == ReadyCount(nodes) && RacksAre(s.racks, nodes)
    ensures s.verdicts == VerdictTally(nodes) && s.vendorTotals == VendorSum(nodes)
    ensures Total(s.vendorTotals) == Accelerators(nodes)
    ensures Total(s.verdicts) == WithVerdict(nodes)
  {
    hide Total, Plus, Bump, RacksAre;
    EmptyCounts();
    var racks := SummarizeRacks(nodes);
    var ready, verdicts, totals := 0, map[], map[];
    for i := 0 to |nodes|
      invariant ready == ReadyCount(nodes[..i])
      invariant verdicts == VerdictTally(nodes[..i]) && totals == VendorSum(nodes[..i])
      invariant Total(totals) == Accelerators(nodes[..i])
      invariant Total(verdicts) == WithVerdict(nodes[..i])
    {
      var n := nodes[i];
      assert nodes[..i + 1][..i] == nodes[..i];
      if n.ready {
        ready := ready + 1;
      }
      if n.verdict.Some? {
        BumpTotal(verdicts, n.verdict.value, 1);
        verdicts := Bump(verdicts, n.verdict.value, 1);
      }
      totals := AddInto(totals, n.vendorCounts);
    }
    assert nodes[..|nodes|] == nodes;
    s := Summary(|nodes|, ready, racks, verdicts, totals);
  }
}
