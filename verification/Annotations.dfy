/** What the prober writes on the nodes it has probed. */
module Annotations {
  import opened Text
  import opened MergePatch
  import opened NodeObject

  datatype Keys = Keys(
    lastAt: string,
    lastPartner: Option<string>,
    bwAvg: string,
    bwPeak: string,
    msgRate: string,
    device: string,
    verdict: string,
    reason: string)

  const TEST_PREFIX := "accel-test.lunnova.dev/"

  function TestKey(kind: string, field: string): string {
    TEST_PREFIX + "last-" + kind + "-" + field
  }

  function FamilyKeys(kind: string, paired: bool): Keys {
    Keys(TestKey(kind, "at"), if paired then Some(TestKey(kind, "partner")) else None,
         TestKey(kind, "bw-gbps"), TestKey(kind, "bw-peak-gbps"), TestKey(kind, "msg-rate-mpps"),
         TestKey(kind, "device"), TestKey(kind, "verdict"), TestKey(kind, "reason"))
  }

  const RACK := FamilyKeys("rack", true)
  const LOOPBACK := FamilyKeys("loopback", false)

  lemma KeyPrefixes()
    ensures TEST_PREFIX + "last-" + "rack" + "-" == "accel-test.lunnova.dev/last-rack-"
    ensures TEST_PREFIX + "last-" + "loopback" + "-" == "accel-test.lunnova.dev/last-loopback-"
  {
  }

  /** The keys of both families, spelled out. */
  lemma FamilyKeyNames()
    ensures var rack := "accel-test.lunnova.dev/last-rack-";
      RACK == Keys(rack + "at", Some(rack + "partner"), rack + "bw-gbps", rack + "bw-peak-gbps",
                   rack + "msg-rate-mpps", rack + "device", rack + "verdict", rack + "reason")
    ensures var loopback := "accel-test.lunnova.dev/last-loopback-";
      LOOPBACK == Keys(loopback + "at", None, loopback + "bw-gbps", loopback + "bw-peak-gbps",
                       loopback + "msg-rate-mpps", loopback + "device", loopback + "verdict", loopback + "reason")
  {
    KeyPrefixes();
  }

  /** A probe pod's record; its figures are kept as they will be printed. */
  datatype ProbeRecord = ProbeRecord(
    ok: bool,
    device: string,
    bwAvg: Option<string>,
    bwPeak: Option<string>,
    msgRate: Option<string>,
    message: Option<string>)

  datatype Verdict = Ok(rec: ProbeRecord) | Fail(reason: string) | Timeout

  const TIMEOUT_REASON := "probe pod did not terminate before timeout"

  /** The key families, and how the three figure keys of a family are told apart. */
  datatype Figure = BwAvg | BwPeak | MsgRate

  function FigureKey(keys: Keys, f: Figure): string {
    match f
    case BwAvg => keys.bwAvg
    case BwPeak => keys.bwPeak
    case MsgRate => keys.msgRate
  }

  function FigureOf(rec: ProbeRecord, f: Figure): Option<string> {
    match f
    case BwAvg => rec.bwAvg
    case BwPeak => rec.bwPeak
    case MsgRate => rec.msgRate
  }

  ghost predicate IsFamily(keys: Keys) {
    keys == RACK || keys == LOOPBACK
  }

  function KeySet(keys: Keys): set<string> {
    {keys.lastAt, keys.bwAvg, keys.bwPeak, keys.msgRate, keys.device, keys.verdict, keys.reason}
    + if keys.lastPartner.Some? then {keys.lastPartner.value} else {}
  }

  /** No two keys of a family coincide. */
  predicate DistinctKeys(keys: Keys) {
    && keys.lastAt !in {keys.bwAvg, keys.bwPeak, keys.msgRate, keys.device, keys.verdict, keys.reason}
    && keys.bwAvg !in {keys.bwPeak, keys.msgRate, keys.device, keys.verdict, keys.reason}
    && keys.bwPeak !in {keys.msgRate, keys.device, keys.verdict, keys.reason}
    && keys.msgRate !in {keys.device, keys.verdict, keys.reason}
    && keys.device !in {keys.verdict, keys.reason}
    && keys.verdict != keys.reason
    && (keys.lastPartner.Some? ==>
          keys.lastPartner.value !in
            {keys.lastAt, keys.bwAvg, keys.bwPeak, keys.msgRate, keys.device, keys.verdict, keys.reason})
  }

  lemma TestKeyShape(kind: string, field: string)
    ensures StartsWith(TestKey(kind, field), TEST_PREFIX)
    ensures TestKey(kind, field)[|TEST_PREFIX|..] == "last-" + kind + "-" + field
    ensures TestKey(kind, field)[|TEST_PREFIX| + 5..] == kind + "-" + field
    ensures TestKey(kind, field)[|TEST_PREFIX| + 6 + |kind|..] == field
  {
  }

  lemma TestKeyInjective(kind: string)
    ensures forall f, g :: TestKey(kind, f) == TestKey(kind, g) ==> f == g
  {
    forall f, g | TestKey(kind, f) == TestKey(kind, g)
      ensures f == g
    {
      TestKeyShape(kind, f);
      TestKeyShape(kind, g);
    }
  }

  lemma FamilyKeysDistinct(kind: string, paired: bool)
    ensures DistinctKeys(FamilyKeys(kind, paired))
  {
    hide TestKey;
    TestKeyInjective(kind);
  }

  lemma KeyOfFamily(kind: string, paired: bool, k: string) returns (field: string)
    requires k in KeySet(FamilyKeys(kind, paired))
    ensures k == TestKey(kind, field)
  {
    hide TestKey;
    var keys := FamilyKeys(kind, paired);
    field := if k == keys.lastAt then "at" else if k == keys.bwAvg then "bw-gbps"
             else if k == keys.bwPeak then "bw-peak-gbps" else if k == keys.msgRate then "msg-rate-mpps"
             else if k == keys.device then "device" else if k == keys.verdict then "verdict"
             else if k == keys.reason then "reason" else "partner";
  }

  /** The two families: distinct keys, none shared, all under the prober's own prefix. */
  lemma FamiliesAreApart()
    ensures DistinctKeys(RACK) && DistinctKeys(LOOPBACK)
    ensures KeySet(RACK) !! KeySet(LOOPBACK)
    ensures forall k | k in KeySet(RACK) + KeySet(LOOPBACK) :: StartsWith(k, TEST_PREFIX)
  {
    hide DistinctKeys, KeySet, StartsWith, TestKey, FamilyKeys;
    FamilyKeysDistinct("rack", true);
    FamilyKeysDistinct("loopback", false);
    forall k | k in KeySet(RACK)
      ensures StartsWith(k, TEST_PREFIX) && k !in KeySet(LOOPBACK)
    {
      var field := KeyOfFamily("rack", true, k);
      TestKeyShape("rack", field);
      forall other: string
        ensures k != TestKey("loopback", other)
      {
        TestKeyShape("loopback", other);
        assert ("rack" + "-" + field)[0] == 'r' && ("loopback" + "-" + other)[0] == 'l';
      }
      if k in KeySet(LOOPBACK) {
        var other := KeyOfFamily("loopback", false, k);
        assert false;
      }
    }
    forall k | k in KeySet(LOOPBACK)
      ensures StartsWith(k, TEST_PREFIX)
    {
      var field := KeyOfFamily("loopback", false, k);
      TestKeyShape("loopback", field);
    }
  }

  function Label(v: Verdict): string {
    match v
    case Ok(_) => "ok"
    case Fail(_) => "fail"
    case Timeout => "timeout"
  }

  function ReasonOf(v: Verdict): string
    requires !v.Ok?
  {
    if v.Fail? then v.reason else TIMEOUT_REASON
  }

  /** The entries one report writes, nulls standing for removals. */
  function Entries(keys: Keys, partner: Option<string>, now: string, verdict: Verdict): map<string, Json> {
    var m0 := map[keys.lastAt := String(now)];
    var m := if keys.lastPartner.Some? && partner.Some?
             then m0[keys.lastPartner.value := String(partner.value)] else m0;
    match verdict
    case Ok(rec) =>
      var m1 := m[keys.verdict := String("ok")][keys.reason := Null][keys.device := String(rec.device)];
      var m2 := if rec.bwAvg.Some? then m1[keys.bwAvg := String(rec.bwAvg.value)] else m1;
      var m3 := if rec.bwPeak.Some? then m2[keys.bwPeak := String(rec.bwPeak.value)] else m2;
      if rec.msgRate.Some? then m3[keys.msgRate := String(rec.msgRate.value)] else m3
    case Fail(reason) =>
      WithoutFigures(keys, m[keys.verdict := String("fail")][keys.reason := String(reason)])
    case Timeout =>
      WithoutFigures(keys, m[keys.verdict := String("timeout")][keys.reason := String(TIMEOUT_REASON)])
  }

  function WithoutFigures(keys: Keys, m: map<string, Json>): map<string, Json> {
    m[keys.bwAvg := Null][keys.bwPeak := Null][keys.msgRate := Null]
  }

  function Body(entries: map<string, Json>): Json {
    MetadataPatch(map[ANNOTATIONS := entries])
  }

  method BuildBody(keys: Keys, partner: Option<string>, now: string, verdict: Verdict) returns (body: Json)
    ensures body == Body(Entries(keys, partner, now, verdict))
  {
    var anns: map<string, Json> := map[keys.lastAt := String(now)];
    if keys.lastPartner.Some? && partner.Some? {
      anns := anns[keys.lastPartner.value := String(partner.value)];
    }
    match verdict {
      case Ok(rec) =>
        anns := anns[keys.verdict := String("ok")];
        anns := anns[keys.reason := Null];
        anns := anns[keys.device := String(rec.device)];
        if rec.bwAvg.Some? {
          anns := anns[keys.bwAvg := String(rec.bwAvg.value)];
        }
        if rec.bwPeak.Some? {
          anns := anns[keys.bwPeak := String(rec.bwPeak.value)];
        }
        if rec.msgRate.Some? {
          anns := anns[keys.msgRate := String(rec.msgRate.value)];
        }
      case Fail(reason) =>
        anns := anns[keys.verdict := String("fail")];
        anns := anns[keys.reason := String(reason)];
        anns := anns[keys.bwAvg := Null];
        anns := anns[keys.bwPeak := Null];
        anns := anns[keys.msgRate := Null];
      case Timeout =>
        anns := anns[keys.verdict := String("timeout")];
        anns := anns[keys.reason := String(TIMEOUT_REASON)];
        anns := anns[keys.bwAvg := Null];
        anns := anns[keys.bwPeak := Null];
        anns := anns[keys.msgRate := Null];
    }
    assert anns == Entries(keys, partner, now, verdict);
    body := MetadataPatch(map[ANNOTATIONS := anns]);
  }

  /** What an entry says about one key: a value to set, a removal, or nothing. */
  predicate Sets(e: map<string, Json>, key: string, value: string) {
    key in e && e[key] == String(value)
  }

  predicate Removes(e: map<string, Json>, key: string) {
    key in e && e[key].Null?
  }

  /** A report, key by key: an ok report sets the figures it has and removes the reason; any
      other sets a reason and removes all figures. */
  lemma EntriesMeaning(keys: Keys, partner: Option<string>, now: string, v: Verdict)
    requires DistinctKeys(keys)
    ensures var e := Entries(keys, partner, now, v);
      && e.Keys <= KeySet(keys) && Flat(e)
      && Sets(e, keys.lastAt, now) && Sets(e, keys.verdict, Label(v))
      && Label(v) == (match v case Ok(_) => "ok" case Fail(_) => "fail" case Timeout => "timeout")
      && (keys.lastPartner.Some? && partner.Some? ==> Sets(e, keys.lastPartner.value, partner.value))
      && (v.Timeout? ==> ReasonOf(v) == "probe pod did not terminate before timeout")
      && (v.Ok? ==> Removes(e, keys.reason) && Sets(e, keys.device, v.rec.device))
      && (!v.Ok? ==> Sets(e, keys.reason, ReasonOf(v)) && keys.device !in e)
      && forall f: Figure ::
        if !v.Ok? then Removes(e, FigureKey(keys, f))
        else if FigureOf(v.rec, f).Some? then Sets(e, FigureKey(keys, f), FigureOf(v.rec, f).value)
        else FigureKey(keys, f) !in e
  {
    var e := Entries(keys, partner, now, v);
    assert e.Keys <= KeySet(keys);
    EntriesFigures(keys, partner, now, v);
  }

  lemma EntriesFigures(keys: Keys, partner: Option<string>, now: string, v: Verdict)
    requires DistinctKeys(keys)
    ensures var e := Entries(keys, partner, now, v);
      forall f: Figure ::
        if !v.Ok? then Removes(e, FigureKey(keys, f))
        else if FigureOf(v.rec, f).Some? then Sets(e, FigureKey(keys, f), FigureOf(v.rec, f).value)
        else FigureKey(keys, f) !in e
  {
    var e := Entries(keys, partner, now, v);
    forall f: Figure
      ensures
        if !v.Ok? then Removes(e, FigureKey(keys, f))
        else if FigureOf(v.rec, f).Some? then Sets(e, FigureKey(keys, f), FigureOf(v.rec, f).value)
        else FigureKey(keys, f) !in e
    {
    }
  }

  // Histories of reports on one node

  datatype Report = Report(keys: Keys, partner: Option<string>, now: string, verdict: Verdict)

  function EntriesOf(r: Report): map<string, Json> {
    Entries(r.keys, r.partner, r.now, r.verdict)
  }

  /** The annotations after a history of reports, oldest first. */
  function After(anns: map<string, Json>, reports: seq<Report>): map<string, Json> {
    if reports == [] then anns
    else Overlay(After(anns, reports[..|reports| - 1]), EntriesOf(reports[|reports| - 1]))
  }

  /** The latest report of one family. */
  function Latest(reports: seq<Report>, keys: Keys): Option<Report> {
    if reports == [] then None
    else
      var last := reports[|reports| - 1];
      if last.keys == keys then Some(last) else Latest(reports[..|reports| - 1], keys)
  }

  /** Reports seen from one family: its own, and those of a family with other keys. */
  ghost predicate SeenFrom(reports: seq<Report>, keys: Keys) {
    && DistinctKeys(keys)
    && forall r | r in reports :: DistinctKeys(r.keys) && (r.keys == keys || KeySet(r.keys) !! KeySet(keys))
  }

  lemma ProberReports(reports: seq<Report>, keys: Keys)
    requires IsFamily(keys) && forall r | r in reports :: IsFamily(r.keys)
    ensures SeenFrom(reports, keys)
  {
    FamiliesAreApart();
    forall r | r in reports
      ensures DistinctKeys(r.keys) && (r.keys == keys || KeySet(r.keys) !! KeySet(keys))
    {
    }
  }

  /** An ok verdict stands without a reason; any other has one and shows no figures. */
  ghost predicate Coherent(anns: map<string, Json>, keys: Keys) {
    keys.verdict in anns ==>
      || (anns[keys.verdict] == String("ok") && keys.reason !in anns)
      || (anns[keys.verdict] in {String("fail"), String("timeout")}
          && keys.reason in anns && anns[keys.reason].String?
          && forall f: Figure :: FigureKey(keys, f) !in anns)
  }

  lemma ReportIsCoherent(anns: map<string, Json>, r: Report)
    requires DistinctKeys(r.keys)
    ensures Coherent(Overlay(anns, EntriesOf(r)), r.keys)
  {
    hide Entries, DistinctKeys, KeySet;
    EntriesMeaning(r.keys, r.partner, r.now, r.verdict);
    var after := Overlay(anns, EntriesOf(r));
    if !r.verdict.Ok? {
      forall f: Figure
        ensures FigureKey(r.keys, f) !in after
      {
        assert Removes(EntriesOf(r), FigureKey(r.keys, f));
      }
    }
  }

  lemma FigureKeyIn(keys: Keys, f: Figure)
    ensures FigureKey(keys, f) in KeySet(keys)
  {
  }

  /** A report leaves every key outside its own family as it was. */
  lemma ReportLeavesOthers(anns: map<string, Json>, r: Report, k: string)
    requires DistinctKeys(r.keys) && k !in KeySet(r.keys)
    ensures var after := Overlay(anns, EntriesOf(r));
      (k in after <==> k in anns) && (k in after ==> after[k] == anns[k])
  {
  }

  /** Over every history of reports, each family stays coherent. */
  lemma {:induction false} HistoryIsCoherent(anns: map<string, Json>, reports: seq<Report>, keys: Keys)
    requires SeenFrom(reports, keys) && Coherent(anns, keys)
    ensures Coherent(After(anns, reports), keys)
  {
    if reports != [] {
      var before, last := reports[..|reports| - 1], reports[|reports| - 1];
      HistoryIsCoherent(anns, before, keys);
      OneMoreCoherent(After(anns, before), last, keys);
    }
  }

  lemma OneMoreCoherent(anns: map<string, Json>, r: Report, keys: Keys)
    requires DistinctKeys(r.keys) && (r.keys == keys || KeySet(r.keys) !! KeySet(keys))
    requires Coherent(anns, keys)
    ensures Coherent(Overlay(anns, EntriesOf(r)), keys)
  {
    hide Entries, DistinctKeys;
    if r.keys == keys {
      ReportIsCoherent(anns, r);
    } else {
      ReportLeavesOthers(anns, r, keys.verdict);
      ReportLeavesOthers(anns, r, keys.reason);
      forall f: Figure
        ensures FigureKey(keys, f) in Overlay(anns, EntriesOf(r)) <==> FigureKey(keys, f) in anns
      {
        FigureKeyIn(keys, f);
        ReportLeavesOthers(anns, r, FigureKey(keys, f));
      }
    }
  }

  /** What the latest report said about a key is what the node shows for it. */
  ghost predicate Shows(anns: map<string, Json>, e: map<string, Json>) {
    forall k | k in e :: if e[k].Null? then k !in anns else k in anns && anns[k] == e[k]
  }

  /** A family shows what its latest report wrote, whatever came before it or after it from the
      other family. */
  lemma {:induction false} HistoryShowsLatest(anns: map<string, Json>, reports: seq<Report>, keys: Keys)
    requires SeenFrom(reports, keys) && Latest(reports, keys).Some?
    ensures var r := Latest(reports, keys).value;
      r in reports && r.keys == keys && Shows(After(anns, reports), EntriesOf(r))
  {
    hide Entries, DistinctKeys, KeySet;
    var before, last := reports[..|reports| - 1], reports[|reports| - 1];
    if last.keys != keys {
      HistoryShowsLatest(anns, before, keys);
      var r := Latest(before, keys).value;
      EntriesMeaning(keys, r.partner, r.now, r.verdict);
      forall k | k in EntriesOf(r)
        ensures k !in KeySet(last.keys)
      {
        assert k in KeySet(keys);
      }
      forall k | k in EntriesOf(r)
        ensures if EntriesOf(r)[k].Null? then k !in After(anns, reports)
                else k in After(anns, reports) && After(anns, reports)[k] == EntriesOf(r)[k]
      {
        ReportLeavesOthers(After(anns, before), last, k);
      }
    }
  }

  /** The node shows a record's figures: exactly those it has. */
  ghost predicate ShowsFigures(anns: map<string, Json>, keys: Keys, rec: ProbeRecord) {
    forall f: Figure ::
      if FigureOf(rec, f).Some?
      then FigureKey(keys, f) in anns && anns[FigureKey(keys, f)] == String(FigureOf(rec, f).value)
      else FigureKey(keys, f) !in anns
  }

  /** After an ok report the node shows exactly its figures if and only if every figure the
      record lacks was already absent: an ok report never removes a figure. */
  lemma StaleFigures(anns: map<string, Json>, r: Report)
    requires DistinctKeys(r.keys) && r.verdict.Ok?
    ensures ShowsFigures(Overlay(anns, EntriesOf(r)), r.keys, r.verdict.rec) <==>
      forall f: Figure :: FigureOf(r.verdict.rec, f).Some? || FigureKey(r.keys, f) !in anns
  {
    hide Entries, DistinctKeys, KeySet;
    EntriesMeaning(r.keys, r.partner, r.now, r.verdict);
    var e, after, rec := EntriesOf(r), Overlay(anns, EntriesOf(r)), r.verdict.rec;
    forall f: Figure
      ensures if FigureOf(rec, f).Some? then FigureKey(r.keys, f) in after
                && after[FigureKey(r.keys, f)] == String(FigureOf(rec, f).value)
              else FigureKey(r.keys, f) in after <==> FigureKey(r.keys, f) in anns
    {
      if FigureOf(rec, f).Some? {
        assert Sets(e, FigureKey(r.keys, f), FigureOf(rec, f).value);
      } else {
        assert FigureKey(r.keys, f) !in e;
      }
    }
  }

  /** How stale figures come about: an ok report with a figure, then an ok report of the same
      family without it.  The node goes on showing the earlier figure beside the later verdict. */
  lemma StaleFigureShows(anns: map<string, Json>, first: Report, second: Report, f: Figure)
    requires DistinctKeys(first.keys) && second.keys == first.keys
    requires first.verdict.Ok? && FigureOf(first.verdict.rec, f).Some?
    requires second.verdict.Ok? && FigureOf(second.verdict.rec, f).None?
    ensures var after, key := After(anns, [first, second]), FigureKey(first.keys, f);
      && key in after && after[key] == String(FigureOf(first.verdict.rec, f).value)
      && !ShowsFigures(after, second.keys, second.verdict.rec)
  {
    hide Entries, DistinctKeys, KeySet, FigureKey, FigureOf;
    EntriesMeaning(first.keys, first.partner, first.now, first.verdict);
    EntriesMeaning(second.keys, second.partner, second.now, second.verdict);
    assert [first, second][..1] == [first] && [first][..0] == [];
    assert Sets(EntriesOf(first), FigureKey(first.keys, f), FigureOf(first.verdict.rec, f).value);
    assert FigureKey(second.keys, f) !in EntriesOf(second);
  }

  // Where records come from

  /** What `ib_send_bw` came to: its figures, or an error. */
  datatype Outcome = Measured(bwAvg: string, bwPeak: string, msgRate: string) | Error(message: string)

  function BuildRecord(device: string, outcome: Outcome): ProbeRecord {
    match outcome
    case Measured(avg, peak, rate) => ProbeRecord(true, device, Some(avg), Some(peak), Some(rate), None)
    case Error(message) => ProbeRecord(false, device, None, None, None, Some(message))
  }

  /** With records made by the probe, a node whose latest report of a family is ok shows exactly
      that record's three figures and device and no reason, whatever its history. */
  lemma OkShowsExactlyTheLatestRecord(anns: map<string, Json>, reports: seq<Report>, keys: Keys,
                                      device: string, outcome: Outcome)
    requires SeenFrom(reports, keys) && Latest(reports, keys).Some?
    requires Latest(reports, keys).value.verdict == Ok(BuildRecord(device, outcome))
    requires BuildRecord(device, outcome).ok
    ensures var after := After(anns, reports);
      && ShowsFigures(after, keys, BuildRecord(device, outcome))
      && (forall f: Figure :: FigureKey(keys, f) in after)
      && keys.device in after && after[keys.device] == String(device)
      && keys.reason !in after
      && outcome.Measured?
      && Sets(after, keys.bwAvg, outcome.bwAvg) && Sets(after, keys.bwPeak, outcome.bwPeak)
      && Sets(after, keys.msgRate, outcome.msgRate)
  {
    hide Entries, DistinctKeys, KeySet;
    HistoryShowsLatest(anns, reports, keys);
    var r := Latest(reports, keys).value;
    EntriesMeaning(keys, r.partner, r.now, r.verdict);
    var e, rec, after := EntriesOf(r), BuildRecord(device, outcome), After(anns, reports);
    forall f: Figure
      ensures FigureOf(rec, f).Some? && Sets(After(anns, reports), FigureKey(keys, f), FigureOf(rec, f).value)
    {
      assert Sets(e, FigureKey(keys, f), FigureOf(rec, f).value);
    }
    assert Sets(after, FigureKey(keys, BwAvg), FigureOf(rec, BwAvg).value);
    assert Sets(after, FigureKey(keys, BwPeak), FigureOf(rec, BwPeak).value);
    assert Sets(after, FigureKey(keys, MsgRate), FigureOf(rec, MsgRate).value);
  }
}
