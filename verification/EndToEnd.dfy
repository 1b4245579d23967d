/** What the readers of a Node see while all its writers are at work: the admin reader and the
    prober read a node's labels and annotations as the API server holds them. */
module EndToEnd {
  import opened Text
  import opened MergePatch
  import opened NodeObject
  import opened Labeler
  import opened NodeWriters
  import Admin
  import Annotations
  import Coverage
  import Labels
  import Pairing
  import Preflight
  import Probe

  /** The labels and annotations of a state as the typed client reads them. */
  function LabelStrings(s: State): map<string, string> { Strings(LabelsOf(s)) }

  function AnnotationStrings(s: State): map<string, string> { Strings(AnnotationsOf(s)) }

  /** A key the daemon manages reads as it wants it. */
  lemma ManagedReads(section: map<string, Json>, desired: map<string, string>, key: string)
    requires Managed(section) == AsJson(desired) && IsManaged(key)
    ensures Lookup(Strings(section), key) == Lookup(desired, key)
  {
    hide IsManaged;
    assert key in Managed(section) <==> key in AsJson(desired);
  }

  /** What a cycle publishes keeps every label of the topology: readiness keys are apart. */
  lemma CycleKeepsCounts(base: LabelSet, v: Labels.View, outcomes: seq<Preflight.Outcome>, now: string)
    requires Labels.Published(base.labels, v)
    ensures var l := Preflight.CycleLabels(base, outcomes, now).labels;
      && Labels.CarriesAll(l, v)
      && Labels.ShowsSingles(l, v)
  {
    hide IsManaged, Decimal, Preflight.Aggregate, Preflight.LabelValue, Preflight.Statuses, Labels.Apart;
    ReadinessKeys();
    var l := Preflight.CycleLabels(base, outcomes, now).labels;
    forall f: Labels.Family
      ensures Labels.Carries(l, Labels.PrefixOf(f), Labels.SuffixOf(f), v.tables[f])
    {
      forall key: string
        ensures Labels.PrefixOf(f) + key + Labels.SuffixOf(f) !in {Preflight.INFERENCE, Preflight.TRAINING}
      {
        Labels.FamilyLabelIsOwned(f, key);
      }
    }
  }

  lemma ReadinessKeys()
    ensures StartsWith(Preflight.INFERENCE, READY_PREFIX) && StartsWith(Preflight.TRAINING, READY_PREFIX)
    ensures StartsWith(Preflight.FAILED, READY_PREFIX)
    ensures IsManaged(Preflight.INFERENCE) && IsManaged(Preflight.FAILED)
    ensures IsManaged(Preflight.TRAINING) && IsManaged(Preflight.LAST_CHECK)
  {
    assert StartsWith(Preflight.LAST_CHECK, READY_PREFIX);
  }

  /** The readiness a label set says is what the node says once the managed keys are its own. */
  lemma ReadinessReachesTheNode(section: map<string, Json>, anns: map<string, Json>, desired: LabelSet,
                                outcomes: seq<Preflight.Outcome>, now: string)
    requires Managed(section) == AsJson(desired.labels) && Managed(anns) == AsJson(desired.annotations)
    requires Preflight.SaysReadiness(desired, outcomes, now)
    ensures Preflight.SaysReadiness(LabelSet(Strings(section), Strings(anns)), outcomes, now)
  {
    hide IsManaged, Managed, AsJson, Strings, Preflight.Words, Lookup, StartsWith;
    ReadinessKeys();
    ManagedReads(section, desired.labels, Preflight.INFERENCE);
    ManagedReads(section, desired.labels, Preflight.TRAINING);
    ManagedReads(anns, desired.annotations, Preflight.LAST_CHECK);
  }

  /** The label set of a built base plus a cycle is one the daemon may want. */
  lemma CycleIsManaged(base: LabelSet, v: Labels.View, outcomes: seq<Preflight.Outcome>, now: string)
    requires Labels.Published(base.labels, v) && Labels.OwnedAnnotations(base.annotations)
    ensures DesiredIsManaged(Preflight.CycleLabels(base, outcomes, now))
  {
    hide IsManaged, Preflight.CycleLabels, Labels.CarriesAll;
    ReadinessKeys();
    Preflight.CycleLabelsMeaning(base, outcomes, now);
  }

  /** Labels survive the trip through the node, next to labels nobody of ours owns. */
  lemma LabelsReachTheNode(section: map<string, Json>, desired: map<string, string>, v: Labels.View)
    requires Managed(section) == AsJson(desired) && Labels.CarriesAll(desired, v) && Labels.ShowsSingles(desired, v)
    ensures Labels.CarriesAll(Strings(section), v) && Labels.ShowsSingles(Strings(section), v)
  {
    hide IsManaged, Managed, AsJson, Decimal, Strings, Labels.Apart, Lookup;
    forall l | Labels.Single(l)
      ensures Lookup(Strings(section), l) == Lookup(desired, l)
    {
      ManagedReads(section, desired, l);
    }
    CarriedInTheNode(section, desired, v);
  }

  lemma CarriedInTheNode(section: map<string, Json>, desired: map<string, string>, v: Labels.View)
    requires Managed(section) == AsJson(desired) && Labels.CarriesAll(desired, v)
    ensures Labels.CarriesAll(Strings(section), v)
  {
    hide IsManaged, Managed, AsJson, Decimal, Strings;
    forall f: Labels.Family
      ensures Labels.Carries(Strings(section), Labels.PrefixOf(f), Labels.SuffixOf(f), v.tables[f])
    {
      forall key: string
        ensures var l := Labels.PrefixOf(f) + key + Labels.SuffixOf(f);
          Lookup(Strings(section), l) == Lookup(desired, l)
      {
        Labels.FamilyLabelIsOwned(f, key);
        ManagedReads(section, desired, Labels.PrefixOf(f) + key + Labels.SuffixOf(f));
      }
    }
  }

  /** A run in which the daemon's last request is confirmed, no patch it had given up on having
      landed since its GET. */
  ghost predicate Reconciled(s: State, events: seq<Event>, desired: LabelSet) {
    && Initial(s) && AllAllowed(s, events)
    && events != [] && events[|events| - 1] == PatchConfirmed
    && var before := Run(s, events[..|events| - 1]);
    && before.daemon.Patching? && before.daemon.desired == desired && !before.late
  }

  lemma ManagedPartIsDesired(s: State, events: seq<Event>, desired: LabelSet)
    requires Reconciled(s, events, desired)
    ensures Managed(LabelsOf(Run(s, events))) == AsJson(desired.labels)
    ensures Managed(AnnotationsOf(Run(s, events))) == AsJson(desired.annotations)
  {
    ConfirmedPatchConverges(s, events);
  }

  /** After any history of cycles, reports and foreign writes that ends in a confirmed reconcile,
      the node carries the topology's labels, counts and all, says in both readiness labels whether
      the last cycle's checks passed, failed or were all skipped, and is marked degraded exactly
      when it names what failed. */
  lemma NodeShowsLastCycle(s: State, events: seq<Event>, base: LabelSet, v: Labels.View,
                           outcomes: seq<Preflight.Outcome>, now: string)
    requires Labels.Published(base.labels, v) && Labels.OwnedAnnotations(base.annotations)
    requires Reconciled(s, events, Preflight.CycleLabels(base, outcomes, now))
    ensures var labels, anns := LabelStrings(Run(s, events)), AnnotationStrings(Run(s, events));
      && Labels.CarriesAll(labels, v)
      && Labels.ShowsSingles(labels, v)
      && Preflight.SaysReadiness(LabelSet(labels, anns), outcomes, now)
      && (Lookup(labels, Preflight.INFERENCE) == Some("degraded") <==> Lookup(anns, Preflight.FAILED).Some?)
      && Lookup(anns, Preflight.FAILED) == (
        if Preflight.FailedLabels(outcomes) == [] then None else Some(Join(Preflight.FailedLabels(outcomes), ",")))
  {
    hide Labels.CarriesAll, Run, Reconciled, Managed, AsJson, Strings, LabelsOf, AnnotationsOf, IsManaged,
      Preflight.LabelValue, Preflight.FailedLabels, Preflight.Aggregate, Preflight.Statuses, Join, StartsWith,
      Preflight.SaysReadiness;
    var desired, after := Preflight.CycleLabels(base, outcomes, now), Run(s, events);
    ManagedPartIsDesired(s, events, desired);
    Preflight.CycleLabelsSayReadiness(base, outcomes, now);
    ReadinessReachesTheNode(LabelsOf(after), AnnotationsOf(after), desired, outcomes, now);
    CycleKeepsCounts(base, v, outcomes, now);
    LabelsReachTheNode(LabelsOf(after), desired.labels, v);
    ReadinessKeys();
    ManagedReads(LabelsOf(after), desired.labels, Preflight.INFERENCE);
    ManagedReads(AnnotationsOf(after), desired.annotations, Preflight.FAILED);
    assert Preflight.FAILED !in base.annotations;
    Preflight.CycleLabelsMeaning(base, outcomes, now);
  }

  /** The admin's readiness record, its verdict where no probe has reported (`VerdictIsTheProbers`),
      is that of the last cycle: ok exactly when some check passed and none failed or warned, with
      what failed as the reason. */
  lemma AdminReadsReadiness(s: State, events: seq<Event>, base: LabelSet, v: Labels.View,
                            outcomes: seq<Preflight.Outcome>, now: string)
    requires Labels.Published(base.labels, v) && Labels.OwnedAnnotations(base.annotations)
    requires Reconciled(s, events, Preflight.CycleLabels(base, outcomes, now))
    ensures var rec := Admin.ReadPreflight(LabelStrings(Run(s, events)), AnnotationStrings(Run(s, events)));
      && rec.Some? && rec.value.source == Admin.Readiness && rec.value.at == Admin.NonEmpty(now)
      && (rec.value.verdict == Some("ok") <==>
            && (exists o :: o in outcomes && o.status.Pass?)
            && !exists o :: o in outcomes && (o.status.Fail? || o.status.Warn?))
      && (rec.value.verdict == Some("degraded") <==>
            exists o :: o in outcomes && (o.status.Fail? || o.status.Warn?))
      && (rec.value.verdict == Some("unknown") <==> forall o | o in outcomes :: o.status.Skipped?)
      && (rec.value.reason.Some? ==> rec.value.reason == Some(Join(Preflight.FailedLabels(outcomes), ",")))
      && (Preflight.FailedLabels(outcomes) == [] ==> rec.value.reason.None?)
  {
    hide Labels.CarriesAll, Labels.Published, Labels.OwnedAnnotations, Labels.ShowsSingles, Reconciled, Run, LabelStrings,
      AnnotationStrings, Preflight.CycleLabels, Preflight.FailedLabels, Join, Preflight.Words, Preflight.Statuses;
    var labels, anns := LabelStrings(Run(s, events)), AnnotationStrings(Run(s, events));
    NodeShowsLastCycle(s, events, base, v, outcomes, now);
    Admin.ReadPreflightMeaning(labels, anns);
    var word := Lookup(labels, "accel-ready.lunnova.dev/inference").value;
    WordsRead(word, outcomes);
  }

  /** The readiness words as the admin renames them. */
  lemma WordsRead(word: string, outcomes: seq<Preflight.Outcome>)
    requires Preflight.Words(word, outcomes)
    ensures var verdict := if word == "true" then "ok" else if word == "false" then "fail" else word;
      && (verdict == "ok" <==>
            && (exists o :: o in outcomes && o.status.Pass?)
            && !exists o :: o in outcomes && (o.status.Fail? || o.status.Warn?))
      && (verdict == "degraded" <==> exists o :: o in outcomes && (o.status.Fail? || o.status.Warn?))
      && (verdict == "unknown" <==> forall o | o in outcomes :: o.status.Skipped?)
  {
    assert |"true"| == 4 && |"false"| == 5 && |"ok"| == 2 && |"degraded"| == 8 && |"unknown"| == 7;
  }

  /** The admin decodes a reconciled node's labels, next to whatever else is on the node, to the
      exact counts last published: those of the topology, where the base was built from it
      (`Labels.Build`, `Labels.TablesAre`, `Labels.CountsAreReadable`). */
  method AdminReadsCounts(labels: map<string, string>, ghost s: State, ghost events: seq<Event>, ghost base: LabelSet,
                          ghost v: Labels.View, ghost outcomes: seq<Preflight.Outcome>, ghost now: string)
    returns (vendors: map<string, nat>, models: map<string, nat>, fabric: map<string, nat>)
    requires Labels.Published(base.labels, v) && Labels.OwnedAnnotations(base.annotations) && Labels.Readable(v)
    requires Reconciled(s, events, Preflight.CycleLabels(base, outcomes, now))
    requires labels == LabelStrings(Run(s, events))
    ensures {Labels.Vendors, Labels.Models, Labels.Domains} <= v.tables.Keys
    ensures vendors == v.tables[Labels.Vendors] && models == v.tables[Labels.Models] && fabric == v.tables[Labels.Domains]
  {
    hide Labels.CarriesAll, Labels.Published, Labels.Readable, Reconciled, Run, LabelStrings, AnnotationStrings,
      Preflight.CycleLabels, Labels.OwnedAnnotations, Labels.ShowsSingles, Preflight.FailedLabels, Join;
    NodeShowsLastCycle(s, events, base, v, outcomes, now);
    vendors, models, fabric := Labels.ReadTables(labels, v);
  }

  // The prober's side

  /** The node as the prober lists it. */
  function Listed(name: string, s: State, conditions: seq<Pairing.Condition>): Pairing.Node {
    Pairing.Node(Some(name), Some(LabelStrings(s)), Some(AnnotationStrings(s)), Some(conditions))
  }

  lemma ProberKeysRead(s: State, events: seq<Event>, k: string)
    requires Initial(s) && AllAllowed(s, events)
    requires k in Annotations.KeySet(Annotations.RACK) + Annotations.KeySet(Annotations.LOOPBACK)
    ensures SameAt(AnnotationsOf(Run(s, events)), Annotations.After(AnnotationsOf(s), ReportsIn(events)), k)
  {
    hide Annotations.KeySet, Annotations.FamilyKeys, Annotations.DistinctKeys, Initial, AllAllowed, Run, SameAt;
    Annotations.FamiliesAreApart();
    ProberKeysUndisturbed(s, events, k);
  }

  lemma {:induction false} ReportsAreFamilies(s: State, events: seq<Event>)
    requires AllAllowed(s, events)
    ensures forall r | r in ReportsIn(events) :: Annotations.IsFamily(r.keys)
  {
    if events != [] {
      ReportsAreFamilies(s, events[..|events| - 1]);
    }
  }

  lemma FamilyFollows(s: State, events: seq<Event>, keys: Annotations.Keys)
    requires Initial(s) && AllAllowed(s, events) && Annotations.IsFamily(keys)
    ensures Admin.Follows(AnnotationsOf(Run(s, events)), AnnotationsOf(s), ReportsIn(events), keys)
  {
    hide Annotations.KeySet, Annotations.FamilyKeys, Initial, AllAllowed, Run, SameAt;
    forall k | k in Annotations.KeySet(keys)
      ensures SameAt(AnnotationsOf(Run(s, events)), Annotations.After(AnnotationsOf(s), ReportsIn(events)), k)
    {
      ProberKeysRead(s, events, k);
    }
  }

  /** Whatever the daemon and the others do, the verdict the admin shows for a node is the latest
      rack report's; without one the pair verdict stays what it was, and with no pair verdict at
      all a loopback report or else the readiness label speaks. */
  lemma VerdictIsTheProbers(s: State, events: seq<Event>, parse: Admin.ParseFigure)
    requires Initial(s) && AllAllowed(s, events)
    ensures var after := Run(s, events);
      var rec := Admin.ResolveVerdict(AnnotationStrings(after), LabelStrings(after), parse);
      var rack := Annotations.Latest(ReportsIn(events), Annotations.RACK);
      var loopback := Annotations.Latest(ReportsIn(events), Annotations.LOOPBACK);
      var pairBefore := Admin.ReadFamily(AnnotationStrings(s), Annotations.RACK, Admin.Pair, parse);
      var loopbackBefore := Admin.ReadFamily(AnnotationStrings(s), Annotations.LOOPBACK, Admin.Loopback, parse);
      if rack.Some? then rec.Some? && Admin.Tells(rec.value, rack.value, Admin.Pair, parse)
      else if pairBefore.Some? then rec == pairBefore
      else if loopback.Some? then rec.Some? && Admin.Tells(rec.value, loopback.value, Admin.Loopback, parse)
      else if loopbackBefore.Some? then rec == loopbackBefore
      else rec == Admin.ReadPreflight(LabelStrings(after), AnnotationStrings(after))
  {
    hide Annotations.KeySet, Annotations.FamilyKeys, Annotations.EntriesOf, Initial, AllAllowed, Admin.Follows,
      Run, LabelsOf, Strings, Admin.ResolveVerdict, Admin.ReadPreflight, Admin.ReadFamily, Admin.Tells, AnnotationsOf,
      Annotations.Latest;
    var after, reports := Run(s, events), ReportsIn(events);
    ReportsAreFamilies(s, events);
    FamilyFollows(s, events, Annotations.RACK);
    FamilyFollows(s, events, Annotations.LOOPBACK);
    Admin.StrongestSourceSpeaks(AnnotationsOf(s), reports, LabelStrings(after), parse, AnnotationsOf(after));
  }

  /** The prober's view of a node: it takes part exactly when the labels last published give a
      rack and an active RoCE device, under that rack. */
  lemma ProberSeesTopology(s: State, events: seq<Event>, base: LabelSet, v: Labels.View,
                           outcomes: seq<Preflight.Outcome>, now: string,
                           name: string, conditions: seq<Pairing.Condition>)
    requires Labels.Published(base.labels, v) && Labels.OwnedAnnotations(base.annotations)
    requires Reconciled(s, events, Preflight.CycleLabels(base, outcomes, now))
    ensures var view, rack := Pairing.FromNode(Listed(name, Run(s, events), conditions)), Lookup(v.singles, Labels.RACK);
      && (view.Some? <==> rack.Some? && Lookup(v.singles, Labels.RDMA) == Some("present"))
      && (view.Some? ==> view.value.name == name && Some(view.value.rack) == rack)
  {
    hide Labels.CarriesAll, Run, Reconciled, Preflight.CycleLabels, AnnotationStrings, LabelStrings,
      Labels.OwnedAnnotations, Labels.Published, Labels.Single, Preflight.FailedLabels, Join;
    NodeShowsLastCycle(s, events, base, v, outcomes, now);
    Labels.KnownSingles();
    assert Labels.RACK == Pairing.RACK_LABEL && Labels.RDMA == Pairing.RDMA_LABEL;
  }

  lemma LastAtKeys()
    ensures Pairing.ANN_LAST_AT == Annotations.RACK.lastAt && Pairing.ANN_LB_LAST_AT == Annotations.LOOPBACK.lastAt
    ensures Annotations.RACK.lastAt in Annotations.KeySet(Annotations.RACK)
    ensures Annotations.LOOPBACK.lastAt in Annotations.KeySet(Annotations.LOOPBACK)
  {
  }

  /** The time stamp a history of reports leaves behind. */
  lemma StampOfHistory(anns: map<string, Json>, reports: seq<Annotations.Report>, section: map<string, Json>,
                       keys: Annotations.Keys)
    requires Annotations.SeenFrom(reports, keys) && keys.lastAt in Annotations.KeySet(keys)
    requires SameAt(section, Annotations.After(anns, reports), keys.lastAt)
    ensures var last := Annotations.Latest(reports, keys);
      Lookup(Strings(section), keys.lastAt)
        == if last.Some? then Some(last.value.now) else Lookup(Strings(anns), keys.lastAt)
  {
    hide Annotations.Entries, Annotations.KeySet, Annotations.DistinctKeys, Annotations.FamilyKeys, Annotations.Latest,
      Annotations.After;
    var last := Annotations.Latest(reports, keys);
    if last.Some? {
      Annotations.HistoryShowsLatest(anns, reports, keys);
      var r := last.value;
      Annotations.EntriesMeaning(r.keys, r.partner, r.now, r.verdict);
      assert Annotations.Sets(Annotations.EntriesOf(r), keys.lastAt, r.now);
    } else {
      Admin.NeverReported(anns, reports, keys);
    }
  }

  /** The stamp of one family on a node, in every interleaving. */
  lemma StampRead(s: State, events: seq<Event>, keys: Annotations.Keys)
    requires Initial(s) && AllAllowed(s, events) && Annotations.IsFamily(keys)
    ensures var last := Annotations.Latest(ReportsIn(events), keys);
      Lookup(AnnotationStrings(Run(s, events)), keys.lastAt)
        == if last.Some? then Some(last.value.now) else Lookup(AnnotationStrings(s), keys.lastAt)
  {
    hide Annotations.KeySet, Annotations.FamilyKeys, Annotations.EntriesOf, Annotations.SeenFrom, Annotations.Latest,
      Initial, AllAllowed, Run, LabelsOf, AnnotationsOf, SameAt;
    var reports := ReportsIn(events);
    LastAtKeys();
    ReportsAreFamilies(s, events);
    Annotations.ProberReports(reports, keys);
    ProberKeysRead(s, events, keys.lastAt);
    StampOfHistory(AnnotationsOf(s), reports, AnnotationsOf(Run(s, events)), keys);
  }

  /** The stamp the next pass compares is the one of the latest rack report, or the one there
      was, in every interleaving with the daemon. */
  lemma ProberSeesLatestStamp(s: State, events: seq<Event>, name: string, conditions: seq<Pairing.Condition>)
    requires Initial(s) && AllAllowed(s, events)
    ensures var view := Pairing.FromNode(Listed(name, Run(s, events), conditions));
      var rack, loopback := Annotations.Latest(ReportsIn(events), Annotations.RACK), Annotations.Latest(ReportsIn(events), Annotations.LOOPBACK);
      var was, wasLoopback := Lookup(AnnotationStrings(s), Pairing.ANN_LAST_AT), Lookup(AnnotationStrings(s), Pairing.ANN_LB_LAST_AT);
      view.Some? ==>
        && view.value.lastAt == (if rack.Some? then Some(rack.value.now) else was)
        && view.value.lastLoopbackAt == (if loopback.Some? then Some(loopback.value.now) else wasLoopback)
  {
    hide Annotations.KeySet, Annotations.FamilyKeys, Annotations.Latest, Initial, AllAllowed, Run, AnnotationStrings,
      LabelStrings, ReportsIn;
    LastAtKeys();
    StampRead(s, events, Annotations.RACK);
    StampRead(s, events, Annotations.LOOPBACK);
  }

  // One pass of the prober is one step of the rack

  /** A node through a pass: its history before it, what happened to it during it, the readiness
      listed before and after, and its partner if it was probed. */
  datatype Passage = Passage(
    name: string, start: State, history: seq<Event>, during: seq<Event>,
    before: seq<Pairing.Condition>, after: seq<Pairing.Condition>, partner: string)

  function ViewBefore(p: Passage): Option<Pairing.NodeView> {
    Pairing.FromNode(Listed(p.name, Run(p.start, p.history), p.before))
  }

  function ViewAfter(p: Passage): Option<Pairing.NodeView> {
    Pairing.FromNode(Listed(p.name, Run(p.start, p.history + p.during), p.after))
  }

  /** The report a pair probe makes to one of its nodes. */
  function PairReport(partner: string, now: string, v: Annotations.Verdict): Annotations.Report {
    Annotations.Report(Annotations.RACK, Some(partner), now, v)
  }

  /** The two patches of a pair probe are those two reports, each naming the other node; the patch
      of a loopback probe is one report of the other family. */
  lemma PatchesAreReports(a: string, b: string, now: string, v: Annotations.Verdict)
    ensures Probe.PairPatches(a, b, now, v) == [
      Probe.Patched(a, Annotations.Body(Annotations.EntriesOf(PairReport(b, now, v)))),
      Probe.Patched(b, Annotations.Body(Annotations.EntriesOf(PairReport(a, now, v))))]
    ensures Probe.LoopbackPatches(a, now, v) == [
      Probe.Patched(a, Annotations.Body(Annotations.EntriesOf(Annotations.Report(Annotations.LOOPBACK, None, now, v))))]
  {
  }

  /** A passage in which the node keeps its place and gets its report if it was picked, and no
      other from the prober. */
  ghost predicate Passes(p: Passage, picked: bool, now: string, v: Annotations.Verdict) {
    && Initial(p.start) && AllAllowed(p.start, p.history) && AllAllowed(p.start, p.history + p.during)
    && ReportsIn(p.during) == (if picked then [PairReport(p.partner, now, v)] else [])
    && ViewBefore(p).Some? && ViewAfter(p).Some? && ViewAfter(p).value.rack == ViewBefore(p).value.rack
  }

  lemma {:induction false} ReportsInTwo(a: seq<Event>, b: seq<Event>)
    ensures ReportsIn(a + b) == ReportsIn(a) + ReportsIn(b)
  {
    if b == [] {
      assert a + b == a;
    } else {
      assert (a + b)[..|a + b| - 1] == a + b[..|b| - 1];
      ReportsInTwo(a, b[..|b| - 1]);
    }
  }

  lemma LatestWithPairReport(reports: seq<Annotations.Report>, r: Annotations.Report)
    requires r.keys == Annotations.RACK
    ensures Annotations.Latest(reports + [r], Annotations.RACK) == Some(r)
    ensures Annotations.Latest(reports + [r], Annotations.LOOPBACK) == Annotations.Latest(reports, Annotations.LOOPBACK)
  {
    assert (reports + [r])[..|reports|] == reports;
    assert Annotations.RACK.lastPartner.Some? && Annotations.LOOPBACK.lastPartner.None?;
  }

  lemma NodeSteps(p: Passage, picked: bool, now: string, v: Annotations.Verdict)
    requires Passes(p, picked, now, v)
    ensures ViewBefore(p).value.name == p.name
    ensures ViewAfter(p).value == if picked then ViewBefore(p).value.(lastAt := Some(now)) else ViewBefore(p).value
  {
    hide Initial, AllAllowed, Run, AnnotationStrings, LabelStrings, Annotations.FamilyKeys, Annotations.Latest, ReportsIn;
    ReportsInTwo(p.history, p.during);
    ProberSeesLatestStamp(p.start, p.history, p.name, p.before);
    ProberSeesLatestStamp(p.start, p.history + p.during, p.name, p.after);
    if picked {
      LatestWithPairReport(ReportsIn(p.history), PairReport(p.partner, now, v));
    } else {
      assert ReportsIn(p.history) + [] == ReportsIn(p.history);
    }
  }

  /** When both patches of the pair picked land and no other report does, one pass changes the
      prober's view of the rack by exactly the step that `Coverage` iterates, whatever the daemon
      and the others do to the nodes meanwhile. */
  lemma PassIsStep(rack: seq<Passage>, pass: Coverage.Pass, v: Annotations.Verdict,
                   before: seq<Pairing.NodeView>, after: seq<Pairing.NodeView>)
    requires |before| == |after| == |rack|
    requires forall i | 0 <= i < |rack| ::
      && Passes(rack[i], rack[i].name in Coverage.Picked(before, pass.cutoff), pass.stamp, v)
      && before[i] == ViewBefore(rack[i]).value && after[i] == ViewAfter(rack[i]).value
    ensures after == Coverage.Step(before, pass)
  {
    hide Passes, Coverage.Picked, Initial, AllAllowed, Run, AnnotationStrings, LabelStrings;
    var names, next := Coverage.Picked(before, pass.cutoff), Coverage.Step(before, pass);
    forall i | 0 <= i < |rack|
      ensures after[i] == next[i]
    {
      NodeSteps(rack[i], rack[i].name in names, pass.stamp, v);
    }
  }
}
