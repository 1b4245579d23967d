/** Three writers on one Node object: the daemon's labeler with its GET-then-PATCH, the prober's
    reports, and everything else in the cluster.  An event is one request reaching the API
    server; a run is any sequence of events, so every interleaving is covered.  A PATCH that the
    daemon gave up on may have landed, may never land, or may still land at any later time. */
module NodeWriters {
  import opened Text
  import opened MergePatch
  import opened NodeObject
  import opened Labeler
  import Annotations

  datatype Daemon =
    | Idle
    | Patching(labels: map<string, string>, annotations: map<string, string>, desired: LabelSet, attempt: nat)

  /** A patch the daemon has sent: what it was computed from, and for what. */
  datatype Sent = Sent(labels: map<string, string>, annotations: map<string, string>, desired: LabelSet)

  /** The node, the daemon between its requests, the patches given up on that may still land,
      whether one of them has landed since the daemon's last GET, and the unmanaged keys as the
      other writers alone would have left them. */
  datatype State = State(node: Json, daemon: Daemon, inFlight: seq<Sent>, late: bool,
                         restLabels: map<string, Json>, restAnnotations: map<string, Json>)

  /** What became of a PATCH that reported an error. */
  datatype Landing = AtOnce | Never | Later

  datatype Event =
    | Get(desired: LabelSet)
    | GetFailed
    | PatchConfirmed
    | PatchFailed(landing: Landing)
    | LandedLate(i: nat)
    | Reported(report: Annotations.Report)
    | Other(labels: map<string, Json>, annotations: map<string, Json>)

  function LabelsOf(s: State): map<string, Json> { Section(s.node, LABELS) }

  function AnnotationsOf(s: State): map<string, Json> { Section(s.node, ANNOTATIONS) }

  /** Which writer may do what: the daemon desires only keys it manages, the prober writes its
      own families, and nobody else writes either's keys. */
  ghost predicate Allowed(s: State, e: Event) {
    match e
    case Get(desired) => s.daemon.Idle? && DesiredIsManaged(desired)
    case GetFailed => s.daemon.Idle?
    case PatchConfirmed => s.daemon.Patching?
    case PatchFailed(_) => s.daemon.Patching?
    case LandedLate(i) => i < |s.inFlight|
    case Reported(r) => Annotations.IsFamily(r.keys)
    case Other(labels, annotations) =>
      && Flat(labels) && Flat(annotations)
      && (forall k | k in labels :: !Ours(k))
      && (forall k | k in annotations :: !Ours(k) && !("accel-test.lunnova.dev/" <= k))
  }

  function Sending(s: State): Sent
    requires s.daemon.Patching?
  {
    Sent(s.daemon.labels, s.daemon.annotations, s.daemon.desired)
  }

  function Land(node: Json, p: Sent): Json {
    Merge(node, Patch(p.labels, p.annotations, p.desired))
  }

  function Next(s: State, e: Event): State {
    match e
    case Get(desired) => s.(daemon := Patching(Strings(LabelsOf(s)), Strings(AnnotationsOf(s)), desired, 0), late := false)
    case GetFailed => s
    case PatchConfirmed => if s.daemon.Idle? then s else s.(node := Land(s.node, Sending(s)), daemon := Idle)
    case PatchFailed(landing) =>
      if s.daemon.Idle? then s
      else s.(node := if landing.AtOnce? then Land(s.node, Sending(s)) else s.node,
              inFlight := s.inFlight + (if landing.Later? then [Sending(s)] else []),
              daemon := if s.daemon.attempt + 1 == MAX_ATTEMPTS then Idle
                        else s.daemon.(attempt := s.daemon.attempt + 1))
    case LandedLate(i) =>
      if i >= |s.inFlight| then s
      else s.(node := Land(s.node, s.inFlight[i]), inFlight := s.inFlight[..i] + s.inFlight[i + 1..], late := true)
    case Reported(r) =>
      s.(node := Merge(s.node, Annotations.Body(Annotations.EntriesOf(r))),
         restAnnotations := Overlay(s.restAnnotations, Annotations.EntriesOf(r)))
    case Other(labels, annotations) =>
      s.(node := Merge(s.node, MetadataPatch(map[LABELS := labels, ANNOTATIONS := annotations])),
         restLabels := Overlay(s.restLabels, labels),
         restAnnotations := Overlay(s.restAnnotations, annotations))
  }

  ghost predicate StringsOnly(section: map<string, Json>) {
    forall k | k in section :: section[k].String?
  }

  /** Every managed key is one the daemon saw or one it wants. */
  ghost predicate Known(section: map<string, Json>, snapshot: map<string, string>, desired: map<string, string>) {
    forall k | k in section && IsManaged(k) :: k in snapshot || k in desired
  }

  ghost predicate SectionInv(section: map<string, Json>, rest: map<string, Json>) {
    StringsOnly(section) && Unmanaged(section) == rest
  }

  ghost predicate Inv(s: State) {
    && SectionInv(LabelsOf(s), s.restLabels)
    && SectionInv(AnnotationsOf(s), s.restAnnotations)
    && (forall p | p in s.inFlight :: DesiredIsManaged(p.desired))
    && (s.daemon.Patching? ==>
          && s.daemon.attempt < MAX_ATTEMPTS
          && DesiredIsManaged(s.daemon.desired)
          && (!s.late ==> NodeKnown(s.node, Sending(s))))
  }

  /** Every managed key of the node is one a patch's GET saw or one the patch sets. */
  ghost predicate NodeKnown(node: Json, p: Sent) {
    && Known(Section(node, LABELS), p.labels, p.desired.labels)
    && Known(Section(node, ANNOTATIONS), p.annotations, p.desired.annotations)
  }

  /** A node nobody is patching yet. */
  ghost predicate Initial(s: State) {
    && StringsOnly(LabelsOf(s)) && StringsOnly(AnnotationsOf(s)) && s.daemon.Idle? && s.inFlight == []
    && s.restLabels == Unmanaged(LabelsOf(s)) && s.restAnnotations == Unmanaged(AnnotationsOf(s))
  }

  function Run(s: State, events: seq<Event>): State {
    if events == [] then s else Next(Run(s, events[..|events| - 1]), events[|events| - 1])
  }

  ghost predicate AllAllowed(s: State, events: seq<Event>)
    decreases |events|
  {
    events != [] ==>
      var before := events[..|events| - 1];
      AllAllowed(s, before) && Allowed(Run(s, before), events[|events| - 1])
  }

  // What each request does to a section

  lemma MergedIsFlat(snapshot: map<string, string>, desired: map<string, string>)
    ensures Flat(Merged(snapshot, desired))
  {
  }

  lemma OverlayStrings(section: map<string, Json>, entries: map<string, Json>)
    requires StringsOnly(section) && Flat(entries)
    ensures StringsOnly(Overlay(section, entries))
  {
  }

  lemma LandSections(node: Json, p: Sent)
    ensures Section(Land(node, p), LABELS) == Overlay(Section(node, LABELS), Merged(p.labels, p.desired.labels))
    ensures Section(Land(node, p), ANNOTATIONS)
      == Overlay(Section(node, ANNOTATIONS), Merged(p.annotations, p.desired.annotations))
  {
    hide Merge, Overlay, Merged, Section;
    MergedIsFlat(p.labels, p.desired.labels);
    MergedIsFlat(p.annotations, p.desired.annotations);
    var sections := map[LABELS := Merged(p.labels, p.desired.labels),
                        ANNOTATIONS := Merged(p.annotations, p.desired.annotations)];
    assert |LABELS| != |ANNOTATIONS|;
    PatchSection(node, sections, LABELS);
    PatchSection(node, sections, ANNOTATIONS);
  }

  /** Where a patch lands, the unmanaged keys stay; the managed keys become the desired ones
      exactly when its GET had seen all the others. */
  lemma LandOneSection(
    section: map<string, Json>, rest: map<string, Json>, snapshot: map<string, string>, desired: map<string, string>)
    requires SectionInv(section, rest) && AllManaged(desired)
    ensures var after := Overlay(section, Merged(snapshot, desired));
      && SectionInv(after, rest)
      && (Managed(after) == AsJson(desired) <==> Known(section, snapshot, desired))
      && (Known(section, snapshot, desired) ==> Known(after, snapshot, desired))
  {
    hide IsManaged, Managed, AsJson, Unmanaged;
    var after := Overlay(section, Merged(snapshot, desired));
    MergedIsFlat(snapshot, desired);
    OverlayStrings(section, Merged(snapshot, desired));
    MergedKeepsUnmanaged(section, snapshot, desired);
    if Known(section, snapshot, desired) {
      MergedConverges(section, snapshot, desired);
      OnlyDesired(after, desired);
    } else {
      var k :| k in section && IsManaged(k) && k !in snapshot && k !in desired;
      UnknownKeyStays(section, snapshot, desired, k);
    }
  }

  lemma MergedKeepsUnmanaged(section: map<string, Json>, snapshot: map<string, string>, desired: map<string, string>)
    requires AllManaged(desired)
    ensures Unmanaged(Overlay(section, Merged(snapshot, desired))) == Unmanaged(section)
  {
    hide IsManaged;
  }

  lemma OnlyDesired(section: map<string, Json>, desired: map<string, string>)
    requires Managed(section) == AsJson(desired)
    ensures forall k | k in section && IsManaged(k) :: k in desired
  {
    hide IsManaged;
    forall k | k in section && IsManaged(k)
      ensures k in desired
    {
      assert k in Managed(section);
    }
  }

  lemma UnknownKeyStays(section: map<string, Json>, snapshot: map<string, string>, desired: map<string, string>, k: string)
    requires k in section && IsManaged(k) && k !in snapshot && k !in desired
    ensures k in Overlay(section, Merged(snapshot, desired))
    ensures Managed(Overlay(section, Merged(snapshot, desired))) != AsJson(desired)
  {
    hide IsManaged;
    assert k in Managed(Overlay(section, Merged(snapshot, desired))) && k !in AsJson(desired);
  }

  /** Landing a patch, in time or late: unmanaged keys are left alone, and both sections reach the
      desired state exactly when every managed key is known. */
  lemma LandConverges(node: Json, p: Sent, restLabels: map<string, Json>, restAnnotations: map<string, Json>)
    requires SectionInv(Section(node, LABELS), restLabels) && SectionInv(Section(node, ANNOTATIONS), restAnnotations)
    requires DesiredIsManaged(p.desired)
    ensures var after := Land(node, p);
      && SectionInv(Section(after, LABELS), restLabels) && SectionInv(Section(after, ANNOTATIONS), restAnnotations)
      && (Managed(Section(after, LABELS)) == AsJson(p.desired.labels)
          <==> Known(Section(node, LABELS), p.labels, p.desired.labels))
      && (Managed(Section(after, ANNOTATIONS)) == AsJson(p.desired.annotations)
          <==> Known(Section(node, ANNOTATIONS), p.annotations, p.desired.annotations))
      && (NodeKnown(node, p) ==> NodeKnown(after, p))
  {
    hide Merge, Overlay, Merged, Section, Managed, Unmanaged, Land, IsManaged, Known, AsJson, SectionInv;
    LandSections(node, p);
    LandOneSection(Section(node, LABELS), restLabels, p.labels, p.desired.labels);
    LandOneSection(Section(node, ANNOTATIONS), restAnnotations, p.annotations, p.desired.annotations);
  }

  lemma OtherSections(node: Json, labels: map<string, Json>, annotations: map<string, Json>)
    requires Flat(labels) && Flat(annotations)
    ensures var after := Merge(node, MetadataPatch(map[LABELS := labels, ANNOTATIONS := annotations]));
      && Section(after, LABELS) == Overlay(Section(node, LABELS), labels)
      && Section(after, ANNOTATIONS) == Overlay(Section(node, ANNOTATIONS), annotations)
  {
    hide Merge, Overlay, Section;
    var sections := map[LABELS := labels, ANNOTATIONS := annotations];
    assert |LABELS| != |ANNOTATIONS|;
    PatchSection(node, sections, LABELS);
    PatchSection(node, sections, ANNOTATIONS);
  }

  lemma ReportSections(node: Json, entries: map<string, Json>)
    requires Flat(entries)
    ensures var after := Merge(node, Annotations.Body(entries));
      && Section(after, LABELS) == Section(node, LABELS)
      && Section(after, ANNOTATIONS) == Overlay(Section(node, ANNOTATIONS), entries)
  {
    hide Merge, Overlay, Section;
    assert |LABELS| != |ANNOTATIONS|;
    PatchSection(node, map[ANNOTATIONS := entries], LABELS);
    PatchSection(node, map[ANNOTATIONS := entries], ANNOTATIONS);
  }

  lemma WriteOneSection(
    section: map<string, Json>, rest: map<string, Json>, entries: map<string, Json>,
    snapshot: map<string, string>, desired: map<string, string>)
    requires SectionInv(section, rest) && Flat(entries) && forall k | k in entries :: !IsManaged(k)
    ensures var after := Overlay(section, entries);
      && SectionInv(after, Overlay(rest, entries)) && Managed(after) == Managed(section)
      && (Known(section, snapshot, desired) ==> Known(after, snapshot, desired))
  {
    hide IsManaged;
    OverlayStrings(section, entries);
  }

  lemma ReportEntriesUnmanaged(r: Annotations.Report)
    requires Annotations.IsFamily(r.keys)
    ensures Flat(Annotations.EntriesOf(r)) && Annotations.EntriesOf(r).Keys <= Annotations.KeySet(r.keys)
    ensures forall k | k in Annotations.EntriesOf(r) :: StartsWith(k, Annotations.TEST_PREFIX) && !IsManaged(k)
  {
    hide Annotations.Entries, Annotations.DistinctKeys, Annotations.KeySet, Annotations.FamilyKeys,
      IsManaged, StartsWith;
    Annotations.FamiliesAreApart();
    Annotations.EntriesMeaning(r.keys, r.partner, r.now, r.verdict);
    forall k | k in Annotations.EntriesOf(r)
      ensures StartsWith(k, Annotations.TEST_PREFIX) && !IsManaged(k)
    {
      assert k in Annotations.KeySet(r.keys);
      TestKeysAreUnmanaged(k);
    }
  }

  function Snapshot(d: Daemon): LabelSet {
    if d.Patching? then LabelSet(d.labels, d.annotations) else LabelSet(map[], map[])
  }

  function Wanted(d: Daemon): LabelSet {
    if d.Patching? then d.desired else LabelSet(map[], map[])
  }

  lemma ForeignEntries(labels: map<string, Json>, annotations: map<string, Json>, s: State)
    requires Allowed(s, Other(labels, annotations))
    ensures forall k | k in labels :: !IsManaged(k)
    ensures forall k | k in annotations :: !IsManaged(k) && !StartsWith(k, Annotations.TEST_PREFIX)
  {
    hide IsManaged, Ours;
    ManagedAreOurs();
  }

  /** The other writers never touch a managed key. */
  lemma WriteKeepsManaged(s: State, e: Event)
    requires Inv(s) && Allowed(s, e) && (e.Reported? || e.Other?)
    ensures Inv(Next(s, e))
    ensures Managed(LabelsOf(Next(s, e))) == Managed(LabelsOf(s))
    ensures Managed(AnnotationsOf(Next(s, e))) == Managed(AnnotationsOf(s))
  {
    hide Merge, Overlay, Section, Managed, Unmanaged, IsManaged, Known, MetadataPatch, Annotations.EntriesOf,
      Annotations.IsFamily, StartsWith;
    var was, want := Snapshot(s.daemon), Wanted(s.daemon);
    match e {
      case Reported(r) =>
        var entries := Annotations.EntriesOf(r);
        ReportEntriesUnmanaged(r);
        ReportSections(s.node, entries);
        WriteOneSection(AnnotationsOf(s), s.restAnnotations, entries, was.annotations, want.annotations);
      case Other(labels, annotations) =>
        ForeignEntries(labels, annotations, s);
        OtherSections(s.node, labels, annotations);
        WriteOneSection(LabelsOf(s), s.restLabels, labels, was.labels, want.labels);
        WriteOneSection(AnnotationsOf(s), s.restAnnotations, annotations, was.annotations, want.annotations);
    }
  }

  lemma GetKnowsAll(section: map<string, Json>, desired: map<string, string>)
    requires StringsOnly(section)
    ensures Known(section, Strings(section), desired)
  {
  }

  lemma NextInv(s: State, e: Event)
    requires Inv(s) && Allowed(s, e)
    ensures Inv(Next(s, e))
  {
    hide Merge, Section, Managed, Unmanaged, IsManaged, Known, Land, AsJson, SectionInv, DesiredIsManaged;
    match e {
      case Get(desired) => GetInv(s, desired);
      case GetFailed =>
      case PatchConfirmed => LandConverges(s.node, Sending(s), s.restLabels, s.restAnnotations);
      case PatchFailed(_) => LandConverges(s.node, Sending(s), s.restLabels, s.restAnnotations);
      case LandedLate(i) => LandConverges(s.node, s.inFlight[i], s.restLabels, s.restAnnotations);
      case Reported(_) => WriteKeepsManaged(s, e);
      case Other(_, _) => WriteKeepsManaged(s, e);
    }
  }

  lemma GetInv(s: State, desired: LabelSet)
    requires Inv(s) && Allowed(s, Get(desired))
    ensures Inv(Next(s, Get(desired)))
  {
    hide Merge, Section, Managed, Unmanaged, IsManaged, Known, Land;
    GetKnowsAll(LabelsOf(s), desired.labels);
    GetKnowsAll(AnnotationsOf(s), desired.annotations);
  }

  lemma {:induction false} RunInv(s: State, events: seq<Event>)
    requires Initial(s) && AllAllowed(s, events)
    ensures Inv(Run(s, events))
  {
    hide Inv, Allowed, Next;
    if events == [] {
      InitialInv(s);
    } else {
      RunInv(s, events[..|events| - 1]);
      NextInv(Run(s, events[..|events| - 1]), events[|events| - 1]);
    }
  }

  lemma InitialInv(s: State)
    requires Initial(s)
    ensures Inv(s)
  {
  }

  /** In every interleaving, when the daemon's patch is confirmed, the managed keys are exactly the
      desired ones if and only if each one there was had been seen by its GET or is wanted; that
      is so unless a patch given up on has landed since.  The unmanaged keys are exactly as the
      other writers last left them in any case. */
  lemma ConfirmedPatchConverges(s: State, events: seq<Event>)
    requires Initial(s) && AllAllowed(s, events)
    requires events != [] && events[|events| - 1] == PatchConfirmed
    ensures var before, after := Run(s, events[..|events| - 1]), Run(s, events);
      && before.daemon.Patching?
      && (Managed(LabelsOf(after)) == AsJson(before.daemon.desired.labels)
          <==> Known(LabelsOf(before), before.daemon.labels, before.daemon.desired.labels))
      && (Managed(AnnotationsOf(after)) == AsJson(before.daemon.desired.annotations)
          <==> Known(AnnotationsOf(before), before.daemon.annotations, before.daemon.desired.annotations))
      && (!before.late ==>
            && Managed(LabelsOf(after)) == AsJson(before.daemon.desired.labels)
            && Managed(AnnotationsOf(after)) == AsJson(before.daemon.desired.annotations))
      && Unmanaged(LabelsOf(after)) == after.restLabels
      && Unmanaged(AnnotationsOf(after)) == after.restAnnotations
  {
    hide Merge, Section, Managed, Unmanaged, IsManaged, Known, Land, AsJson;
    var init := events[..|events| - 1];
    var before := Run(s, init);
    RunInv(s, init);
    LandConverges(before.node, Sending(before), before.restLabels, before.restAnnotations);
  }

  lemma {:induction false} RunInTwo(s: State, a: seq<Event>, b: seq<Event>)
    ensures Run(s, a + b) == Run(Run(s, a), b)
  {
    hide Next;
    if b == [] {
      assert a + b == a;
    } else {
      assert (a + b)[..|a + b| - 1] == a + b[..|b| - 1];
      RunInTwo(s, a, b[..|b| - 1]);
    }
  }

  lemma {:induction false} SinceGet(s: State, desired: LabelSet, since: seq<Event>)
    requires forall e | e in since :: !e.LandedLate? && !e.Get?
    ensures var t := Run(Next(s, Get(desired)), since);
      !t.late && (t.daemon.Patching? ==> t.daemon.desired == desired)
  {
    hide Land, Merge, Annotations.EntriesOf, Overlay;
    if since != [] {
      SinceGet(s, desired, since[..|since| - 1]);
      assert since[|since| - 1] in since;
    }
  }

  /** The next GET settles what landed late: a reconcile during which nothing lands late reaches
      the desired state, whatever happened before it. */
  lemma NextReconcileRecovers(s: State, before: seq<Event>, desired: LabelSet, since: seq<Event>)
    requires forall e | e in since :: !e.LandedLate? && !e.Get?
    requires Initial(s) && AllAllowed(s, before + [Get(desired)] + since + [PatchConfirmed])
    ensures var after := Run(s, before + [Get(desired)] + since + [PatchConfirmed]);
      && Managed(LabelsOf(after)) == AsJson(desired.labels)
      && Managed(AnnotationsOf(after)) == AsJson(desired.annotations)
  {
    hide Initial, AllAllowed, Managed, AsJson, LabelsOf, AnnotationsOf, Known, Unmanaged, Next;
    var init := before + [Get(desired)] + since;
    var events := init + [PatchConfirmed];
    assert events[..|events| - 1] == init;
    ConfirmedPatchConverges(s, events);
    RunInTwo(s, before, [Get(desired)] + since);
    assert init == before + ([Get(desired)] + since);
    RunInTwo(Run(s, before), [Get(desired)], since);
    assert [Get(desired)][..0] == [];
    assert Run(Run(s, before), [Get(desired)]) == Next(Run(s, before), Get(desired));
    SinceGet(Run(s, before), desired, since);
  }

  /** The condition can fail: a patch given up on lands between the next GET and its PATCH, and a
      key that only the older one wanted survives the confirmed reconcile. */
  lemma LateLandingLeavesKey(s: State, older: LabelSet, newer: LabelSet, k: string) returns (events: seq<Event>)
    requires Initial(s) && DesiredIsManaged(older) && DesiredIsManaged(newer)
    requires k in older.labels && k !in newer.labels && k !in LabelsOf(s)
    ensures AllAllowed(s, events) && events != [] && events[|events| - 1] == PatchConfirmed
    ensures Run(s, events[..|events| - 1]).daemon.Patching?
    ensures Run(s, events[..|events| - 1]).daemon.desired == newer && k in LabelsOf(Run(s, events))
  {
    hide Land, Initial, DesiredIsManaged, Section, IsManaged;
    InitialStart(s);
    var sent := Sent(Strings(LabelsOf(s)), Strings(AnnotationsOf(s)), older);
    var e1 := [Get(older)];
    var e2 := e1 + [PatchFailed(Later)];
    var e3 := e2 + [PatchFailed(Never)];
    var e4 := e3 + [PatchFailed(Never)];
    var e5 := e4 + [Get(newer)];
    var e6 := e5 + [LandedLate(0)];
    events := e6 + [PatchConfirmed];
    Snoc(s, [], Get(older));
    assert [] + [Get(older)] == e1;
    Snoc(s, e1, PatchFailed(Later));
    Snoc(s, e2, PatchFailed(Never));
    Snoc(s, e3, PatchFailed(Never));
    Snoc(s, e4, Get(newer));
    Snoc(s, e5, LandedLate(0));
    Snoc(s, e6, PatchConfirmed);
    assert Run(s, e4).node == s.node && Run(s, e4).daemon.Idle? && Run(s, e4).inFlight == [sent];
    var t := Run(s, e5);
    assert t.node == s.node && t.inFlight == [sent] && t.daemon.Patching? && t.daemon.desired == newer;
    var u := Run(s, e6);
    assert u.node == Land(s.node, sent) && u.daemon == t.daemon;
    LateKey(s, sent, Sending(u), k);
  }

  lemma Snoc(s: State, events: seq<Event>, e: Event)
    ensures Run(s, events + [e]) == Next(Run(s, events), e)
    ensures AllAllowed(s, events + [e]) <==> AllAllowed(s, events) && Allowed(Run(s, events), e)
  {
    hide Next, Allowed;
    assert (events + [e])[..|events|] == events;
  }

  lemma InitialStart(s: State)
    requires Initial(s)
    ensures s.daemon.Idle? && s.inFlight == []
  {
  }

  lemma LateKey(s: State, first: Sent, second: Sent, k: string)
    requires k in first.desired.labels && k !in second.desired.labels && k !in LabelsOf(s)
    requires second.labels == Strings(LabelsOf(s))
    ensures k in Section(Land(Land(s.node, first), second), LABELS)
  {
    hide Section, Land, IsManaged;
    LandSections(s.node, first);
    LandSections(Land(s.node, first), second);
  }

  // The prober's keys

  /** The reports of a run, oldest first. */
  function ReportsIn(events: seq<Event>): seq<Annotations.Report> {
    if events == [] then []
    else
      var last := events[|events| - 1];
      ReportsIn(events[..|events| - 1]) + if last.Reported? then [last.report] else []
  }

  lemma RestStep(s: State, e: Event, anns: map<string, Json>, k: string)
    requires Allowed(s, e) && StartsWith(k, Annotations.TEST_PREFIX) && SameAt(s.restAnnotations, anns, k)
    ensures SameAt(Next(s, e).restAnnotations,
      if e.Reported? then Overlay(anns, Annotations.EntriesOf(e.report)) else anns, k)
  {
  }

  lemma {:induction false} RestFollowsReports(s: State, events: seq<Event>, k: string)
    requires AllAllowed(s, events) && StartsWith(k, Annotations.TEST_PREFIX)
    ensures SameAt(Run(s, events).restAnnotations, Annotations.After(s.restAnnotations, ReportsIn(events)), k)
  {
    hide Annotations.EntriesOf, StartsWith, Next, Allowed, SameAt, Overlay;
    if events == [] {
      SameAtItself(s.restAnnotations, k);
    } else {
      var before, last := events[..|events| - 1], events[|events| - 1];
      RestFollowsReports(s, before, k);
      RestStep(Run(s, before), last, Annotations.After(s.restAnnotations, ReportsIn(before)), k);
      if last.Reported? {
        assert ReportsIn(events)[..|ReportsIn(events)| - 1] == ReportsIn(before);
      } else {
        assert ReportsIn(events) == ReportsIn(before);
      }
    }
  }

  lemma SameAtItself(a: map<string, Json>, k: string)
    ensures SameAt(a, a, k)
  {
  }

  /** In every interleaving, each of the prober's keys reads as if the daemon did not exist: as
      the prober's own reports left it. */
  lemma ProberKeysUndisturbed(s: State, events: seq<Event>, k: string)
    requires Initial(s) && AllAllowed(s, events) && StartsWith(k, Annotations.TEST_PREFIX)
    ensures SameAt(AnnotationsOf(Run(s, events)), Annotations.After(AnnotationsOf(s), ReportsIn(events)), k)
  {
    hide Annotations.EntriesOf, Annotations.IsFamily, StartsWith, Merge, Land, Section, MetadataPatch, IsManaged,
      Next, Allowed, Known;
    RunInv(s, events);
    RestFollowsReports(s, events, k);
    TestKeysAreUnmanaged(k);
    AfterFromUnmanaged(AnnotationsOf(s), ReportsIn(events), k);
  }

  lemma {:induction false} AfterFromUnmanaged(anns: map<string, Json>, reports: seq<Annotations.Report>, k: string)
    requires !IsManaged(k)
    ensures SameAt(Annotations.After(Unmanaged(anns), reports), Annotations.After(anns, reports), k)
  {
    hide Annotations.EntriesOf, IsManaged;
    if reports != [] {
      AfterFromUnmanaged(anns, reports[..|reports| - 1], k);
    }
  }

  // Everybody else's keys

  /** The labels as if only the rest of the cluster had written them. */
  function LabelsByOthers(labels: map<string, Json>, events: seq<Event>): map<string, Json> {
    if events == [] then labels
    else
      var before, last := LabelsByOthers(labels, events[..|events| - 1]), events[|events| - 1];
      if last.Other? then Overlay(before, last.labels) else before
  }

  /** The annotations as if only the prober and the rest of the cluster had written them. */
  function AnnotationsByOthers(anns: map<string, Json>, events: seq<Event>): map<string, Json> {
    if events == [] then anns
    else
      var before, last := AnnotationsByOthers(anns, events[..|events| - 1]), events[|events| - 1];
      match last
      case Other(_, annotations) => Overlay(before, annotations)
      case Reported(r) => Overlay(before, Annotations.EntriesOf(r))
      case _ => before
  }

  lemma {:induction false} RestIsByOthers(s: State, events: seq<Event>, k: string)
    requires Initial(s) && !IsManaged(k)
    ensures SameAt(Run(s, events).restLabels, LabelsByOthers(LabelsOf(s), events), k)
    ensures SameAt(Run(s, events).restAnnotations, AnnotationsByOthers(AnnotationsOf(s), events), k)
  {
    hide IsManaged, Section, Land, Annotations.EntriesOf;
    if events != [] {
      RestIsByOthers(s, events[..|events| - 1], k);
    }
  }

  /** In every interleaving, late landings included, every key outside the daemon's four prefixes
      reads as the other writers left it. */
  lemma ForeignKeysUndisturbed(s: State, events: seq<Event>, k: string)
    requires Initial(s) && AllAllowed(s, events)
    requires !("accel.lunnova.dev/" <= k) && !("accel-topo.lunnova.dev/" <= k)
    requires !("accel-ready.lunnova.dev/" <= k) && !("accel-net.lunnova.dev/" <= k)
    ensures SameAt(LabelsOf(Run(s, events)), LabelsByOthers(LabelsOf(s), events), k)
    ensures SameAt(AnnotationsOf(Run(s, events)), AnnotationsByOthers(AnnotationsOf(s), events), k)
  {
    hide IsManaged, Initial, Run, LabelsOf, AnnotationsOf, AllAllowed, LabelsByOthers, AnnotationsByOthers, Known;
    ManagedAreOurs();
    RunInv(s, events);
    RestIsByOthers(s, events, k);
  }
}
