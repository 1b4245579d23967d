/** The preflight cycle: run every check, fold the outcomes into a readiness, and name what
    failed.  A check's outcome is arbitrary. */
module Preflight {
  import opened Text
  import opened Sensors
  import opened Labeler

  datatype Status = Pass | Warn | Fail | Skipped

  datatype Scope = SingleAccelerator | NodeLocal | NodeTopology | ClusterWide

  datatype Readiness = Ready | Degraded | NotReady | Undetermined

  predicate Bad(s: Status) { s.Fail? || s.Warn? }

  function Aggregate(outcomes: seq<Status>): Readiness {
    if exists s :: s in outcomes && Bad(s) then Degraded
    else if Pass in outcomes then Ready
    else Undetermined
  }

  function LabelValue(r: Readiness): string {
    match r
    case Ready => "true"
    case Degraded => "degraded"
    case NotReady => "false"
    case Undetermined => "unknown"
  }

  /** Readiness depends only on which statuses other than Skipped occur: adding, removing or
      reordering skipped outcomes never changes it, nor does any other reordering. */
  lemma SkippedNeverMatters(a: seq<Status>, b: seq<Status>)
    requires forall s: Status :: !s.Skipped? ==> (s in a <==> s in b)
    ensures Aggregate(a) == Aggregate(b)
  {
  }

  lemma AggregateMeaning(outcomes: seq<Status>)
    ensures var r := Aggregate(outcomes);
      && (r.Degraded? <==> Fail in outcomes || Warn in outcomes)
      && (r.Undetermined? <==> forall s | s in outcomes :: s.Skipped?)
      && !r.NotReady?
  {
  }

  /** A check with what it answers this cycle. */
  datatype Check = Check(
    name: string,
    scope: Scope,
    appliesTo: Accelerator -> bool,
    run: Option<Accelerator> -> Status)

  /** One outcome: what to call it if it failed, and its status. */
  datatype Outcome = Outcome(called: string, status: Status)

  function OnAccelerators(check: Check, accels: seq<Accelerator>): seq<Outcome> {
    if accels == [] then []
    else
      var k := |accels| - 1;
      OnAccelerators(check, accels[..k])
      + if check.appliesTo(accels[k])
        then [Outcome(check.name + "@" + Decimal(accels[k].id.drmIndex), check.run(Some(accels[k])))] else []
  }

  function OutcomesOf(check: Check, accels: seq<Accelerator>): seq<Outcome> {
    match check.scope
    case SingleAccelerator => OnAccelerators(check, accels)
    case NodeLocal => [Outcome(check.name, check.run(None))]
    case NodeTopology => []
    case ClusterWide => []
  }

  /** Every outcome of a cycle, checks in registry order and accelerators within each. */
  function AllOutcomes(checks: seq<Check>, accels: seq<Accelerator>): seq<Outcome> {
    if checks == [] then []
    else
      var k := |checks| - 1;
      AllOutcomes(checks[..k], accels) + OutcomesOf(checks[k], accels)
  }

  function Statuses(outcomes: seq<Outcome>): seq<Status> {
    seq(|outcomes|, i requires 0 <= i < |outcomes| => outcomes[i].status)
  }

  /** The labels of the outcomes that failed or warned, in order. */
  function FailedLabels(outcomes: seq<Outcome>): seq<string> {
    if outcomes == [] then []
    else
      var k := |outcomes| - 1;
      FailedLabels(outcomes[..k]) + if Bad(outcomes[k].status) then [outcomes[k].called] else []
  }

  /** What failed or warned is named in the order of the outcomes, each under its own name. */
  lemma {:induction false} FailedConcat(a: seq<Outcome>, b: seq<Outcome>)
    ensures FailedLabels(a + b) == FailedLabels(a) + FailedLabels(b)
    ensures |b| == 1 ==> FailedLabels(b) == if b[0].status.Fail? || b[0].status.Warn? then [b[0].called] else []
  {
    if b == [] {
      assert a + b == a;
    } else {
      var k := |b| - 1;
      assert (a + b)[..|a| + k] == a + b[..k];
      FailedConcat(a, b[..k]);
    }
  }

  const INFERENCE := "accel-ready.lunnova.dev/inference"
  const TRAINING := "accel-ready.lunnova.dev/training"
  const LAST_CHECK := "accel-ready.lunnova.dev/last-check"
  const FAILED := "accel-ready.lunnova.dev/failed"

  function CycleLabels(base: LabelSet, outcomes: seq<Outcome>, now: string): LabelSet {
    var value := LabelValue(Aggregate(Statuses(outcomes)));
    var annotations := base.annotations[LAST_CHECK := now];
    LabelSet(
      base.labels[INFERENCE := value][TRAINING := value],
      if FailedLabels(outcomes) == [] then annotations
      else annotations[FAILED := Join(FailedLabels(outcomes), ",")])
  }

  /** What a readiness label says of the outcomes of its cycle. */
  ghost predicate Words(value: string, outcomes: seq<Outcome>) {
    && (value == "true" <==>
          (exists o :: o in outcomes && o.status.Pass?)
          && !exists o :: o in outcomes && (o.status.Fail? || o.status.Warn?))
    && (value == "degraded" <==> exists o :: o in outcomes && (o.status.Fail? || o.status.Warn?))
    && (value == "unknown" <==> forall o | o in outcomes :: o.status.Skipped?)
    && value in {"true", "degraded", "unknown"}
  }

  /** A label set whose two readiness labels say the same of the outcomes, with the time beside
      them. */
  ghost predicate SaysReadiness(l: LabelSet, outcomes: seq<Outcome>, now: string) {
    && Lookup(l.labels, "accel-ready.lunnova.dev/inference").Some?
    && Words(Lookup(l.labels, "accel-ready.lunnova.dev/inference").value, outcomes)
    && Lookup(l.labels, "accel-ready.lunnova.dev/training") == Lookup(l.labels, "accel-ready.lunnova.dev/inference")
    && Lookup(l.annotations, "accel-ready.lunnova.dev/last-check") == Some(now)
  }

  lemma StatusOfSome(outcomes: seq<Outcome>, s: Status)
    ensures s in Statuses(outcomes) <==> exists o :: o in outcomes && o.status == s
  {
    if s in Statuses(outcomes) {
      var i :| 0 <= i < |Statuses(outcomes)| && Statuses(outcomes)[i] == s;
      assert outcomes[i] in outcomes;
    }
    if o :| o in outcomes && o.status == s {
      var i :| 0 <= i < |outcomes| && outcomes[i] == o;
      assert Statuses(outcomes)[i] == s;
    }
  }

  lemma WordOf(outcomes: seq<Outcome>)
    ensures Words(LabelValue(Aggregate(Statuses(outcomes))), outcomes)
  {
    hide Statuses, LabelValue;
    StatusOfSome(outcomes, Pass);
    StatusOfSome(outcomes, Fail);
    StatusOfSome(outcomes, Warn);
    ThreeWords();
  }

  lemma ThreeWords()
    ensures LabelValue(Ready) == "true" && LabelValue(Degraded) == "degraded" && LabelValue(Undetermined) == "unknown"
    ensures |"true"| == 4 && |"degraded"| == 8 && |"unknown"| == 7
  {
  }

  /** The labels of a cycle read `true` exactly when something passed and nothing failed or
      warned, `degraded` exactly when something failed or warned, `unknown` exactly when all was
      skipped. */
  lemma CycleLabelsSayReadiness(base: LabelSet, outcomes: seq<Outcome>, now: string)
    ensures SaysReadiness(CycleLabels(base, outcomes, now), outcomes, now)
  {
    hide Statuses, LabelValue, Aggregate, Words, FailedLabels, Join;
    WordOf(outcomes);
    assert LAST_CHECK != FAILED && INFERENCE != TRAINING by {
      assert |LAST_CHECK| != |FAILED| && |INFERENCE| != |TRAINING|;
    }
  }

  // Which outcomes a cycle has

  /** Checks are run in order, whatever they are. */
  lemma {:induction false} ChecksInOrder(a: seq<Check>, b: seq<Check>, accels: seq<Accelerator>)
    ensures AllOutcomes(a + b, accels) == AllOutcomes(a, accels) + AllOutcomes(b, accels)
  {
    hide OutcomesOf;
    if b == [] {
      assert a + b == a;
    } else {
      var k := |b| - 1;
      assert (a + b)[..|a| + k] == a + b[..k] && (a + b)[|a| + k] == b[k];
      ChecksInOrder(a, b[..k], accels);
    }
  }

  lemma {:induction false} AcceleratorsInOrder(check: Check, a: seq<Accelerator>, b: seq<Accelerator>)
    ensures OnAccelerators(check, a + b) == OnAccelerators(check, a) + OnAccelerators(check, b)
  {
    if b == [] {
      assert a + b == a;
    } else {
      var k := |b| - 1;
      assert (a + b)[..|a| + k] == a + b[..k];
      AcceleratorsInOrder(check, a, b[..k]);
    }
  }

  /** One check: a node check answers once, under its own name; an accelerator check answers in
      order for each accelerator it applies to, under its name and that accelerator's index; the
      other scopes are passed over. */
  lemma OneCheck(check: Check, a: seq<Accelerator>, x: Accelerator, b: seq<Accelerator>)
    ensures check.scope.NodeLocal? ==> AllOutcomes([check], a) == [Outcome(check.name, check.run(None))]
    ensures check.scope.NodeTopology? || check.scope.ClusterWide? ==> AllOutcomes([check], a) == []
    ensures check.scope.SingleAccelerator? ==>
      && AllOutcomes([check], []) == []
      && AllOutcomes([check], a + [x] + b) == AllOutcomes([check], a)
        + (if check.appliesTo(x)
           then [Outcome(check.name + "@" + Decimal(x.id.drmIndex), check.run(Some(x)))] else [])
        + AllOutcomes([check], b)
  {
    forall accels: seq<Accelerator>
      ensures AllOutcomes([check], accels) == OutcomesOf(check, accels)
    {
      assert [check][..0] == [];
      assert AllOutcomes([], accels) + OutcomesOf(check, accels) == OutcomesOf(check, accels);
    }
    AcceleratorsInOrder(check, a + [x], b);
    AcceleratorsInOrder(check, a, [x]);
    assert [x][..0] == [];
  }

  lemma OneMore(outcomes: seq<Outcome>, o: Outcome)
    ensures Statuses(outcomes + [o]) == Statuses(outcomes) + [o.status]
    ensures FailedLabels(outcomes + [o]) == FailedLabels(outcomes) + if Bad(o.status) then [o.called] else []
  {
  }

  lemma StatusesConcat(a: seq<Outcome>, b: seq<Outcome>)
    ensures Statuses(a + b) == Statuses(a) + Statuses(b)
  {
  }

  method RunOnAccelerators(check: Check, accels: seq<Accelerator>) returns (outcomes: seq<Status>, failed: seq<string>)
    ensures outcomes == Statuses(OnAccelerators(check, accels))
    ensures failed == FailedLabels(OnAccelerators(check, accels))
  {
    outcomes, failed := [], [];
    for i := 0 to |accels|
      invariant outcomes == Statuses(OnAccelerators(check, accels[..i]))
      invariant failed == FailedLabels(OnAccelerators(check, accels[..i]))
    {
      var accel := accels[i];
      assert accels[..i + 1][..i] == accels[..i];
      ghost var before := OnAccelerators(check, accels[..i]);
      if check.appliesTo(accel) {
        var status := check.run(Some(accel));
        var called := check.name + "@" + Decimal(accel.id.drmIndex);
        OneMore(before, Outcome(called, status));
        assert OnAccelerators(check, accels[..i + 1]) == before + [Outcome(called, status)];
        if Bad(status) {
          failed := failed + [called];
        }
        outcomes := outcomes + [status];
      } else {
        assert OnAccelerators(check, accels[..i + 1]) == before;
      }
    }
    assert accels[..|accels|] == accels;
  }

  method RunCheck(check: Check, accels: seq<Accelerator>) returns (outcomes: seq<Status>, failed: seq<string>)
    ensures outcomes == Statuses(OutcomesOf(check, accels))
    ensures failed == FailedLabels(OutcomesOf(check, accels))
  {
    outcomes, failed := [], [];
    match check.scope {
      case SingleAccelerator => outcomes, failed := RunOnAccelerators(check, accels);
      case NodeLocal =>
        var status := check.run(None);
        OneMore([], Outcome(check.name, status));
        if Bad(status) {
          failed := [check.name];
        }
        outcomes := [status];
        assert [] + [Outcome(check.name, status)] == OutcomesOf(check, accels);
      case NodeTopology =>
      case ClusterWide =>
    }
  }

  method Publish(base: LabelSet, inference: Readiness, failedChecks: seq<string>, now: string, ghost outcomes: seq<Outcome>)
    returns (labels: LabelSet)
    requires inference == Aggregate(Statuses(outcomes)) && failedChecks == FailedLabels(outcomes)
    ensures labels == CycleLabels(base, outcomes, now)
  {
    hide Join, Aggregate, LabelValue, FailedLabels, Statuses;
    var training := inference;
    labels := base;
    labels := labels.(labels := labels.labels[INFERENCE := LabelValue(inference)]);
    labels := labels.(labels := labels.labels[TRAINING := LabelValue(training)]);
    labels := labels.(annotations := labels.annotations[LAST_CHECK := now]);
    if failedChecks != [] {
      labels := labels.(annotations := labels.annotations[FAILED := Join(failedChecks, ",")]);
    }
  }

  method RunCycle(checks: seq<Check>, accels: seq<Accelerator>, base: LabelSet, now: string)
    returns (labels: LabelSet, inference: Readiness, ran: nat, failed: nat)
    ensures var outcomes := AllOutcomes(checks, accels);
      && labels == CycleLabels(base, outcomes, now)
      && inference == Aggregate(Statuses(outcomes))
      && ran == |outcomes| && failed == |FailedLabels(outcomes)|
      && SaysReadiness(labels, outcomes, now)
  {
    hide CycleLabels, Aggregate, OutcomesOf, SaysReadiness;
    CycleLabelsSayReadiness(base, AllOutcomes(checks, accels), now);
    var allOutcomes: seq<Status> := [];
    var failedChecks: seq<string> := [];
    for i := 0 to |checks|
      invariant allOutcomes == Statuses(AllOutcomes(checks[..i], accels))
      invariant failedChecks == FailedLabels(AllOutcomes(checks[..i], accels))
    {
      assert checks[..i + 1][..i] == checks[..i];
      ghost var before, here := AllOutcomes(checks[..i], accels), OutcomesOf(checks[i], accels);
      FailedConcat(before, here);
      StatusesConcat(before, here);
      var outcomes, failedHere := RunCheck(checks[i], accels);
      allOutcomes := allOutcomes + outcomes;
      failedChecks := failedChecks + failedHere;
    }
    assert checks[..|checks|] == checks;
    inference := Aggregate(allOutcomes);
    labels := Publish(base, inference, failedChecks, now, AllOutcomes(checks, accels));
    ran, failed := |allOutcomes|, |failedChecks|;
  }

  /** Something is named as failed exactly when the node is degraded, and what is named is
      exactly the outcomes that failed or warned. */
  lemma {:induction false} FailedIffDegraded(outcomes: seq<Outcome>)
    ensures FailedLabels(outcomes) != [] <==> Aggregate(Statuses(outcomes)).Degraded?
    ensures forall name ::
      name in FailedLabels(outcomes) <==> exists o :: o in outcomes && Bad(o.status) && o.called == name
  {
    if outcomes != [] {
      var k := |outcomes| - 1;
      var before, last := outcomes[..k], outcomes[k];
      FailedIffDegraded(before);
      assert outcomes == before + [last];
      assert Statuses(outcomes) == Statuses(before) + [last.status];
      AggregateMeaning(Statuses(outcomes));
      AggregateMeaning(Statuses(before));
    }
  }

  /** The label set of a cycle: all keys managed if the base's are, and the `failed` annotation
      present exactly when the inference label reads `degraded`. */
  lemma CycleLabelsMeaning(base: LabelSet, outcomes: seq<Outcome>, now: string)
    requires FAILED !in base.annotations
    ensures var l := CycleLabels(base, outcomes, now);
      && (DesiredIsManaged(base) ==> DesiredIsManaged(l))
      && INFERENCE in l.labels && TRAINING in l.labels && l.labels[INFERENCE] == l.labels[TRAINING]
      && (l.labels[INFERENCE] == "degraded" <==> FAILED in l.annotations)
      && (FAILED in l.annotations ==> l.annotations[FAILED] == Join(FailedLabels(outcomes), ","))
      && LAST_CHECK in l.annotations && l.annotations[LAST_CHECK] == now
  {
    FailedIffDegraded(outcomes);
    assert StartsWith(INFERENCE, READY_PREFIX) && StartsWith(TRAINING, READY_PREFIX);
    assert StartsWith(LAST_CHECK, READY_PREFIX) && StartsWith(FAILED, READY_PREFIX);
    var l := CycleLabels(base, outcomes, now);
    var r := Aggregate(Statuses(outcomes));
    assert |LabelValue(r)| == 8 <==> r.Degraded?;
    assert |"degraded"| == 8;
    assert LAST_CHECK != FAILED && INFERENCE != TRAINING by {
      assert |LAST_CHECK| != |FAILED| && |INFERENCE| != |TRAINING|;
    }
  }
}
