/** The daemon's node labeler: one GET, a merge patch that sets the desired keys and removes the
    managed keys no longer wanted, and up to three attempts to land it. */
module Labeler {
  import opened Text
  import opened MergePatch
  import opened NodeObject
  import Annotations

  const ACCEL_PREFIX := "accel.lunnova.dev/"
  const TOPO_PREFIX := "accel-topo.lunnova.dev/"
  const READY_PREFIX := "accel-ready.lunnova.dev/"
  const NET_PREFIX := "accel-net.lunnova.dev/"

  predicate IsManaged(key: string) {
    || StartsWith(key, ACCEL_PREFIX)
    || StartsWith(key, TOPO_PREFIX)
    || StartsWith(key, READY_PREFIX)
    || StartsWith(key, NET_PREFIX)
  }

  /** The keys the daemon may write or remove, spelled out. */
  predicate Ours(key: string) {
    || "accel.lunnova.dev/" <= key
    || "accel-topo.lunnova.dev/" <= key
    || "accel-ready.lunnova.dev/" <= key
    || "accel-net.lunnova.dev/" <= key
  }

  /** A key is managed exactly when it starts with one of the four prefixes. */
  lemma ManagedAreOurs()
    ensures forall key :: IsManaged(key) <==> Ours(key)
    ensures forall key | Ours(key) ::
      || "accel.lunnova.dev/" <= key || "accel-topo.lunnova.dev/" <= key
      || "accel-ready.lunnova.dev/" <= key || "accel-net.lunnova.dev/" <= key
  {
  }

  datatype LabelSet = LabelSet(labels: map<string, string>, annotations: map<string, string>)

  ghost predicate AllManaged(desired: map<string, string>) {
    forall k | k in desired :: IsManaged(k)
  }

  ghost predicate DesiredIsManaged(desired: LabelSet) {
    AllManaged(desired.labels) && AllManaged(desired.annotations)
  }

  lemma PrefixMismatch(key: string, p: string, q: string, i: nat)
    requires StartsWith(key, p) && i < |p| && i < |q| && p[i] != q[i]
    ensures !StartsWith(key, q)
  {
  }

  /** The prober's keys lie outside every managed prefix. */
  lemma TestKeysAreUnmanaged(key: string)
    requires StartsWith(key, Annotations.TEST_PREFIX)
    ensures !IsManaged(key)
  {
    PrefixMismatch(key, Annotations.TEST_PREFIX, ACCEL_PREFIX, 5);
    PrefixMismatch(key, Annotations.TEST_PREFIX, TOPO_PREFIX, 7);
    PrefixMismatch(key, Annotations.TEST_PREFIX, READY_PREFIX, 6);
    PrefixMismatch(key, Annotations.TEST_PREFIX, NET_PREFIX, 6);
  }

  // One section of the patch

  /** Removals of the managed keys among `keys` that are not desired. */
  function Removals(keys: set<string>, desired: map<string, string>): map<string, Json> {
    map k | k in keys && IsManaged(k) && k !in desired :: Null
  }

  function AsJson(m: map<string, string>): map<string, Json> {
    map k | k in m :: String(m[k])
  }

  /** Desired keys set, stale managed keys removed, nothing else mentioned. */
  function Merged(current: map<string, string>, desired: map<string, string>): map<string, Json> {
    Removals(current.Keys, desired) + AsJson(desired)
  }

  method MergedSection(current: Option<map<string, string>>, desired: map<string, string>)
    returns (out: map<string, Json>)
    ensures out == Merged(if current.Some? then current.value else map[], desired)
    ensures forall k | k in desired :: k in out && out[k] == String(desired[k])
    ensures forall k | k in out && k !in desired ::
      && out[k].Null? && current.Some? && k in current.value
      && ("accel.lunnova.dev/" <= k || "accel-topo.lunnova.dev/" <= k
          || "accel-ready.lunnova.dev/" <= k || "accel-net.lunnova.dev/" <= k)
    ensures current.Some? ==> forall k | k in current.value && Ours(k) && k !in desired :: k in out
  {
    ManagedAreOurs();
    hide IsManaged;
    if current.Some? {
      out := RemoveStale(current.value, desired);
    } else {
      out := map[];
      assert out == Removals({}, desired);
    }
    out := SetDesired(out, desired);
  }

  lemma SetOne(stale: map<string, Json>, done: map<string, string>, k: string, v: string)
    ensures (stale + AsJson(done))[k := String(v)] == stale + AsJson(done[k := v])
  {
  }

  /** The desired entries not waiting in `todo`. */
  function Except(desired: map<string, string>, todo: set<string>): map<string, string> {
    map k | k in desired && k !in todo :: desired[k]
  }

  lemma ExceptSteps(desired: map<string, string>, todo: set<string>, k: string)
    requires k in desired
    ensures Except(desired, todo - {k}) == Except(desired, todo)[k := desired[k]]
    ensures Except(desired, desired.Keys) == map[] && Except(desired, {}) == desired
  {
  }

  lemma NothingSet(stale: map<string, Json>, desired: map<string, string>)
    ensures stale + AsJson(Except(desired, desired.Keys)) == stale
    ensures stale + AsJson(Except(desired, {})) == stale + AsJson(desired)
  {
  }

  method SetDesired(stale: map<string, Json>, desired: map<string, string>) returns (out: map<string, Json>)
    ensures out == stale + AsJson(desired)
  {
    hide AsJson, Except;
    out := stale;
    var todo := desired.Keys;
    NothingSet(stale, desired);
    while todo != {}
      invariant todo <= desired.Keys
      invariant out == stale + AsJson(Except(desired, todo))
      decreases |todo|
    {
      var k :| k in todo;
      SetOne(stale, Except(desired, todo), k, desired[k]);
      ExceptSteps(desired, todo, k);
      out := out[k := String(desired[k])];
      todo := todo - {k};
    }
  }

  method RemoveStale(current: map<string, string>, desired: map<string, string>) returns (out: map<string, Json>)
    ensures out == Removals(current.Keys, desired)
  {
    hide IsManaged;
    out := map[];
    var todo := current.Keys;
    while todo != {}
      invariant todo <= current.Keys
      invariant forall k :: k in out <==> k in current && k !in todo && IsManaged(k) && k !in desired
      invariant forall k | k in out :: out[k] == Null
      decreases |todo|
    {
      var k :| k in todo;
      if IsManaged(k) && k !in desired {
        out := out[k := Null];
      }
      todo := todo - {k};
    }
  }

  function Patch(labels: map<string, string>, annotations: map<string, string>, desired: LabelSet): Json {
    MetadataPatch(map[LABELS := Merged(labels, desired.labels),
                      ANNOTATIONS := Merged(annotations, desired.annotations)])
  }

  /** The managed part of a section, and the rest. */
  function Managed(section: map<string, Json>): map<string, Json> {
    map k | k in section && IsManaged(k) :: section[k]
  }

  function Unmanaged(section: map<string, Json>): map<string, Json> {
    map k | k in section && !IsManaged(k) :: section[k]
  }

  /** A patch computed from an earlier snapshot still brings the section to the desired state, as
      long as every managed key that appeared since is a desired one. */
  lemma MergedConverges(section: map<string, Json>, snapshot: map<string, string>, desired: map<string, string>)
    requires AllManaged(desired)
    requires forall k | k in section && IsManaged(k) :: k in snapshot || k in desired
    ensures Managed(Overlay(section, Merged(snapshot, desired))) == AsJson(desired)
    ensures Unmanaged(Overlay(section, Merged(snapshot, desired))) == Unmanaged(section)
  {
    hide IsManaged;
  }

  /** A reconcile of a node already in the desired state sets every key to what it is. */
  lemma SecondReconcileIsIdle(section: map<string, Json>, desired: map<string, string>)
    requires AllManaged(desired) && Managed(section) == AsJson(desired)
    ensures Overlay(section, Merged(Strings(section), desired)) == section
  {
  }

  lemma MergedLeavesForeign(section: map<string, Json>, snapshot: map<string, string>, desired: map<string, string>)
    ensures Flat(Merged(snapshot, desired))
    ensures forall k | !Ours(k) && k !in desired :: SameAt(Overlay(section, Merged(snapshot, desired)), section, k)
  {
    hide IsManaged, Ours;
    ManagedAreOurs();
  }

  /** A patch changes nothing under a key that is neither ours nor desired. */
  lemma PatchLeavesForeign(node: Json, desired: LabelSet)
    ensures var after := Merge(node, Patch(Strings(Section(node, LABELS)), Strings(Section(node, ANNOTATIONS)), desired));
      && (forall k | !Ours(k) && k !in desired.labels :: SameAt(Section(after, LABELS), Section(node, LABELS), k))
      && (forall k | !Ours(k) && k !in desired.annotations ::
            SameAt(Section(after, ANNOTATIONS), Section(node, ANNOTATIONS), k))
  {
    hide Merge, Section, Ours, Merged, Overlay, SameAt, Flat;
    MergedLeavesForeign(Section(node, LABELS), Strings(Section(node, LABELS)), desired.labels);
    MergedLeavesForeign(Section(node, ANNOTATIONS), Strings(Section(node, ANNOTATIONS)), desired.annotations);
    var labels := Merged(Strings(Section(node, LABELS)), desired.labels);
    var annotations := Merged(Strings(Section(node, ANNOTATIONS)), desired.annotations);
    var sections := map[LABELS := labels, ANNOTATIONS := annotations];
    assert |LABELS| != |ANNOTATIONS|;
    PatchSection(node, sections, LABELS);
    PatchSection(node, sections, ANNOTATIONS);
  }

  // The labeler object

  /** How a PATCH call ended; a call that reported an error may have landed. */
  datatype Attempt = Succeeded | Failed(landed: bool)

  predicate Lands(a: Attempt) { a.Succeeded? || a.landed }

  const MAX_ATTEMPTS := 3

  /** The attempts actually made: up to the first success, at most three. */
  function Made(outcomes: nat -> Attempt, from: nat): seq<Attempt>
    requires from <= MAX_ATTEMPTS
    decreases MAX_ATTEMPTS - from
  {
    if from == MAX_ATTEMPTS then []
    else if outcomes(from).Succeeded? then [outcomes(from)]
    else [outcomes(from)] + Made(outcomes, from + 1)
  }

  /** At least one attempt, at most three; each but the last failed, and the last succeeded unless
      it was the third. */
  lemma MadeMeaning(outcomes: nat -> Attempt)
    ensures var made := Made(outcomes, 0);
      && 1 <= |made| <= 3
      && (forall i | 0 <= i < |made| :: made[i] == outcomes(i))
      && (forall i | 0 <= i < |made| - 1 :: !made[i].Succeeded?)
      && (made[|made| - 1].Succeeded? || |made| == 3)
      && (AnyLands(made) <==> made[|made| - 1].Succeeded? || exists i :: 0 <= i < |made| && made[i] == Failed(true))
  {
    hide Made;
    MadeStep(outcomes, 0);
    MadeStep(outcomes, 1);
    MadeStep(outcomes, 2);
    NoneMade(outcomes);
  }

  class NodeLabeler {
    var node: Json
    var announced: bool

    constructor (node: Json)
      ensures this.node == node && !announced
    {
      this.node := node;
      announced := false;
    }

    /** Returns whether this was the first reconcile and whether the server confirmed the patch.
        However many attempts land, the node takes the patch once. */
    method Reconcile(getOk: bool, outcomes: nat -> Attempt, desired: LabelSet) returns (first: bool, confirmed: bool)
      modifies this
      ensures first == !old(announced) && announced
      ensures !getOk ==> node == old(node) && !confirmed
      ensures getOk ==>
        var patch := Patch(Strings(Section(old(node), LABELS)), Strings(Section(old(node), ANNOTATIONS)), desired);
        var made := Made(outcomes, 0);
        && made != []
        && node == (if AnyLands(made) then Merge(old(node), patch) else old(node))
        && confirmed == made[|made| - 1].Succeeded?
      ensures forall k | !Ours(k) && k !in desired.labels ::
        SameAt(Section(node, LABELS), Section(old(node), LABELS), k)
      ensures forall k | !Ours(k) && k !in desired.annotations ::
        SameAt(Section(node, ANNOTATIONS), Section(old(node), ANNOTATIONS), k)
    {
      hide Merge, Section, Ours, AnyLands, Made;
      PatchLeavesForeign(node, desired);
      first := !announced;
      announced := true;
      confirmed := false;
      if !getOk {
        return;
      }
      var labels := MergedSection(Some(Strings(Section(node, LABELS))), desired.labels);
      var annotations := MergedSection(Some(Strings(Section(node, ANNOTATIONS))), desired.annotations);
      var patch := MetadataPatch(map[LABELS := labels, ANNOTATIONS := annotations]);
      confirmed := Apply(patch, outcomes);
    }

    /** The attempts: a failed one may have landed, and landing twice is landing once. */
    method Apply(patch: Json, outcomes: nat -> Attempt) returns (confirmed: bool)
      modifies this
      ensures announced == old(announced)
      ensures var made := Made(outcomes, 0);
        && made != []
        && node == (if AnyLands(made) then Merge(old(node), patch) else old(node))
        && confirmed == made[|made| - 1].Succeeded?
    {
      hide Merge, AnyLands, Made, Lands;
      MergeIdempotent(node, patch);
      confirmed := false;
      var attempt := 0;
      ghost var tried: seq<Attempt> := [];
      NoneMade(outcomes);
      while attempt < MAX_ATTEMPTS
        invariant attempt <= MAX_ATTEMPTS && announced == old(announced)
        invariant Made(outcomes, 0) == tried + Made(outcomes, attempt)
        invariant node == if AnyLands(tried) then Merge(old(node), patch) else old(node)
        invariant if tried == [] then attempt == 0 else !tried[|tried| - 1].Succeeded?
      {
        var outcome := outcomes(attempt);
        if Lands(outcome) {
          node := Merge(node, patch);
        }
        LandsOnceMore(tried, outcome);
        MadeStep(outcomes, attempt);
        tried := tried + [outcome];
        if outcome.Succeeded? {
          assert Made(outcomes, 0) == tried;
          confirmed := true;
          return;
        }
        attempt := attempt + 1;
      }
      assert Made(outcomes, 0) == tried;
    }
  }

  lemma MadeStep(outcomes: nat -> Attempt, k: nat)
    requires k < MAX_ATTEMPTS
    ensures Made(outcomes, k)
      == [outcomes(k)] + if outcomes(k).Succeeded? then [] else Made(outcomes, k + 1)
  {
  }

  lemma NoneMade(outcomes: nat -> Attempt)
    ensures Made(outcomes, MAX_ATTEMPTS) == [] && !AnyLands([])
  {
  }

  predicate AnyLands(made: seq<Attempt>) {
    exists i :: 0 <= i < |made| && Lands(made[i])
  }

  lemma LandsOnceMore(tried: seq<Attempt>, outcome: Attempt)
    ensures AnyLands(tried + [outcome]) <==> AnyLands(tried) || Lands(outcome)
  {
    var more := tried + [outcome];
    if AnyLands(tried) {
      var i :| 0 <= i < |tried| && Lands(tried[i]);
      assert more[i] == tried[i];
    }
    assert more[|tried|] == outcome;
  }
}
