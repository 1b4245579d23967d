/** Grouping nodes by rack and choosing what to probe next. */
module Pairing {
  import opened Text
  import opened Sorting

  const RACK_LABEL := "accel-topo.lunnova.dev/rack"
  const RDMA_LABEL := "accel-net.lunnova.dev/rdma"
  const ANN_LAST_AT := "accel-test.lunnova.dev/last-rack-at"
  const ANN_LB_LAST_AT := "accel-test.lunnova.dev/last-loopback-at"

  datatype Condition = Condition(kind: string, status: string)

  /** The parts of a Kubernetes Node the prober looks at. */
  datatype Node = Node(
    name: Option<string>,
    labels: Option<map<string, string>>,
    annotations: Option<map<string, string>>,
    conditions: Option<seq<Condition>>)

  datatype NodeView = NodeView(
    name: string, lastAt: Option<string>, lastLoopbackAt: Option<string>, rack: string)

  // Eligibility

  predicate IsReady(n: Node) {
    n.conditions.Some? && Condition("Ready", "True") in n.conditions.value
  }

  function FromNode(n: Node): Option<NodeView> {
    if n.name.None? || n.labels.None? then None
    else
      var labels := n.labels.value;
      var annotations := if n.annotations.Some? then n.annotations.value else map[];
      if RACK_LABEL !in labels then None
      else if Lookup(labels, RDMA_LABEL) != Some("present") then None
      else Some(NodeView(n.name.value, Lookup(annotations, ANN_LAST_AT),
                         Lookup(annotations, ANN_LB_LAST_AT), labels[RACK_LABEL]))
  }

  function Eligible(nodes: seq<Node>): seq<NodeView> {
    if nodes == [] then []
    else
      var rest := Eligible(nodes[1..]);
      var view := FromNode(nodes[0]);
      if IsReady(nodes[0]) && view.Some? then [view.value] + rest else rest
  }

  function Annotation(n: Node, key: string): Option<string> {
    if n.annotations.Some? then Lookup(n.annotations.value, key) else None
  }

  /** The node takes part in probing under the view `v`: it is ready, has a name and a rack, and
      its RoCE devices are marked present. */
  ghost predicate TakesPart(n: Node, v: NodeView) {
    && n.name == Some(v.name)
    && n.conditions.Some? && (exists c :: c in n.conditions.value && c.kind == "Ready" && c.status == "True")
    && n.labels.Some?
    && Lookup(n.labels.value, "accel-topo.lunnova.dev/rack") == Some(v.rack)
    && Lookup(n.labels.value, "accel-net.lunnova.dev/rdma") == Some("present")
    && v.lastAt == Annotation(n, "accel-test.lunnova.dev/last-rack-at")
    && v.lastLoopbackAt == Annotation(n, "accel-test.lunnova.dev/last-loopback-at")
  }

  lemma TakesPartMeaning(n: Node, v: NodeView)
    ensures TakesPart(n, v) <==> IsReady(n) && FromNode(n) == Some(v)
  {
    if n.conditions.Some? {
      assert forall c | c in n.conditions.value && c.kind == "Ready" && c.status == "True" ::
        c == Condition("Ready", "True");
    }
  }

  ghost predicate UniqueNodeNames(nodes: seq<Node>) {
    forall i, j | 0 <= i < j < |nodes| :: nodes[i].name != nodes[j].name || nodes[i].name.None?
  }

  ghost predicate UniqueNames(views: seq<NodeView>) {
    forall i, j | 0 <= i < j < |views| :: views[i].name != views[j].name
  }

  /** A view is listed exactly when some node takes part under it; unique nodes give unique views. */
  lemma EligibleNodes(nodes: seq<Node>)
    ensures forall v :: v in Eligible(nodes) <==> exists n :: n in nodes && TakesPart(n, v)
    ensures UniqueNodeNames(nodes) ==> UniqueNames(Eligible(nodes))
  {
    hide IsReady, FromNode, TakesPart;
    ListedNodes(nodes);
    forall n: Node, v: NodeView
      ensures TakesPart(n, v) <==> IsReady(n) && FromNode(n) == Some(v)
    {
      TakesPartMeaning(n, v);
    }
  }

  lemma {:induction false} ListedNodes(nodes: seq<Node>)
    ensures forall v :: v in Eligible(nodes) <==> exists n :: n in nodes && IsReady(n) && FromNode(n) == Some(v)
    ensures UniqueNodeNames(nodes) ==> UniqueNames(Eligible(nodes))
  {
    if nodes != [] {
      var rest := Eligible(nodes[1..]);
      ListedNodes(nodes[1..]);
      assert nodes == [nodes[0]] + nodes[1..];
      if UniqueNodeNames(nodes) {
        forall v | v in rest && FromNode(nodes[0]).Some?
          ensures v.name != FromNode(nodes[0]).value.name
        {
          var n :| n in nodes[1..] && FromNode(n) == Some(v);
        }
      }
    }
  }

  // Grouping by rack

  predicate NameBefore(a: NodeView, b: NodeView) {
    Less(a.name, b.name)
  }

  /** The views of one rack, in input order. */
  function InRack(views: seq<NodeView>, rack: string): seq<NodeView> {
    if views == [] then []
    else
      var last := views[|views| - 1];
      InRack(views[..|views| - 1], rack) + if last.rack == rack then [last] else []
  }

  function Racks(views: seq<NodeView>): set<string> {
    set v | v in views :: v.rack
  }

  function Pushed(views: seq<NodeView>): map<string, seq<NodeView>> {
    map rack | rack in Racks(views) :: InRack(views, rack)
  }

  function Grouped(views: seq<NodeView>): map<string, seq<NodeView>> {
    map rack | rack in Racks(views) :: Sort(InRack(views, rack), NameBefore)
  }

  lemma InRackPush(init: seq<NodeView>, n: NodeView, rack: string)
    ensures InRack(init + [n], rack) == InRack(init, rack) + if n.rack == rack then [n] else []
    ensures rack !in Racks(init) ==> InRack(init, rack) == []
  {
    assert (init + [n])[..|init|] == init;
    InRackElements(init, rack);
    if InRack(init, rack) != [] {
      assert InRack(init, rack)[0] in init;
    }
  }

  /** Pushing one more view onto its rack's group. */
  lemma PushStep(init: seq<NodeView>, n: NodeView)
    ensures var out := Pushed(init);
      out[n.rack := (if n.rack in out then out[n.rack] else []) + [n]] == Pushed(init + [n])
  {
    var out := Pushed(init);
    var pushed := out[n.rack := (if n.rack in out then out[n.rack] else []) + [n]];
    assert Racks(init + [n]) == Racks(init) + {n.rack};
    forall rack | rack in pushed
      ensures pushed[rack] == InRack(init + [n], rack)
    {
      InRackPush(init, n, rack);
    }
  }

  method GroupByRack(views: seq<NodeView>) returns (out: map<string, seq<NodeView>>)
    ensures out == Grouped(views)
  {
    out := map[];
    for i := 0 to |views|
      invariant out == Pushed(views[..i])
    {
      var n := views[i];
      PushStep(views[..i], n);
      assert views[..i + 1] == views[..i] + [n];
      out := out[n.rack := (if n.rack in out then out[n.rack] else []) + [n]];
    }
    assert views[..|views|] == views;
    out := SortGroups(out);
  }

  /** `for v in out.values_mut() { v.sort_by(name) }` */
  method SortGroups(groups: map<string, seq<NodeView>>) returns (out: map<string, seq<NodeView>>)
    ensures out.Keys == groups.Keys
    ensures forall rack | rack in groups :: out[rack] == Sort(groups[rack], NameBefore)
  {
    out := groups;
    var todo := out.Keys;
    while todo != {}
      invariant todo <= out.Keys == groups.Keys
      invariant forall rack | rack in todo :: out[rack] == groups[rack]
      invariant forall rack | rack in groups && rack !in todo :: out[rack] == Sort(groups[rack], NameBefore)
      decreases |todo|
    {
      var rack :| rack in todo;
      out := out[rack := Sort(groups[rack], NameBefore)];
      todo := todo - {rack};
    }
  }

  lemma NameOrder()
    ensures WeakOrder(NameBefore)
  {
    forall x: NodeView, y: NodeView | NameBefore(x, y)
      ensures !NameBefore(y, x)
    {
      LessAsymmetric(x.name, y.name);
    }
    forall x: NodeView, y: NodeView, z: NodeView | !NameBefore(x, y) && !NameBefore(y, z)
      ensures !NameBefore(x, z)
    {
      NotLessTransitive(x.name, y.name, z.name);
    }
  }

  lemma {:induction false} InRackElements(views: seq<NodeView>, rack: string)
    ensures forall v :: v in InRack(views, rack) <==> v in views && v.rack == rack
  {
    if views != [] {
      var init, last := views[..|views| - 1], views[|views| - 1];
      InRackElements(init, rack);
      assert views == init + [last];
    }
  }

  lemma {:induction false} InRackUnique(views: seq<NodeView>, rack: string)
    requires UniqueNames(views)
    ensures UniqueNames(InRack(views, rack))
  {
    if views != [] {
      var init, last := views[..|views| - 1], views[|views| - 1];
      InRackUnique(init, rack);
      InRackElements(init, rack);
      forall v | v in InRack(init, rack)
        ensures v.name != last.name
      {
        assert v in init;
      }
    }
  }

  lemma UniqueNamesOfPermutation(s: seq<NodeView>, t: seq<NodeView>)
    requires multiset(s) == multiset(t) && UniqueNames(s)
    ensures UniqueNames(t)
  {
    SameElements(s, t);
    DistinctPermutation(s, t);
    forall i, j | 0 <= i < j < |t|
      ensures t[i].name != t[j].name
    {
      assert t[i] in s && t[j] in s;
    }
  }

  /** Every view is in its own rack's group and in no other; groups are sorted by name. */
  lemma GroupsPartition(views: seq<NodeView>)
    ensures forall v, rack ::
      (rack in Grouped(views) && v in Grouped(views)[rack]) <==> (v in views && v.rack == rack)
    ensures forall rack | rack in Grouped(views) :: Grouped(views)[rack] != []
    ensures forall rack | rack in Grouped(views) :: Sorted(Grouped(views)[rack], NameBefore)
    ensures forall rack, i, j | rack in Grouped(views) && 0 <= i < j < |Grouped(views)[rack]| ::
      AtMost(Grouped(views)[rack][i].name, Grouped(views)[rack][j].name)
    ensures UniqueNames(views) ==>
      forall rack | rack in Grouped(views) :: UniqueNames(Grouped(views)[rack])
  {
    NameOrder();
    forall rack | rack in Grouped(views)
      ensures Sorted(Grouped(views)[rack], NameBefore) && Grouped(views)[rack] != []
      ensures forall v :: v in Grouped(views)[rack] <==> v in views && v.rack == rack
      ensures UniqueNames(views) ==> UniqueNames(Grouped(views)[rack])
    {
      var group := InRack(views, rack);
      InRackElements(views, rack);
      SortSorts(group, NameBefore);
      SameElements(group, Sort(group, NameBefore));
      if UniqueNames(views) {
        InRackUnique(views, rack);
        UniqueNamesOfPermutation(group, Sort(group, NameBefore));
      }
      var v :| v in views && v.rack == rack;
      assert v in group;
    }
    forall rack, i, j | rack in Grouped(views) && 0 <= i < j < |Grouped(views)[rack]|
      ensures AtMost(Grouped(views)[rack][i].name, Grouped(views)[rack][j].name)
    {
      var group := Grouped(views)[rack];
      assert !NameBefore(group[j], group[i]);
      NotAtMost(group[i].name, group[j].name);
    }
  }

  // Choosing

  /** Least recently probed first: no stamp before any stamp, then older stamps, then names. */
  predicate LruBefore(a: NodeView, b: NodeView) {
    match (a.lastAt, b.lastAt)
    case (None, None) => Less(a.name, b.name)
    case (None, Some(_)) => true
    case (Some(_), None) => false
    case (Some(x), Some(y)) => Less(x, y) || (x == y && Less(a.name, b.name))
  }

  function PickPair(members: seq<NodeView>, cutoff: string): Option<(NodeView, NodeView)> {
    if |members| < 2 then None
    else
      var sorted := Sort(members, LruBefore);
      var oldest, next := sorted[0], sorted[1];
      if oldest.lastAt.None? || next.lastAt.None? then Some((oldest, next))
      else
        var a, b := oldest.lastAt.value, next.lastAt.value;
        var pairOldest := if Less(b, a) then b else a;
        if AtMost(cutoff, pairOldest) then None else Some((oldest, next))
  }

  function PickLoopback(members: seq<NodeView>, cutoff: string): Option<NodeView> {
    if |members| != 1 then None
    else if members[0].lastLoopbackAt.Some? && AtMost(cutoff, members[0].lastLoopbackAt.value) then None
    else Some(members[0])
  }

  lemma LruOrder()
    ensures WeakOrder(LruBefore)
  {
    forall x: NodeView, y: NodeView | LruBefore(x, y)
      ensures !LruBefore(y, x)
    {
      LruAsymmetric(x, y);
    }
    forall x: NodeView, y: NodeView, z: NodeView | !LruBefore(x, y) && !LruBefore(y, z)
      ensures !LruBefore(x, z)
    {
      NotLruTransitive(x, y, z);
    }
  }

  lemma LruAsymmetric(x: NodeView, y: NodeView)
    requires LruBefore(x, y)
    ensures !LruBefore(y, x)
  {
    if Less(x.name, y.name) { LessAsymmetric(x.name, y.name); }
    if x.lastAt.Some? && y.lastAt.Some? && Less(x.lastAt.value, y.lastAt.value) {
      LessAsymmetric(x.lastAt.value, y.lastAt.value);
    }
  }

  lemma NotLruTransitive(x: NodeView, y: NodeView, z: NodeView)
    requires !LruBefore(x, y) && !LruBefore(y, z)
    ensures !LruBefore(x, z)
  {
    if !Less(x.name, y.name) && !Less(y.name, z.name) {
      NotLessTransitive(x.name, y.name, z.name);
    }
    if x.lastAt.Some? && y.lastAt.Some? && z.lastAt.Some? {
      var a, b, c := x.lastAt.value, y.lastAt.value, z.lastAt.value;
      NotLessTransitive(a, b, c);
      if a != b { LessConnected(a, b); }
      if b != c { LessConnected(b, c); }
      if a == c && a != b { LessAsymmetric(b, a); LessAsymmetric(c, b); }
    }
  }

  lemma LruConnected(x: NodeView, y: NodeView)
    requires x.name != y.name
    ensures LruBefore(x, y) || LruBefore(y, x)
  {
    LessConnected(x.name, y.name);
    if x.lastAt.Some? && y.lastAt.Some? && x.lastAt.value != y.lastAt.value {
      LessConnected(x.lastAt.value, y.lastAt.value);
    }
  }

  /** With unique names the queue has no ties, so sorting it is independent of input order. */
  lemma QueueIsStrict(members: seq<NodeView>)
    requires UniqueNames(members)
    ensures var queue := Sort(members, LruBefore);
      StrictlySorted(queue, LruBefore) && UniqueNames(queue) && multiset(queue) == multiset(members)
  {
    LruOrder();
    SortSorts(members, LruBefore);
    var queue := Sort(members, LruBefore);
    UniqueNamesOfPermutation(members, queue);
    forall i, j | 0 <= i < j < |queue|
      ensures LruBefore(queue[i], queue[j])
    {
      LruConnected(queue[i], queue[j]);
    }
  }

  /** The pick depends on who is in the rack, not on the order they are listed in. */
  lemma PickIgnoresOrder(a: seq<NodeView>, b: seq<NodeView>, cutoff: string)
    requires UniqueNames(a) && multiset(a) == multiset(b)
    ensures PickPair(a, cutoff) == PickPair(b, cutoff)
  {
    LruOrder();
    QueueIsStrict(a);
    SortIgnoresOrder(a, b, LruBefore);
    assert |a| == |multiset(a)| == |multiset(b)| == |b|;
  }

  ghost predicate ProbedSince(v: NodeView, cutoff: string) {
    v.lastAt.Some? && AtMost(cutoff, v.lastAt.value)
  }

  /** Nothing is picked exactly when the rack is too small or wholly within cadence; otherwise
      the pick is the two least recently probed members. */
  lemma PickPairMeaning(members: seq<NodeView>, cutoff: string)
    requires UniqueNames(members)
    ensures PickPair(members, cutoff).None? <==>
      |members| < 2 || forall v | v in members :: ProbedSince(v, cutoff)
    ensures PickPair(members, cutoff).Some? ==>
      var (a, b) := PickPair(members, cutoff).value;
      && a in members && b in members && a.name != b.name
      && LruBefore(a, b) && !ProbedSince(a, cutoff)
      && (forall v | v in members && v != a && v != b :: LruBefore(b, v))
  {
    if |members| >= 2 {
      QueueIsStrict(members);
      var queue := Sort(members, LruBefore);
      SameElements(members, queue);
      var a, b := queue[0], queue[1];
      OldestDecides(a, b, cutoff);
      forall v | v in members
        ensures v != a && v != b ==> LruBefore(b, v)
        ensures v != a ==> LruBefore(a, v)
        ensures ProbedSince(a, cutoff) ==> ProbedSince(v, cutoff)
      {
        var i :| 0 <= i < |queue| && queue[i] == v;
        if v != a {
          assert LruBefore(queue[0], queue[i]);
          OldestDecides(a, v, cutoff);
        }
      }
    }
  }

  /** If the older of two nodes was probed since the cutoff, so was the newer. */
  lemma OldestDecides(a: NodeView, b: NodeView, cutoff: string)
    requires LruBefore(a, b)
    ensures ProbedSince(a, cutoff) ==> ProbedSince(b, cutoff)
    ensures ProbedSince(a, cutoff) ==> !Less(b.lastAt.value, a.lastAt.value)
    ensures a.lastAt.Some? && b.lastAt.Some? ==> !Less(b.lastAt.value, a.lastAt.value)
  {
    if a.lastAt.Some? && b.lastAt.Some? {
      var x, y := a.lastAt.value, b.lastAt.value;
      if Less(x, y) {
        LessAsymmetric(x, y);
        if Less(cutoff, x) { LessTransitive(cutoff, x, y); }
      } else {
        LessIrreflexive(x);
      }
    }
  }

  lemma NotAtMost(cutoff: string, x: string)
    ensures AtMost(cutoff, x) <==> !Less(x, cutoff)
  {
    LessIrreflexive(x);
    if cutoff != x {
      LessConnected(cutoff, x);
    }
    if Less(cutoff, x) {
      LessAsymmetric(cutoff, x);
    }
  }

  /** A node alone in its rack is picked exactly when its own loopback stamp is missing or lies
      before the cutoff; nobody is picked in any other rack. */
  lemma PickLoopbackMeaning(members: seq<NodeView>, cutoff: string, v: NodeView)
    ensures PickLoopback(members, cutoff) == Some(v) <==>
      members == [v] && (v.lastLoopbackAt.None? || Less(v.lastLoopbackAt.value, cutoff))
  {
    if v.lastLoopbackAt.Some? {
      NotAtMost(cutoff, v.lastLoopbackAt.value);
    }
    assert |members| == 1 ==> members == [members[0]];
  }

  /** Whoever shares a rack, names unique or not: a pair is picked exactly when the rack has two
      members and one of them is overdue; it is led by a least recently probed one. */
  lemma PairIsDue(members: seq<NodeView>, cutoff: string)
    ensures PickPair(members, cutoff).Some? <==>
      |members| >= 2 && exists v :: v in members && (v.lastAt.None? || Less(v.lastAt.value, cutoff))
    ensures PickPair(members, cutoff).Some? ==>
      var (a, b) := PickPair(members, cutoff).value;
      && a in members && b in members && !LruBefore(b, a)
      && (forall v | v in members :: !LruBefore(v, a))
      && (forall v | v in members && v != a && v != b :: !LruBefore(v, b))
  {
    if |members| >= 2 {
      LruOrder();
      SortSorts(members, LruBefore);
      var queue := Sort(members, LruBefore);
      SameElements(members, queue);
      var a, b := queue[0], queue[1];
      forall v | v in members
        ensures !LruBefore(v, a) && (v != a && v != b ==> !LruBefore(v, b))
        ensures v.lastAt.None? || Less(v.lastAt.value, cutoff) ==> a.lastAt.None? || Less(a.lastAt.value, cutoff)
      {
        var i :| 0 <= i < |queue| && queue[i] == v;
        assert !LruBefore(queue[i], queue[0]);
        NewerIsDueLater(a, v, cutoff);
      }
      assert a in members && b in members;
      assert !LruBefore(b, a);
      if a.lastAt.Some? {
        NotAtMost(cutoff, a.lastAt.value);
      }
    }
  }

  lemma NewerIsDueLater(a: NodeView, v: NodeView, cutoff: string)
    requires !LruBefore(v, a)
    ensures v.lastAt.None? || Less(v.lastAt.value, cutoff) ==> a.lastAt.None? || Less(a.lastAt.value, cutoff)
  {
    if a.lastAt.Some? && v.lastAt.Some? {
      NotAtMost(a.lastAt.value, v.lastAt.value);
      if Less(v.lastAt.value, cutoff) && a.lastAt.value != v.lastAt.value {
        LessTransitive(a.lastAt.value, v.lastAt.value, cutoff);
      }
    }
  }

  /** A rack gets a pair probe or a loopback probe, never both. */
  lemma PickIsExclusive(members: seq<NodeView>, cutoff: string)
    ensures PickPair(members, cutoff).None? || PickLoopback(members, cutoff).None?
  {
  }
}
