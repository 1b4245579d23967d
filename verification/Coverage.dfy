/** What the pair choice does over many reconcile passes of one rack.  A pass that picks a pair
    writes one stamp to both of its nodes; nothing else changes the stamps of the rack. */
module Coverage {
  import opened Text
  import opened Sorting
  import opened Pairing

  /** One pass over the rack: the cadence cutoff it used and the stamp its probe wrote. */
  datatype Pass = Pass(cutoff: string, stamp: string)

  function Names(members: seq<NodeView>): set<string> {
    set v | v in members :: v.name
  }

  function StampOne(v: NodeView, names: set<string>, stamp: string): NodeView {
    if v.name in names then v.(lastAt := Some(stamp)) else v
  }

  function Stamp(members: seq<NodeView>, names: set<string>, stamp: string): (r: seq<NodeView>)
    ensures |r| == |members|
  {
    seq(|members|, i requires 0 <= i < |members| => StampOne(members[i], names, stamp))
  }

  function Picked(members: seq<NodeView>, cutoff: string): set<string> {
    match PickPair(members, cutoff)
    case None => {}
    case Some((a, b)) => {a.name, b.name}
  }

  /** The rack after a pass: both picked nodes carry the pass's stamp. */
  function Step(members: seq<NodeView>, pass: Pass): (r: seq<NodeView>)
    ensures |r| == |members|
  {
    Stamp(members, Picked(members, pass.cutoff), pass.stamp)
  }

  function Run(members: seq<NodeView>, passes: seq<Pass>): (r: seq<NodeView>)
    ensures |r| == |members|
  {
    if passes == [] then members
    else Step(Run(members, passes[..|passes| - 1]), passes[|passes| - 1])
  }

  /** The pairs probed by a run, in order; passes that pick nothing add nothing. */
  function Picks(members: seq<NodeView>, passes: seq<Pass>): seq<set<string>> {
    if passes == [] then []
    else
      var before := passes[..|passes| - 1];
      var pick := Picked(Run(members, before), passes[|passes| - 1].cutoff);
      Picks(members, before) + if pick == {} then [] else [pick]
  }

  function Covered(members: seq<NodeView>, passes: seq<Pass>): set<string> {
    if passes == [] then {}
    else
      var before := passes[..|passes| - 1];
      Covered(members, before) + Picked(Run(members, before), passes[|passes| - 1].cutoff)
  }

  ghost predicate Newer(members: seq<NodeView>, stamp: string) {
    forall v | v in members && v.lastAt.Some? :: Less(v.lastAt.value, stamp)
  }

  /** Every stamp is strictly newer than all earlier stamps in the rack. */
  ghost predicate FreshStamps(members: seq<NodeView>, passes: seq<Pass>)
    decreases |passes|
  {
    passes != [] ==>
      var before := passes[..|passes| - 1];
      FreshStamps(members, before) && Newer(Run(members, before), passes[|passes| - 1].stamp)
  }

  lemma StampKeepsNames(members: seq<NodeView>, names: set<string>, stamp: string)
    ensures forall i | 0 <= i < |members| :: Stamp(members, names, stamp)[i].name == members[i].name
    ensures Names(Stamp(members, names, stamp)) == Names(members)
    ensures UniqueNames(members) ==> UniqueNames(Stamp(members, names, stamp))
  {
  }

  lemma {:induction false} RunKeepsNames(members: seq<NodeView>, passes: seq<Pass>)
    requires UniqueNames(members)
    ensures UniqueNames(Run(members, passes)) && Names(Run(members, passes)) == Names(members)
  {
    if passes != [] {
      var before := passes[..|passes| - 1];
      RunKeepsNames(members, before);
      var rack := Run(members, before);
      StampKeepsNames(rack, Picked(rack, passes[|passes| - 1].cutoff), passes[|passes| - 1].stamp);
    }
  }

  /** A picked pair has a node not probed since the cutoff. */
  lemma PickHasOverdueNode(members: seq<NodeView>, cutoff: string) returns (v: NodeView)
    requires UniqueNames(members) && Picked(members, cutoff) != {}
    ensures v in members && v.name in Picked(members, cutoff) && !ProbedSince(v, cutoff)
  {
    PickPairMeaning(members, cutoff);
    v := PickPair(members, cutoff).value.0;
  }

  // Node coverage

  /** Every node picked so far sorts after every node not picked yet. */
  ghost predicate PickedSortLast(members: seq<NodeView>, picked: set<string>) {
    forall p, q | p in members && q in members && p.name in picked && q.name !in picked :: LruBefore(q, p)
  }

  lemma StepKeepsPickedLast(members: seq<NodeView>, picked: set<string>, pass: Pass)
    requires UniqueNames(members) && PickedSortLast(members, picked)
    requires Newer(members, pass.stamp)
    ensures PickedSortLast(Step(members, pass), picked + Picked(members, pass.cutoff))
  {
  }

  /** A pick takes two nodes not picked before, or the last one left. */
  lemma PickTakesUnpicked(members: seq<NodeView>, picked: set<string>, cutoff: string)
    requires UniqueNames(members) && PickedSortLast(members, picked)
    requires picked <= Names(members) && PickPair(members, cutoff).Some?
    ensures var names := Picked(members, cutoff);
      names <= Names(members) && |names| == 2
      && (names !! picked || Names(members) == picked + names)
      && (names * picked == names ==> picked == Names(members))
  {
    PickPairMeaning(members, cutoff);
    var (a, b) := PickPair(members, cutoff).value;
    if picked != Names(members) {
      var name :| name in Names(members) && name !in picked;
      var q :| q in members && q.name == name;
      if a.name in picked {
        LruAsymmetric(q, a);
        LruAntisymmetricLeast(members, a, b, q);
      }
      if b.name in picked {
        forall n | n in Names(members)
          ensures n in picked + {a.name, b.name}
        {
          var v :| v in members && v.name == n;
          if n !in picked && v != a {
            LruAsymmetric(v, b);
          }
        }
      }
    }
  }

  lemma LruAntisymmetricLeast(members: seq<NodeView>, a: NodeView, b: NodeView, v: NodeView)
    requires LruBefore(a, b) && v in members && v != a
    requires forall u | u in members && u != a && u != b :: LruBefore(b, u)
    ensures LruBefore(a, v)
  {
    if v != b {
      LruTransitive(a, b, v);
    }
  }

  lemma LruTransitive(x: NodeView, y: NodeView, z: NodeView)
    requires LruBefore(x, y) && LruBefore(y, z)
    ensures LruBefore(x, z)
  {
    if Less(x.name, y.name) && Less(y.name, z.name) { LessTransitive(x.name, y.name, z.name); }
    if x.lastAt.Some? && y.lastAt.Some? && z.lastAt.Some?
      && Less(x.lastAt.value, y.lastAt.value) && Less(y.lastAt.value, z.lastAt.value)
    {
      LessTransitive(x.lastAt.value, y.lastAt.value, z.lastAt.value);
    }
  }

  lemma {:induction false} CoverageInvariant(members: seq<NodeView>, passes: seq<Pass>)
    requires UniqueNames(members) && FreshStamps(members, passes)
    ensures var covered := Covered(members, passes);
      && PickedSortLast(Run(members, passes), covered)
      && covered <= Names(members)
      && (covered == Names(members) || |covered| == 2 * |Picks(members, passes)|)
  {
    if passes != [] {
      var k := |passes| - 1;
      var before, pass := passes[..k], passes[k];
      CoverageInvariant(members, before);
      RunKeepsNames(members, before);
      var rack, covered := Run(members, before), Covered(members, before);
      StepKeepsPickedLast(rack, covered, pass);
      if PickPair(rack, pass.cutoff).Some? {
        PickTakesUnpicked(rack, covered, pass.cutoff);
      }
    }
  }

  lemma NamesCount(members: seq<NodeView>)
    requires UniqueNames(members)
    ensures |Names(members)| == |members|
  {
    if members != [] {
      var init, last := members[..|members| - 1], members[|members| - 1];
      NamesCount(init);
      assert members == init + [last];
      assert Names(members) == Names(init) + {last.name};
    }
  }

  /** Fairness: half as many picks as nodes, rounded up, touch every node of the rack, from any
      stamps and whatever the cutoffs. */
  lemma EveryNodeProbed(members: seq<NodeView>, passes: seq<Pass>)
    requires UniqueNames(members) && FreshStamps(members, passes)
    requires |Picks(members, passes)| >= (|members| + 1) / 2
    ensures Covered(members, passes) == Names(members)
  {
    CoverageInvariant(members, passes);
    NamesCount(members);
    var covered, all := Covered(members, passes), Names(members);
    if covered != all {
      var name :| name in all && name !in covered;
      SubsetSize(covered, all - {name});
    }
  }

  // Liveness

  lemma StepKeepsUnpicked(rack: seq<NodeView>, pass: Pass, v: NodeView)
    requires v in rack && v.name !in Picked(rack, pass.cutoff)
    ensures v in Step(rack, pass)
  {
    hide Picked;
    var i :| 0 <= i < |rack| && rack[i] == v;
    assert Step(rack, pass)[i] == v;
  }

  /** A node no pass has picked yet stands as it did. */
  lemma {:induction false} UncoveredStays(members: seq<NodeView>, passes: seq<Pass>, v: NodeView)
    requires v in members && v.name !in Covered(members, passes)
    ensures v in Run(members, passes)
  {
    hide Picked, Step;
    if passes != [] {
      var before, pass := passes[..|passes| - 1], passes[|passes| - 1];
      UncoveredStays(members, before, v);
      StepKeepsUnpicked(Run(members, before), pass, v);
    }
  }

  /** While a node is overdue every pass picks somebody. */
  lemma {:induction false} OverdueKeepsPicking(members: seq<NodeView>, passes: seq<Pass>, v: NodeView)
    requires UniqueNames(members) && |members| >= 2 && v in members
    requires forall k | 0 <= k < |passes| :: !ProbedSince(v, passes[k].cutoff)
    requires v.name !in Covered(members, passes)
    ensures |Picks(members, passes)| == |passes|
  {
    hide PickPair, ProbedSince, Step, Names;
    if passes != [] {
      var n := |passes| - 1;
      var before := passes[..n];
      OverdueKeepsPicking(members, before, v);
      UncoveredStays(members, before, v);
      RunKeepsNames(members, before);
      PickPairMeaning(Run(members, before), passes[n].cutoff);
    }
  }

  /** Liveness: a node whose stamp is older than every cutoff, or missing, is picked within half
      as many passes as the rack has nodes, rounded up. */
  lemma OverdueNodeIsReached(members: seq<NodeView>, passes: seq<Pass>, v: NodeView)
    requires UniqueNames(members) && |members| >= 2 && v in members && FreshStamps(members, passes)
    requires forall k | 0 <= k < |passes| :: !ProbedSince(v, passes[k].cutoff)
    requires |passes| >= (|members| + 1) / 2
    ensures v.name in Covered(members, passes)
  {
    if v.name !in Covered(members, passes) {
      OverdueKeepsPicking(members, passes, v);
      EveryNodeProbed(members, passes);
    }
  }
}
