/** The schedule in real time.  Cutoffs and stamps are printed instants compared as strings, so
    the runs are stated for a printer of instants; `Rfc3339At` is shown to be an order-preserving
    one on the years 0000 to 9999, which is all the proofs need. */
module Schedule {
  import opened Text
  import opened Calendar
  import opened Pairing
  import Coverage

  /** A printer, and the instants on which it keeps the order of time. */
  datatype Clock = Clock(show: int -> string, lo: int, hi: int) {
    predicate Covers(t: int) { lo <= t < hi }

    ghost predicate KeepsOrder() {
      forall s, t | Covers(s) && Covers(t) :: AtMost(show(s), show(t)) <==> s <= t
    }
  }

  const RFC3339 := Clock(Rfc3339At, YearStart(0) * 86_400, YEAR_TEN_THOUSAND)

  lemma Rfc3339KeepsOrder()
    ensures RFC3339.KeepsOrder()
  {
    forall s, t | RFC3339.Covers(s) && RFC3339.Covers(t)
      ensures AtMost(RFC3339.show(s), RFC3339.show(t)) <==> s <= t
    {
      PrintedOrderIsTimeOrder(s, t);
    }
  }

  /** A pass that read the clock at `now` and stamped its probe at `wrote`, in Unix seconds. */
  datatype TimedPass = TimedPass(now: int, wrote: int)

  function Printed(c: Clock, pass: TimedPass, cadence: int): Coverage.Pass {
    Coverage.Pass(c.show(pass.now - cadence), c.show(pass.wrote))
  }

  function PrintedAll(c: Clock, passes: seq<TimedPass>, cadence: int): (r: seq<Coverage.Pass>)
    ensures |r| == |passes|
  {
    seq(|passes|, k requires 0 <= k < |passes| => Printed(c, passes[k], cadence))
  }

  /** The rack as pass `k` finds it, and the pair that pass probes. */
  function RackAt(c: Clock, members: seq<NodeView>, passes: seq<TimedPass>, cadence: int, k: nat): seq<NodeView>
    requires k <= |passes|
  {
    Coverage.Run(members, PrintedAll(c, passes, cadence)[..k])
  }

  function PickAt(c: Clock, members: seq<NodeView>, passes: seq<TimedPass>, cadence: int, k: nat): set<string>
    requires k < |passes|
  {
    Coverage.Picked(RackAt(c, members, passes, cadence, k), c.show(passes[k].now - cadence))
  }

  lemma RackStep(c: Clock, members: seq<NodeView>, passes: seq<TimedPass>, cadence: int, k: nat)
    requires k < |passes|
    ensures RackAt(c, members, passes, cadence, k + 1)
      == Coverage.Step(RackAt(c, members, passes, cadence, k), Printed(c, passes[k], cadence))
  {
    var all := PrintedAll(c, passes, cadence);
    assert all[..k + 1][..k] == all[..k];
  }

  /** A clock that never runs backwards, within the instants the printer covers. */
  ghost predicate ClockRunsForward(c: Clock, passes: seq<TimedPass>, cadence: int) {
    && (forall k | 0 <= k < |passes| ::
          c.Covers(passes[k].now - cadence) && c.Covers(passes[k].wrote) && passes[k].now <= passes[k].wrote)
    && (forall i, j | 0 <= i < j < |passes| :: passes[i].wrote <= passes[j].now)
  }

  // Cadence

  ghost predicate StampedSince(c: Clock, rack: seq<NodeView>, names: set<string>, t: int) {
    forall v | v in rack && v.name in names ::
      exists w :: c.Covers(w) && t <= w && v.lastAt == Some(c.show(w))
  }

  lemma StepKeepsStamped(c: Clock, rack: seq<NodeView>, names: set<string>, t: int, pass: Coverage.Pass, wrote: int)
    requires pass.stamp == c.show(wrote) && c.Covers(wrote) && t <= wrote
    requires StampedSince(c, rack, names - Coverage.Picked(rack, pass.cutoff), t)
    ensures StampedSince(c, Coverage.Step(rack, pass), names, t)
  {
  }

  /** Once a pass has stamped a pair at `t`, its nodes carry a stamp of `t` or later. */
  lemma {:induction false} StampsStay(
    c: Clock, members: seq<NodeView>, passes: seq<TimedPass>, cadence: int, i: nat, j: nat)
    requires i < j <= |passes| && ClockRunsForward(c, passes, cadence)
    ensures StampedSince(c, RackAt(c, members, passes, cadence, j),
                         PickAt(c, members, passes, cadence, i), passes[i].wrote)
  {
    var k := j - 1;
    if k > i {
      StampsStay(c, members, passes, cadence, i, k);
    }
    RackStep(c, members, passes, cadence, k);
    StepKeepsStamped(c, RackAt(c, members, passes, cadence, k), PickAt(c, members, passes, cadence, i),
                     passes[i].wrote, Printed(c, passes[k], cadence), passes[k].wrote);
  }

  /** Cadence: a pair probed at `t` is not probed again by a pass whose clock is within the
      cadence of `t`. */
  lemma PairNotProbedWithinCadence(
    c: Clock, members: seq<NodeView>, passes: seq<TimedPass>, cadence: int, i: nat, j: nat)
    requires c.KeepsOrder() && UniqueNames(members)
    requires i < j < |passes| && ClockRunsForward(c, passes, cadence)
    requires PickAt(c, members, passes, cadence, j) == PickAt(c, members, passes, cadence, i) != {}
    ensures passes[j].now - cadence > passes[i].wrote
  {
    Coverage.RunKeepsNames(members, PrintedAll(c, passes, cadence)[..j]);
    StampsStay(c, members, passes, cadence, i, j);
    var v := Coverage.PickHasOverdueNode(RackAt(c, members, passes, cadence, j), c.show(passes[j].now - cadence));
    var w :| c.Covers(w) && passes[i].wrote <= w && v.lastAt == Some(c.show(w));
  }

  // Fairness

  ghost predicate StampedBefore(c: Clock, members: seq<NodeView>, t: int) {
    forall v | v in members && v.lastAt.Some? ::
      exists w :: c.Covers(w) && w < t && v.lastAt == Some(c.show(w))
  }

  lemma StepStampedBefore(c: Clock, rack: seq<NodeView>, pass: Coverage.Pass, wrote: int, t: int)
    requires pass.stamp == c.show(wrote) && c.Covers(wrote) && wrote < t
    requires StampedBefore(c, rack, wrote)
    ensures StampedBefore(c, Coverage.Step(rack, pass), t)
  {
  }

  ghost predicate DistinctSeconds(passes: seq<TimedPass>) {
    forall i, j | 0 <= i < j < |passes| :: passes[i].wrote < passes[j].wrote
  }

  lemma {:induction false} EarlierStamps(
    c: Clock, members: seq<NodeView>, passes: seq<TimedPass>, cadence: int, k: nat)
    requires k < |passes| && ClockRunsForward(c, passes, cadence) && DistinctSeconds(passes)
    requires StampedBefore(c, members, passes[0].wrote)
    ensures StampedBefore(c, RackAt(c, members, passes, cadence, k), passes[k].wrote)
  {
    if k > 0 {
      EarlierStamps(c, members, passes, cadence, k - 1);
      RackStep(c, members, passes, cadence, k - 1);
      StepStampedBefore(c, RackAt(c, members, passes, cadence, k - 1), Printed(c, passes[k - 1], cadence),
                        passes[k - 1].wrote, passes[k].wrote);
    }
  }

  lemma EarlierStampsAreLess(c: Clock, rack: seq<NodeView>, t: int)
    requires c.KeepsOrder() && c.Covers(t) && StampedBefore(c, rack, t)
    ensures Coverage.Newer(rack, c.show(t))
  {
  }

  lemma {:induction false} DistinctSecondsAreFresh(
    c: Clock, members: seq<NodeView>, passes: seq<TimedPass>, cadence: int, k: nat)
    requires c.KeepsOrder() && k <= |passes|
    requires ClockRunsForward(c, passes, cadence) && DistinctSeconds(passes)
    requires |passes| > 0 ==> StampedBefore(c, members, passes[0].wrote)
    ensures Coverage.FreshStamps(members, PrintedAll(c, passes, cadence)[..k])
  {
    if k > 0 {
      var all := PrintedAll(c, passes, cadence);
      assert all[..k][..k - 1] == all[..k - 1];
      DistinctSecondsAreFresh(c, members, passes, cadence, k - 1);
      EarlierStamps(c, members, passes, cadence, k - 1);
      EarlierStampsAreLess(c, RackAt(c, members, passes, cadence, k - 1), passes[k - 1].wrote);
    }
  }

  /** Fairness in real time: with stamps in distinct seconds, half as many picks as nodes,
      rounded up, touch every node. */
  lemma EveryNodeProbedInTime(c: Clock, members: seq<NodeView>, passes: seq<TimedPass>, cadence: int)
    requires c.KeepsOrder() && UniqueNames(members)
    requires ClockRunsForward(c, passes, cadence) && DistinctSeconds(passes)
    requires |passes| > 0 ==> StampedBefore(c, members, passes[0].wrote)
    requires |Coverage.Picks(members, PrintedAll(c, passes, cadence))| >= (|members| + 1) / 2
    ensures Coverage.Covered(members, PrintedAll(c, passes, cadence)) == Coverage.Names(members)
  {
    var all := PrintedAll(c, passes, cadence);
    DistinctSecondsAreFresh(c, members, passes, cadence, |all|);
    assert all[..|all|] == all;
    Coverage.EveryNodeProbed(members, all);
  }

  /** Liveness in real time: a node that was never stamped, or was stamped before the first pass's
      cutoff, is probed by one of the first half as many passes as the rack has nodes, rounded
      up, and so before that pass has written its stamp. */
  lemma OverdueNodeProbedInTime(c: Clock, members: seq<NodeView>, passes: seq<TimedPass>, cadence: int, v: NodeView)
    requires c.KeepsOrder() && UniqueNames(members) && |members| >= 2 && v in members
    requires ClockRunsForward(c, passes, cadence) && DistinctSeconds(passes)
    requires |passes| >= (|members| + 1) / 2 && StampedBefore(c, members, passes[0].wrote)
    requires v.lastAt.Some? ==> exists w :: c.Covers(w) && w < passes[0].now - cadence && v.lastAt == Some(c.show(w))
    ensures exists k :: 0 <= k < (|members| + 1) / 2 && v.name in PickAt(c, members, passes, cadence, k)
  {
    var all := PrintedAll(c, passes, cadence);
    var h := (|members| + 1) / 2;
    DistinctSecondsAreFresh(c, members, passes, cadence, h);
    forall k | 0 <= k < h
      ensures !ProbedSince(v, all[..h][k].cutoff)
    {
      StillOverdue(c, passes, cadence, v, k);
    }
    Coverage.OverdueNodeIsReached(members, all[..h], v);
    CoveredBySome(c, members, passes, cadence, v.name, h);
  }

  lemma StillOverdue(c: Clock, passes: seq<TimedPass>, cadence: int, v: NodeView, k: nat)
    requires c.KeepsOrder() && ClockRunsForward(c, passes, cadence) && k < |passes|
    requires v.lastAt.Some? ==> exists w :: c.Covers(w) && w < passes[0].now - cadence && v.lastAt == Some(c.show(w))
    ensures !ProbedSince(v, c.show(passes[k].now - cadence))
  {
    if v.lastAt.Some? {
      var w :| c.Covers(w) && w < passes[0].now - cadence && v.lastAt == Some(c.show(w));
      assert passes[0].now <= passes[k].now by {
        assert k > 0 ==> passes[0].wrote <= passes[k].now;
      }
      assert !AtMost(c.show(passes[k].now - cadence), c.show(w));
    }
  }

  lemma {:induction false} CoveredBySome(
    c: Clock, members: seq<NodeView>, passes: seq<TimedPass>, cadence: int, name: string, n: nat)
    requires n <= |passes| && name in Coverage.Covered(members, PrintedAll(c, passes, cadence)[..n])
    ensures exists k :: 0 <= k < n && name in PickAt(c, members, passes, cadence, k)
  {
    hide Coverage.Run, Coverage.Picked, Coverage.Step;
    var all := PrintedAll(c, passes, cadence);
    if n > 0 {
      assert all[..n][..n - 1] == all[..n - 1];
      if name in Coverage.Covered(members, all[..n - 1]) {
        CoveredBySome(c, members, passes, cadence, name, n - 1);
      } else {
        assert name in PickAt(c, members, passes, cadence, n - 1);
      }
    }
  }

  // One pass

  /** A pass probes the rack exactly when some node was last stamped before the cutoff, or
      never: the string comparison decides the time comparison. */
  lemma DueMeansOverdue(c: Clock, members: seq<NodeView>, stamps: map<string, int>, cutoff: int)
    requires c.KeepsOrder() && UniqueNames(members) && |members| >= 2 && c.Covers(cutoff)
    requires forall v | v in members ::
      v.lastAt == if v.name in stamps then Some(c.show(stamps[v.name])) else None
    requires forall name | name in stamps :: c.Covers(stamps[name])
    ensures PickPair(members, c.show(cutoff)).Some? <==>
      exists v :: v in members && (v.name in stamps ==> stamps[v.name] < cutoff)
  {
    PickPairMeaning(members, c.show(cutoff));
    forall v | v in members
      ensures ProbedSince(v, c.show(cutoff)) <==> v.name in stamps && cutoff <= stamps[v.name]
    {
    }
  }

  /** A node alone in its rack is probed exactly when its loopback stamp lies before the cutoff, or
      it has none. */
  lemma LoopbackDueMeansOverdue(c: Clock, v: NodeView, stamp: Option<int>, cutoff: int)
    requires c.KeepsOrder() && c.Covers(cutoff) && (stamp.Some? ==> c.Covers(stamp.value))
    requires v.lastLoopbackAt == if stamp.Some? then Some(c.show(stamp.value)) else None
    ensures PickLoopback([v], c.show(cutoff)) == Some(v) <==> stamp.None? || stamp.value < cutoff
  {
    PickLoopbackMeaning([v], c.show(cutoff), v);
    if stamp.Some? {
      NotAtMost(c.show(cutoff), c.show(stamp.value));
    }
  }
}
