/** Which pairs of a rack ever meet.  The comment in src/prober/pair.rs expects per-node LRU to
    reach every pair; which racks it does so for is decided here, for every history of stamps.
    The runs are those of `Coverage`. */
module PairCoverage {
  import opened Text
  import opened Sorting
  import opened Pairing
  import opened Coverage
  import opened Rotation

  /** The rack in the order the next picks take it. */
  function Queue(members: seq<NodeView>): (r: seq<NodeView>)
    ensures |r| == |members|
  {
    Sort(members, LruBefore)
  }

  /** The two picked nodes as they stand after the pass, in name order. */
  function Requeued(a: NodeView, b: NodeView, stamp: string): seq<NodeView> {
    var a', b' := a.(lastAt := Some(stamp)), b.(lastAt := Some(stamp));
    if Less(a.name, b.name) then [a', b'] else [b', a']
  }

  lemma RequeuedSorts(q: seq<NodeView>, stamp: string)
    requires |q| >= 2 && StrictlySorted(q, LruBefore) && UniqueNames(q) && Newer(q, stamp)
    ensures var next := q[2..] + Requeued(q[0], q[1], stamp);
      StrictlySorted(next, LruBefore) && UniqueNames(next)
  {
    var last := Requeued(q[0], q[1], stamp);
    LessConnected(q[0].name, q[1].name);
    var next := q[2..] + last;
    forall i, j | 0 <= i < j < |next|
      ensures LruBefore(next[i], next[j]) && next[i].name != next[j].name
    {
      if j < |q| - 2 {
        assert next[i] == q[i + 2] && next[j] == q[j + 2];
      } else if i < |q| - 2 {
        assert next[i] == q[i + 2] && q[i + 2] in q;
      }
    }
  }

  lemma StampedElements(members: seq<NodeView>, q: seq<NodeView>, stamp: string)
    requires |q| >= 2 && UniqueNames(q) && multiset(members) == multiset(q)
    ensures forall v ::
      v in Stamp(members, {q[0].name, q[1].name}, stamp) <==> v in q[2..] + Requeued(q[0], q[1], stamp)
  {
    SameElements(members, q);
    var names := {q[0].name, q[1].name};
    var after, next := Stamp(members, names, stamp), q[2..] + Requeued(q[0], q[1], stamp);
    assert forall v :: v in next <==> exists k :: 0 <= k < |q| && v == StampOne(q[k], names, stamp) by {
      forall v | v in next
        ensures exists k :: 0 <= k < |q| && v == StampOne(q[k], names, stamp)
      {
        if v in q[2..] {
          var i :| 0 <= i < |q[2..]| && q[2..][i] == v;
          assert v == StampOne(q[i + 2], names, stamp);
        } else if v == StampOne(q[0], names, stamp) {
        } else {
          assert v == StampOne(q[1], names, stamp);
        }
      }
      forall k | 0 <= k < |q|
        ensures StampOne(q[k], names, stamp) in next
      {
        if k >= 2 {
          assert q[k] == q[2..][k - 2];
        }
      }
    }
    forall v | v in after
      ensures v in next
    {
      var i :| 0 <= i < |after| && after[i] == v;
      assert members[i] in q;
      var k :| 0 <= k < |q| && q[k] == members[i];
    }
    forall v | v in next
      ensures v in after
    {
      var k :| 0 <= k < |q| && v == StampOne(q[k], names, stamp);
      assert q[k] in members;
      var i :| 0 <= i < |members| && members[i] == q[k];
      assert after[i] == v;
    }
  }

  /** A pick takes the front two of the queue and puts them at the back. */
  lemma PickRotatesQueue(members: seq<NodeView>, pass: Pass)
    requires UniqueNames(members) && PickPair(members, pass.cutoff).Some? && Newer(members, pass.stamp)
    ensures var q := Queue(members);
      |q| >= 2
      && Picked(members, pass.cutoff) == {q[0].name, q[1].name}
      && Queue(Step(members, pass)) == q[2..] + Requeued(q[0], q[1], pass.stamp)
  {
    var q := Queue(members);
    QueueIsStrict(members);
    SameElements(members, q);
    var names := Picked(members, pass.cutoff);
    var next := q[2..] + Requeued(q[0], q[1], pass.stamp);
    RequeuedSorts(q, pass.stamp);
    StampedElements(members, q, pass.stamp);
    StampKeepsNames(members, names, pass.stamp);
    var after := Step(members, pass);
    assert Distinct(after) && Distinct(next);
    SameBag(after, next);
    LruOrder();
    SortSorts(after, LruBefore);
    StrictlySortedUnique(next, Queue(after), LruBefore);
  }

  // Racks of an even size: the pairing freezes

  /** The queue in twos. */
  function Blocks(q: seq<NodeView>): (r: seq<set<string>>)
    requires |q| % 2 == 0
    ensures |r| == |q| / 2
  {
    seq(|q| / 2, i requires 0 <= i < |q| / 2 => {q[2 * i].name, q[2 * i + 1].name})
  }

  function Rotated<T>(s: seq<T>, k: nat): (r: seq<T>)
    ensures |r| == |s|
  {
    if k == 0 || s == [] then s else var r := Rotated(s, k - 1); r[1..] + [r[0]]
  }

  /** The place of `k` on a cycle of `h` places. */
  function Around(k: nat, h: nat): (r: nat)
    requires h > 0
    ensures r < h
    ensures k < h ==> r == k
  {
    if k < h then k else Around(k - h, h)
  }

  lemma {:induction false} RotatedAt<T>(s: seq<T>, k: nat, i: nat)
    requires i < |s|
    ensures Rotated(s, k)[i] == s[Around(i + k, |s|)]
  {
    if k > 0 {
      RotatedAt(s, k - 1, if i + 1 < |s| then i + 1 else 0);
    }
  }

  lemma BlocksRotate(q: seq<NodeView>, q': seq<NodeView>, stamp: string)
    requires |q| % 2 == 0 && |q| >= 2
    requires q' == q[2..] + Requeued(q[0], q[1], stamp)
    ensures Blocks(q') == Blocks(q)[1..] + [Blocks(q)[0]]
  {
    var h := |q| / 2;
    forall i | 0 <= i < h
      ensures Blocks(q')[i] == (Blocks(q)[1..] + [Blocks(q)[0]])[i]
    {
      if i < h - 1 {
        assert q'[2 * i] == q[2 * (i + 1)] && q'[2 * i + 1] == q[2 * (i + 1) + 1];
      }
    }
  }

  lemma PickRotatesBlocks(rack: seq<NodeView>, pass: Pass)
    requires UniqueNames(rack) && |rack| % 2 == 0 && Newer(rack, pass.stamp)
    requires PickPair(rack, pass.cutoff).Some?
    ensures |rack| >= 2 && Picked(rack, pass.cutoff) == Blocks(Queue(rack))[0]
    ensures Blocks(Queue(Step(rack, pass))) == Blocks(Queue(rack))[1..] + [Blocks(Queue(rack))[0]]
  {
    PickRotatesQueue(rack, pass);
    BlocksRotate(Queue(rack), Queue(Step(rack, pass)), pass.stamp);
  }

  lemma PickJoins(members: seq<NodeView>, passes: seq<Pass>)
    requires passes != []
    ensures var before, pass := passes[..|passes| - 1], passes[|passes| - 1];
      var rack := Run(members, before);
      && Run(members, passes) == Step(rack, pass)
      && (if PickPair(rack, pass.cutoff).Some?
          then Picks(members, passes) == Picks(members, before) + [Picked(rack, pass.cutoff)]
          else Picks(members, passes) == Picks(members, before) && Step(rack, pass) == rack)
  {
  }

  lemma {:induction false} BlocksAfterRun(members: seq<NodeView>, passes: seq<Pass>)
    requires UniqueNames(members) && |members| % 2 == 0 && FreshStamps(members, passes)
    ensures Blocks(Queue(Run(members, passes))) == Rotated(Blocks(Queue(members)), |Picks(members, passes)|)
  {
    if passes != [] {
      var before, pass := passes[..|passes| - 1], passes[|passes| - 1];
      RunKeepsNames(members, before);
      PickJoins(members, passes);
      BlocksAfterRun(members, before);
      var rack := Run(members, before);
      var m := |Picks(members, before)|;
      if PickPair(rack, pass.cutoff).Some? {
        PickRotatesBlocks(rack, pass);
        assert |Picks(members, passes)| == m + 1;
        var r := Rotated(Blocks(Queue(members)), m);
        assert Blocks(Queue(Step(rack, pass))) == r[1..] + [r[0]];
      }
    }
  }

  /** In a rack of even size the picks cycle through the same half as many pairs forever, from
      any stamps: pick `k` is the pair at place `k mod n/2` of the starting queue. */
  lemma {:induction false} PairingFreezes(members: seq<NodeView>, passes: seq<Pass>, k: nat)
    requires UniqueNames(members) && |members| % 2 == 0 && FreshStamps(members, passes)
    requires k < |Picks(members, passes)|
    ensures |members| >= 2
    ensures Picks(members, passes)[k] == Blocks(Queue(members))[Around(k, |members| / 2)]
  {
    var before, pass := passes[..|passes| - 1], passes[|passes| - 1];
    PickJoins(members, passes);
    if k < |Picks(members, before)| {
      PairingFreezes(members, before, k);
    } else {
      LatestPick(members, before, pass);
      RotatedAt(Blocks(Queue(members)), k, 0);
    }
  }

  lemma LatestPick(members: seq<NodeView>, before: seq<Pass>, pass: Pass)
    requires UniqueNames(members) && |members| % 2 == 0 && FreshStamps(members, before)
    requires Newer(Run(members, before), pass.stamp) && PickPair(Run(members, before), pass.cutoff).Some?
    ensures |members| >= 2
    ensures Picked(Run(members, before), pass.cutoff)
      == Rotated(Blocks(Queue(members)), |Picks(members, before)|)[0]
  {
    RunKeepsNames(members, before);
    PickRotatesBlocks(Run(members, before), pass);
    BlocksAfterRun(members, before);
  }

  // The queue by name alone

  function NameQueue(members: seq<NodeView>): (r: seq<string>)
    ensures |r| == |members|
  {
    seq(|members|, i requires 0 <= i < |members| => Queue(members)[i].name)
  }

  lemma PickTurns(rack: seq<NodeView>, pass: Pass)
    requires UniqueNames(rack) && PickPair(rack, pass.cutoff).Some? && Newer(rack, pass.stamp)
    ensures |rack| >= 2 && Picked(rack, pass.cutoff) == Front(NameQueue(rack))
    ensures NameQueue(Step(rack, pass)) == Turn(NameQueue(rack))
  {
    PickRotatesQueue(rack, pass);
  }

  lemma {:induction false} NamesAfterRun(members: seq<NodeView>, passes: seq<Pass>)
    requires UniqueNames(members) && |members| >= 2 && FreshStamps(members, passes)
    ensures NameQueue(Run(members, passes)) == Turns(NameQueue(members), |Picks(members, passes)|)
  {
    hide NameQueue, Turn, Step, Newer, PickPair;
    if passes != [] {
      var before, pass := passes[..|passes| - 1], passes[|passes| - 1];
      RunKeepsNames(members, before);
      PickJoins(members, passes);
      NamesAfterRun(members, before);
      if PickPair(Run(members, before), pass.cutoff).Some? {
        PickTurns(Run(members, before), pass);
      }
    }
  }

  /** Which pair pick `k` takes is settled by the starting queue: it is the same in every run. */
  lemma {:induction false} PicksAreTurns(members: seq<NodeView>, passes: seq<Pass>, k: nat)
    requires UniqueNames(members) && |members| >= 2 && FreshStamps(members, passes)
    requires k < |Picks(members, passes)|
    ensures Picks(members, passes)[k] == Front(Turns(NameQueue(members), k))
  {
    hide NameQueue, Turn, Step, Newer, PickPair, Turns;
    var before, pass := passes[..|passes| - 1], passes[|passes| - 1];
    PickJoins(members, passes);
    if k < |Picks(members, before)| {
      PicksAreTurns(members, before, k);
    } else {
      RunKeepsNames(members, before);
      NamesAfterRun(members, before);
      PickTurns(Run(members, before), pass);
    }
  }

  // Which racks reach every pair

  /** The pairs of a rack. */
  ghost predicate IsPairOf(members: seq<NodeView>, pair: set<string>) {
    exists a, b :: a in Names(members) && b in Names(members) && a != b && pair == {a, b}
  }

  /** Some pair of the rack is probed in no run at all. */
  ghost predicate MissesSomePair(start: seq<NodeView>) {
    exists pair :: IsPairOf(start, pair)
      && forall passes | FreshStamps(start, passes) :: pair !in Picks(start, passes)
  }

  /** Every pair of the rack is probed in every run of at least three picks. */
  ghost predicate ReachesEveryPair(start: seq<NodeView>) {
    forall passes, pair | FreshStamps(start, passes) && |Picks(start, passes)| >= 3 && IsPairOf(start, pair) ::
      pair in Picks(start, passes)
  }

  lemma QueueNames(start: seq<NodeView>)
    requires UniqueNames(start)
    ensures Distinct(NameQueue(start)) && forall v :: v in NameQueue(start) <==> v in Names(start)
  {
    QueueIsStrict(start);
    SameElements(start, Queue(start));
    var q := Queue(start);
    assert forall i | 0 <= i < |q| :: NameQueue(start)[i] == q[i].name && q[i] in start;
    forall v | v in Names(start)
      ensures v in NameQueue(start)
    {
      var u :| u in start && u.name == v;
      var i :| 0 <= i < |q| && q[i] == u;
      assert NameQueue(start)[i] == v;
    }
  }

  lemma NeverPicked(start: seq<NodeView>, a: string, b: string)
    requires UniqueNames(start) && |start| >= 2 && a in Names(start) && b in Names(start) && a != b
    requires forall k: nat :: Front(Turns(NameQueue(start), k)) != {a, b}
    ensures MissesSomePair(start)
  {
    assert IsPairOf(start, {a, b});
    forall passes | FreshStamps(start, passes)
      ensures {a, b} !in Picks(start, passes)
    {
      forall k | 0 <= k < |Picks(start, passes)|
        ensures Picks(start, passes)[k] != {a, b}
      {
        PicksAreTurns(start, passes, k);
      }
    }
  }

  /** An even rack of four or more misses a pair: two nodes of different twos of its queue. */
  lemma EvenMisses(start: seq<NodeView>)
    requires UniqueNames(start) && |start| >= 4 && |start| % 2 == 0
    ensures MissesSomePair(start)
  {
    var q := NameQueue(start);
    QueueNames(start);
    assert q[0] in q && q[2] in q;
    assert IsPairOf(start, {q[0], q[2]});
    forall passes | FreshStamps(start, passes)
      ensures {q[0], q[2]} !in Picks(start, passes)
    {
      forall k | 0 <= k < |Picks(start, passes)|
        ensures Picks(start, passes)[k] != {q[0], q[2]}
      {
        PairingFreezes(start, passes, k);
        var j := Around(k, |start| / 2);
        assert Blocks(Queue(start))[j] == {q[2 * j], q[2 * j + 1]};
        assert q[if j == 0 then 2 else 0] !in {q[2 * j], q[2 * j + 1]};
      }
    }
  }

  /** The two largest names of any rack meet only if they are neighbours in the starting queue,
      taken in twos from the front. */
  lemma TopTwoNeverMeet(start: seq<NodeView>, passes: seq<Pass>, x: string, y: string)
    requires UniqueNames(start) && |start| >= 3 && FreshStamps(start, passes)
    requires TopTwo(NameQueue(start), x, y) && !Paired(NameQueue(start), x, y)
    ensures {x, y} !in Picks(start, passes)
  {
    var q := NameQueue(start);
    QueueNames(start);
    forall k | 0 <= k < |Picks(start, passes)|
      ensures Picks(start, passes)[k] != {x, y}
    {
      if |q| % 2 == 1 {
        PicksAreTurns(start, passes, k);
        TopTwoMeetEarly(q, |q| / 2, k, x, y);
      } else {
        PairingFreezes(start, passes, k);
        var j := Around(k, |start| / 2);
        assert Blocks(Queue(start))[j] == {q[2 * j], q[2 * j + 1]};
      }
    }
  }

  /** An odd rack misses a pair, unless it is one of the reaching racks of three. */
  lemma OddMisses(start: seq<NodeView>)
    requires UniqueNames(start) && |start| >= 3 && |start| % 2 == 1 && !Reaching(NameQueue(start))
    ensures MissesSomePair(start)
  {
    hide NameQueue, Turns, Front, Picks, FreshStamps, Reaching, Paired;
    var q, m := NameQueue(start), |start| / 2;
    var x, y, z := LargestThree(start);
    if !Paired(q, x, y) {
      assert IsPairOf(start, {x, y});
      forall passes | FreshStamps(start, passes)
        ensures {x, y} !in Picks(start, passes)
      {
        TopTwoNeverMeet(start, passes, x, y);
      }
    } else {
      if m == 1 {
        LastIsLeast(q, x, y, z);
      }
      forall k: nat
        ensures Front(Turns(q, k)) != {x, z}
      {
        FirstAndThirdNeverMeet(q, m, k, x, y, z);
      }
      NeverPicked(start, x, z);
    }
  }

  lemma LargestThree(start: seq<NodeView>) returns (x: string, y: string, z: string)
    requires UniqueNames(start) && |start| >= 3
    ensures TopThree(NameQueue(start), x, y, z) && Distinct(NameQueue(start))
    ensures x in Names(start) && y in Names(start) && z in Names(start) && x != y && x != z
  {
    hide NameQueue, Names;
    var names := Names(start);
    QueueNames(start);
    NamesCount(start);
    x := Greatest(names);
    assert |names - {x}| == |names| - 1;
    y := Greatest(names - {x});
    assert |names - {x} - {y}| == |names| - 2;
    z := Greatest(names - {x} - {y});
  }

  lemma ReachingReaches(start: seq<NodeView>)
    requires UniqueNames(start) && |start| >= 2 && Reaching(NameQueue(start))
    ensures ReachesEveryPair(start)
  {
    hide NameQueue, Reaching, FreshStamps, Picks, Names, Turns, Front;
    var q := NameQueue(start);
    QueueNames(start);
    forall passes, pair | FreshStamps(start, passes) && |Picks(start, passes)| >= 3 && IsPairOf(start, pair)
      ensures pair in Picks(start, passes)
    {
      var a, b :| a in Names(start) && b in Names(start) && a != b && pair == {a, b};
      PicksAreTurns(start, passes, 0);
      PicksAreTurns(start, passes, 1);
      PicksAreTurns(start, passes, 2);
      FirstThree(q, a, b);
    }
  }

  /** Pair coverage, decided for every history of stamps: a rack of two, and a rack of three whose
      least name stands last, reach every pair within three picks; in any other rack some
      pair is probed in no run, however long. */
  lemma PairCoverageExactly(start: seq<NodeView>)
    requires UniqueNames(start) && |start| >= 2
    ensures ReachesEveryPair(start) <==> Reaching(NameQueue(start))
    ensures MissesSomePair(start) <==> !Reaching(NameQueue(start))
  {
    hide Reaching, NameQueue, FreshStamps, Picks;
    var run := RunOfPicks(start, 3);
    if Reaching(NameQueue(start)) {
      ReachingReaches(start);
    } else if |start| % 2 == 1 {
      OddMisses(start);
    } else {
      if |start| == 2 {
        TwoReach(NameQueue(start));
      }
      EvenMisses(start);
    }
  }

  /** The same nodes, with any stamps. */
  ghost predicate SameNodes(a: seq<NodeView>, b: seq<NodeView>) {
    |a| == |b| && forall i | 0 <= i < |a| :: a[i].name == b[i].name
  }

  /** Full pair coverage, from every history of stamps, is exactly the racks of two; a rack of
      three or more that was never probed already misses a pair. */
  lemma PairCoverageExactlyForTwo(byName: seq<NodeView>)
    requires |byName| >= 2 && StrictlySorted(byName, NameBefore)
    ensures |byName| == 2 <==>
      forall start | SameNodes(start, byName) && UniqueNames(start) :: ReachesEveryPair(start)
    ensures |byName| >= 3 <==>
      exists start :: SameNodes(start, byName) && UniqueNames(start) && MissesSomePair(start)
  {
    hide ReachesEveryPair, MissesSomePair;
    var unprobed := NeverProbed(byName);
    NeverProbedQueue(byName);
    PairCoverageExactly(unprobed);
    forall start | SameNodes(start, byName) && UniqueNames(start) && |byName| == 2
      ensures ReachesEveryPair(start) && !MissesSomePair(start)
    {
      PairCoverageExactly(start);
    }
    assert SameNodes(unprobed, byName);
  }

  function NeverProbed(byName: seq<NodeView>): seq<NodeView> {
    seq(|byName|, i requires 0 <= i < |byName| => byName[i].(lastAt := None))
  }

  lemma NeverProbedQueue(byName: seq<NodeView>)
    requires |byName| >= 2 && StrictlySorted(byName, NameBefore)
    ensures UniqueNames(NeverProbed(byName))
    ensures |byName| >= 3 ==> !Reaching(NameQueue(NeverProbed(byName)))
  {
    var unprobed := NeverProbed(byName);
    forall i, j | 0 <= i < j < |unprobed|
      ensures unprobed[i].name != unprobed[j].name && LruBefore(unprobed[i], unprobed[j])
    {
      assert NameBefore(byName[i], byName[j]);
      LessAsymmetric(byName[i].name, byName[j].name);
    }
    LruOrder();
    SortSorts(unprobed, LruBefore);
    StrictlySortedUnique(unprobed, Queue(unprobed), LruBefore);
    if |byName| == 3 {
      assert NameBefore(byName[0], byName[2]);
      LessAsymmetric(byName[0].name, byName[2].name);
    }
  }

  // Runs exist

  lemma NewStampPicks(start: seq<NodeView>, stamp: string)
    requires UniqueNames(start) && |start| >= 2 && Newer(start, stamp)
    ensures PickPair(start, stamp).Some?
  {
    PickPairMeaning(start, stamp);
    assert start[0] in start;
    if ProbedSince(start[0], stamp) {
      LessAsymmetric(start[0].lastAt.value, stamp);
    }
  }

  /** From any stamps there are runs of any number of picks: each pass with a new stamp and a
      later cutoff. */
  lemma {:induction false} RunOfPicks(start: seq<NodeView>, k: nat) returns (passes: seq<Pass>)
    requires UniqueNames(start) && |start| >= 2
    ensures FreshStamps(start, passes) && |Picks(start, passes)| == k
  {
    hide NameQueue, PickPair, Step;
    passes := [];
    if k > 0 {
      var before := RunOfPicks(start, k - 1);
      RunKeepsNames(start, before);
      var stamp := NewerStamp(Run(start, before));
      passes := before + [Pass(stamp, stamp)];
      assert passes[..|passes| - 1] == before;
      NewStampPicks(Run(start, before), stamp);
      PickJoins(start, passes);
    }
  }

  lemma {:induction false} NewerStamp(members: seq<NodeView>) returns (stamp: string)
    ensures Newer(members, stamp)
  {
    if members == [] {
      stamp := "";
    } else {
      var s := NewerStamp(members[1..]);
      var t := members[0].lastAt;
      assert members == [members[0]] + members[1..];
      if t.None? {
        stamp := s;
      } else {
        stamp := if Less(s, t.value) then t.value + "0" else s + "0";
        Extends(t.value);
        Extends(s);
        forall v | v in members && v.lastAt.Some?
          ensures Less(v.lastAt.value, stamp)
        {
          var u := v.lastAt.value;
          if v != members[0] {
            assert Less(u, s);
          }
          if Less(u, s) {
            if Less(s, t.value) { LessTransitive(u, s, t.value); LessTransitive(u, t.value, stamp); }
            else { LessTransitive(u, s, stamp); }
          } else if !Less(s, t.value) && t.value != s {
            LessConnected(s, t.value);
          }
        }
      }
    }
  }

  lemma {:induction false} Extends(s: string)
    ensures Less(s, s + "0")
  {
    if s != [] {
      assert (s + "0")[1..] == s[1..] + "0";
      Extends(s[1..]);
    }
  }
}
