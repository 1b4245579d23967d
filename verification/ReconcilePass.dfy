/** One reconcile pass as a step protocol: the main loop takes a permit per rack and spawns a
    task, tasks finish in any order and give their permit back, and the pass ends by joining all
    of them.  The next pass starts only after this one has ended. */
module ReconcilePass {
  import opened Text
  import opened Sorting
  import opened Pairing

  datatype Target = PairOf(server: NodeView, client: NodeView) | LoopbackOn(node: NodeView)

  datatype Task = Task(rack: string, target: Target)

  function TargetOf(members: seq<NodeView>, cutoff: string): Option<Target> {
    match PickPair(members, cutoff)
    case Some((a, b)) => Some(PairOf(a, b))
    case None =>
      match PickLoopback(members, cutoff)
      case Some(node) => Some(LoopbackOn(node))
      case None => None
  }

  /** A rack of two or more with a member overdue by its rack stamp, or of one overdue by its
      loopback stamp. */
  ghost predicate Due(members: seq<NodeView>, cutoff: string) {
    || (|members| >= 2 && exists v :: v in members && (v.lastAt.None? || Less(v.lastAt.value, cutoff)))
    || (|members| == 1 && (members[0].lastLoopbackAt.None? || Less(members[0].lastLoopbackAt.value, cutoff)))
  }

  /** A target fits its rack: the pair is led by a least recently probed member, and a loopback is
      the one member's own. */
  ghost predicate Fits(t: Target, members: seq<NodeView>) {
    match t
    case PairOf(a, b) =>
      && |members| >= 2 && a in members && b in members
      && !LruBefore(b, a) && forall v | v in members && v != a && v != b :: !LruBefore(v, b)
    case LoopbackOn(v) => members == [v]
  }

  lemma TargetMeaning(members: seq<NodeView>, cutoff: string)
    ensures TargetOf(members, cutoff).Some? <==> Due(members, cutoff)
    ensures TargetOf(members, cutoff).Some? ==> Fits(TargetOf(members, cutoff).value, members)
  {
    hide PickPair, PickLoopback, LruBefore;
    PairIsDue(members, cutoff);
    if |members| == 1 {
      assert members == [members[0]];
      PickLoopbackMeaning(members, cutoff, members[0]);
    }
    if PickLoopback(members, cutoff).Some? {
      PickLoopbackMeaning(members, cutoff, PickLoopback(members, cutoff).value);
    }
  }

  function NodesOf(t: Target): set<string> {
    match t
    case PairOf(a, b) => {a.name, b.name}
    case LoopbackOn(n) => {n.name}
  }

  /** What a pass works on: all the racks in map order, their members, the cutoff and the permits. */
  datatype Config = Config(order: seq<string>, racks: map<string, seq<NodeView>>, cutoff: string, permits: nat) {
    predicate Valid() {
      && (forall rack | rack in order :: rack in racks) && (forall rack | rack in racks :: rack in order)
      && (forall i, j | 0 <= i < j < |order| :: order[i] != order[j])
    }
  }

  /** The tasks due for the first `k` racks, in order. */
  function Plan(c: Config, k: nat): seq<Task>
    requires c.Valid() && k <= |c.order|
  {
    if k == 0 then []
    else
      var rack := c.order[k - 1];
      var target := TargetOf(c.racks[rack], c.cutoff);
      Plan(c, k - 1) + if target.Some? then [Task(rack, target.value)] else []
  }

  datatype Main = Choosing | Holding(task: Task) | Joining(joined: nat) | Ended

  datatype State = State(passed: nat, main: Main, free: nat, live: set<Task>, started: seq<Task>)

  function Start(c: Config): State {
    State(0, Choosing, c.permits, {}, [])
  }

  /** What the next rack gives to do. */
  function NextTarget(c: Config, s: State): Option<Target>
    requires c.Valid() && s.passed < |c.order|
  {
    TargetOf(c.racks[c.order[s.passed]], c.cutoff)
  }

  predicate SkipRack(c: Config, s: State, t: State) {
    && s.main.Choosing? && c.Valid() && s.passed < |c.order|
    && NextTarget(c, s).None?
    && t == s.(passed := s.passed + 1)
  }

  predicate Acquire(c: Config, s: State, t: State) {
    && s.main.Choosing? && c.Valid() && s.passed < |c.order| && s.free > 0
    && NextTarget(c, s).Some?
    && t == s.(passed := s.passed + 1, free := s.free - 1,
               main := Holding(Task(c.order[s.passed], NextTarget(c, s).value)))
  }

  predicate Spawn(s: State, t: State) {
    && s.main.Holding?
    && t == s.(main := Choosing, live := s.live + {s.main.task}, started := s.started + [s.main.task])
  }

  predicate Finish(s: State, t: State, task: Task) {
    task in s.live && t == s.(live := s.live - {task}, free := s.free + 1)
  }

  predicate StartJoin(c: Config, s: State, t: State) {
    s.main.Choosing? && s.passed == |c.order| && t == s.(main := Joining(0))
  }

  predicate Join(s: State, t: State) {
    && s.main.Joining? && s.main.joined < |s.started| && s.started[s.main.joined] !in s.live
    && t == s.(main := Joining(s.main.joined + 1))
  }

  predicate End(s: State, t: State) {
    s.main.Joining? && s.main.joined == |s.started| && t == s.(main := Ended)
  }

  ghost predicate Step(c: Config, s: State, t: State) {
    || SkipRack(c, s, t) || Acquire(c, s, t) || Spawn(s, t)
    || (exists task :: Finish(s, t, task))
    || StartJoin(c, s, t) || Join(s, t) || End(s, t)
  }

  function Held(s: State): seq<Task> {
    if s.main.Holding? then [s.main.task] else []
  }

  ghost predicate Inv(c: Config, s: State) {
    && c.Valid()
    // every permit is free, held by a live task, or just acquired
    && s.free + |s.live| + |Held(s)| == c.permits
    // the racks passed so far have been given their tasks, in order
    && s.passed <= |c.order| && s.started + Held(s) == Plan(c, s.passed)
    // live tasks were started, and those joined are no longer live
    && (forall task | task in s.live :: task in s.started)
    && (s.main.Joining? ==>
          s.passed == |c.order| && s.main.joined <= |s.started|
          && forall i | 0 <= i < s.main.joined :: s.started[i] !in s.live)
    && (s.main.Ended? ==> s.passed == |c.order| && s.live == {})
  }

  lemma {:induction false} PlanTasks(c: Config, k: nat)
    requires c.Valid() && k <= |c.order|
    ensures |Plan(c, k)| <= k
    ensures forall task | task in Plan(c, k) ::
      task.rack in c.order[..k] && TargetOf(c.racks[task.rack], c.cutoff) == Some(task.target)
    ensures forall rack | rack in c.order[..k] && TargetOf(c.racks[rack], c.cutoff).Some? ::
      Task(rack, TargetOf(c.racks[rack], c.cutoff).value) in Plan(c, k)
    ensures forall i, j | 0 <= i < j < |Plan(c, k)| :: Plan(c, k)[i].rack != Plan(c, k)[j].rack
  {
    if k > 0 {
      PlanTasks(c, k - 1);
      assert c.order[..k] == c.order[..k - 1] + [c.order[k - 1]];
    }
  }

  lemma StartInv(c: Config)
    requires c.Valid()
    ensures Inv(c, Start(c))
  {
  }

  lemma SkipKeeps(c: Config, s: State, t: State)
    requires Inv(c, s) && SkipRack(c, s, t)
    ensures Inv(c, t)
  {
    hide TargetOf;
  }

  lemma AcquireKeeps(c: Config, s: State, t: State)
    requires Inv(c, s) && Acquire(c, s, t)
    ensures Inv(c, t)
  {
    hide TargetOf;
  }

  /** A task about to be spawned is not live yet: its rack has had no task before. */
  lemma SpawnIsNew(c: Config, s: State)
    requires Inv(c, s) && s.main.Holding?
    ensures s.main.task !in s.started && s.main.task !in s.live
  {
    hide TargetOf, Plan;
    var plan := Plan(c, s.passed);
    PlanTasks(c, s.passed);
    assert plan == s.started + [s.main.task];
    assert forall i | 0 <= i < |s.started| :: plan[i] == s.started[i] && plan[i] != plan[|s.started|];
  }

  lemma SpawnKeeps(c: Config, s: State, t: State)
    requires Inv(c, s) && Spawn(s, t)
    ensures Inv(c, t)
  {
    hide TargetOf, Plan;
    SpawnIsNew(c, s);
    assert t.started + Held(t) == s.started + Held(s);
  }

  lemma FinishKeeps(c: Config, s: State, t: State, task: Task)
    requires Inv(c, s) && Finish(s, t, task)
    ensures Inv(c, t) && |t.live| == |s.live| - 1
  {
  }

  lemma EndKeeps(c: Config, s: State, t: State)
    requires Inv(c, s) && End(s, t)
    ensures Inv(c, t)
  {
    hide TargetOf, Plan;
    assert forall task | task in s.live :: task in s.started;
  }

  lemma JoinKeeps(c: Config, s: State, t: State)
    requires Inv(c, s) && (StartJoin(c, s, t) || Join(s, t))
    ensures Inv(c, t)
  {
    hide TargetOf, Plan;
  }

  lemma StepInv(c: Config, s: State, t: State)
    requires Inv(c, s) && Step(c, s, t)
    ensures Inv(c, t)
  {
    hide Inv, SkipRack, Acquire, Spawn, Finish, StartJoin, Join, End;
    if SkipRack(c, s, t) {
      SkipKeeps(c, s, t);
    } else if Acquire(c, s, t) {
      AcquireKeeps(c, s, t);
    } else if Spawn(s, t) {
      SpawnKeeps(c, s, t);
    } else if exists task :: Finish(s, t, task) {
      var task :| Finish(s, t, task);
      FinishKeeps(c, s, t, task);
    } else if End(s, t) {
      EndKeeps(c, s, t);
    } else {
      JoinKeeps(c, s, t);
    }
  }

  // Runs

  ghost predicate IsRun(c: Config, states: seq<State>) {
    && c.Valid() && states != [] && states[0] == Start(c)
    && forall i | 0 <= i < |states| - 1 :: Step(c, states[i], states[i + 1])
  }

  lemma {:induction false} RunInv(c: Config, states: seq<State>, k: nat)
    requires IsRun(c, states) && k < |states|
    ensures Inv(c, states[k])
  {
    hide Inv, Step;
    if k == 0 {
      StartInv(c);
    } else {
      RunInv(c, states, k - 1);
      StepInv(c, states[k - 1], states[k]);
    }
  }

  /** Racks as the prober groups them: a node is a member of one rack only. */
  ghost predicate FromViews(c: Config, views: seq<NodeView>) {
    UniqueNames(views) && c.racks == Grouped(views)
  }

  lemma TargetNodes(members: seq<NodeView>, cutoff: string)
    requires UniqueNames(members) && TargetOf(members, cutoff).Some?
    ensures var t := TargetOf(members, cutoff).value;
      && (forall name | name in NodesOf(t) :: exists v :: v in members && v.name == name)
      && |NodesOf(t)| == (if t.PairOf? then 2 else 1)
      && (t.LoopbackOn? <==> |members| == 1)
  {
    hide PickPair, LruBefore, ProbedSince;
    PickPairMeaning(members, cutoff);
  }

  /** The nodes a task probes belong to its own rack. */
  lemma NodeOfTask(c: Config, views: seq<NodeView>, task: Task, name: string) returns (v: NodeView)
    requires c.Valid() && FromViews(c, views) && task.rack in c.racks
    requires TargetOf(c.racks[task.rack], c.cutoff) == Some(task.target) && name in NodesOf(task.target)
    ensures v in views && v.name == name && v.rack == task.rack
  {
    hide TargetOf, NodesOf, Grouped;
    GroupsPartition(views);
    TargetNodes(c.racks[task.rack], c.cutoff);
    v :| v in c.racks[task.rack] && v.name == name;
  }

  lemma SharedNodeSameRack(c: Config, views: seq<NodeView>, a: Task, b: Task, name: string)
    requires c.Valid() && FromViews(c, views) && a.rack in c.racks && b.rack in c.racks
    requires TargetOf(c.racks[a.rack], c.cutoff) == Some(a.target) && name in NodesOf(a.target)
    requires TargetOf(c.racks[b.rack], c.cutoff) == Some(b.target) && name in NodesOf(b.target)
    ensures a == b
  {
    hide TargetOf, NodesOf, Grouped;
    var u := NodeOfTask(c, views, a, name);
    var v := NodeOfTask(c, views, b, name);
    assert u == v;
  }

  /** Two tasks that share a node are the same task. */
  lemma TasksShareNoNode(c: Config, views: seq<NodeView>, a: Task, b: Task)
    requires c.Valid() && FromViews(c, views)
    requires a in Plan(c, |c.order|) && b in Plan(c, |c.order|) && a != b
    ensures NodesOf(a.target) !! NodesOf(b.target)
  {
    hide TargetOf, NodesOf, FromViews, Plan;
    PlanTasks(c, |c.order|);
    forall name | name in NodesOf(a.target) && name in NodesOf(b.target)
      ensures false
    {
      SharedNodeSameRack(c, views, a, b, name);
    }
  }

  lemma {:induction false} PlanPrefix(c: Config, k: nat)
    requires c.Valid() && k <= |c.order|
    ensures Plan(c, k) <= Plan(c, |c.order|)
    decreases |c.order| - k
  {
    if k < |c.order| {
      PlanPrefix(c, k + 1);
    }
  }

  /** In every state of every interleaving: permits are conserved, no more probes run than there
      are permits, and no node takes part in two probes at once. */
  lemma PassIsSafe(c: Config, views: seq<NodeView>, states: seq<State>, k: nat)
    requires IsRun(c, states) && k < |states| && FromViews(c, views)
    ensures var s := states[k];
      && s.free + |s.live| + |Held(s)| == c.permits
      && |s.live| <= c.permits
      && forall a, b | a in s.live && b in s.live && a != b :: NodesOf(a.target) !! NodesOf(b.target)
  {
    hide TargetOf, NodesOf, FromViews, Plan, Step;
    RunInv(c, states, k);
    var s := states[k];
    PlanPrefix(c, s.passed);
    assert forall task | task in s.live :: task in Plan(c, s.passed);
    forall a, b | a in s.live && b in s.live && a != b
      ensures NodesOf(a.target) !! NodesOf(b.target)
    {
      TasksShareNoNode(c, views, a, b);
    }
  }

  /** A pass that has ended has given exactly one task to every rack that was due and none to any
      other: a pair where two or more share the rack and one of them was overdue, a loopback where
      a lone node was.  It has no task live and holds all its permits again. */
  lemma EndedPassIsComplete(c: Config, states: seq<State>, k: nat)
    requires IsRun(c, states) && k < |states| && states[k].main.Ended?
    ensures var s := states[k];
      && s.live == {} && s.free == c.permits
      && (forall task | task in s.started ::
            && task.rack in c.racks && TargetOf(c.racks[task.rack], c.cutoff) == Some(task.target)
            && Fits(task.target, c.racks[task.rack]))
      && (forall rack | rack in c.racks ::
            Due(c.racks[rack], c.cutoff) <==> exists i :: 0 <= i < |s.started| && s.started[i].rack == rack)
      && (forall i, j | 0 <= i < j < |s.started| :: s.started[i].rack != s.started[j].rack)
  {
    hide TargetOf, Plan, Step, Due, Fits;
    RunInv(c, states, k);
    var s := states[k];
    assert c.order[..|c.order|] == c.order;
    assert s.started == Plan(c, |c.order|);
    PlanTasks(c, |c.order|);
    forall rack | rack in c.racks
      ensures Due(c.racks[rack], c.cutoff) <==> exists i :: 0 <= i < |s.started| && s.started[i].rack == rack
    {
      TargetMeaning(c.racks[rack], c.cutoff);
      if Due(c.racks[rack], c.cutoff) {
        assert Task(rack, TargetOf(c.racks[rack], c.cutoff).value) in s.started;
      } else {
        assert forall i | 0 <= i < |s.started| :: s.started[i] in s.started;
      }
    }
    forall task | task in s.started
      ensures Fits(task.target, c.racks[task.rack])
    {
      TargetMeaning(c.racks[task.rack], c.cutoff);
    }
  }

  // Progress

  /** How many more steps a state can take at most. */
  function Remaining(c: Config, s: State): int {
    5 * (|c.order| - s.passed) + 3 * |Held(s)| + |s.live|
    + match s.main
      case Choosing => |c.order| + 2
      case Holding(_) => |c.order| + 2
      case Joining(joined) => |s.started| - joined + 1
      case Ended => 0
  }

  lemma StepsRunDown(c: Config, s: State, t: State)
    requires Inv(c, s) && Step(c, s, t)
    ensures Remaining(c, t) < Remaining(c, s)
  {
    hide TargetOf, Plan;
    if Spawn(s, t) {
      SpawnIsNew(c, s);
    } else if StartJoin(c, s, t) {
      PlanTasks(c, |c.order|);
      assert c.order[..|c.order|] == c.order;
    } else if exists task :: Finish(s, t, task) {
      var task :| Finish(s, t, task);
      FinishKeeps(c, s, t, task);
    }
  }

  lemma RemainingIsNatural(c: Config, s: State)
    requires Inv(c, s)
    ensures Remaining(c, s) >= 0
  {
  }

  lemma {:induction false} RunsAreBounded(c: Config, states: seq<State>, k: nat)
    requires IsRun(c, states) && k < |states|
    ensures k + Remaining(c, states[k]) <= 6 * |c.order| + 2
    ensures k <= 6 * |c.order| + 2
  {
    hide Inv, Step;
    if k > 0 {
      hide Remaining;
      RunsAreBounded(c, states, k - 1);
      RunInv(c, states, k - 1);
      StepsRunDown(c, states[k - 1], states[k]);
    }
    RunInv(c, states, k);
    RemainingIsNatural(c, states[k]);
  }

  /** A state is stuck only when every permit is gone with no task left to return one: with at
      least one permit, every state short of the end has a next step. */
  lemma NeverStuck(c: Config, s: State) returns (t: State)
    requires Inv(c, s) && !s.main.Ended? && c.permits > 0
    ensures Step(c, s, t)
  {
    hide TargetOf, Plan;
    match s.main {
      case Holding(task) => t := s.(main := Choosing, live := s.live + {task}, started := s.started + [task]);
      case Choosing =>
        if s.passed == |c.order| {
          t := s.(main := Joining(0));
        } else {
          var target := NextTarget(c, s);
          if target.None? {
            t := s.(passed := s.passed + 1);
          } else if s.free > 0 {
            t := s.(passed := s.passed + 1, free := s.free - 1, main := Holding(Task(c.order[s.passed], target.value)));
          } else {
            t := FinishOne(s);
          }
        }
      case Joining(joined) =>
        if joined == |s.started| {
          t := s.(main := Ended);
        } else if s.started[joined] in s.live {
          t := s.(live := s.live - {s.started[joined]}, free := s.free + 1);
          assert Finish(s, t, s.started[joined]);
        } else {
          t := s.(main := Joining(joined + 1));
        }
    }
  }

  lemma FinishOne(s: State) returns (t: State)
    requires s.live != {}
    ensures exists task :: Finish(s, t, task)
  {
    var task :| task in s.live;
    t := s.(live := s.live - {task}, free := s.free + 1);
    assert Finish(s, t, task);
  }

  lemma ExtendRun(c: Config, states: seq<State>, t: State)
    requires IsRun(c, states) && Step(c, states[|states| - 1], t)
    ensures IsRun(c, states + [t])
  {
  }

  /** Every run can be continued to the end of the pass. */
  lemma {:induction false} RunOn(c: Config, states: seq<State>) returns (all: seq<State>)
    requires IsRun(c, states) && c.permits > 0
    ensures IsRun(c, all) && states <= all && all[|all| - 1].main.Ended?
    decreases 6 * |c.order| + 3 - |states|
  {
    hide Inv, Step;
    var k := |states| - 1;
    RunInv(c, states, k);
    RunsAreBounded(c, states, k);
    if states[k].main.Ended? {
      all := states;
    } else {
      var t := NeverStuck(c, states[k]);
      ExtendRun(c, states, t);
      RunsAreBounded(c, states + [t], k + 1);
      all := RunOn(c, states + [t]);
    }
  }

  /** Without permits nothing is ever started. */
  lemma NoPermits(c: Config, s: State, t: State)
    requires Inv(c, s) && Inv(c, t) && c.permits == 0 && s.started == [] && Step(c, s, t)
    ensures t.started == []
  {
  }

  lemma {:induction false} NoPermitsNoTask(c: Config, states: seq<State>, k: nat)
    requires IsRun(c, states) && k < |states| && c.permits == 0
    ensures states[k].started == []
  {
    hide Inv, Step;
    if k > 0 {
      NoPermitsNoTask(c, states, k - 1);
      RunInv(c, states, k - 1);
      RunInv(c, states, k);
      NoPermits(c, states[k - 1], states[k]);
    }
  }

  ghost predicate CanEnd(c: Config) {
    exists states: seq<State> :: IsRun(c, states) && states[|states| - 1].main.Ended?
  }

  /** A pass can end exactly when it has a permit or nothing to do. */
  lemma PassCanEnd(c: Config)
    requires c.Valid()
    ensures CanEnd(c) <==> c.permits > 0 || Plan(c, |c.order|) == []
  {
    hide TargetOf, Plan, Step;
    assert c.order[..|c.order|] == c.order;
    if c.permits > 0 {
      assert IsRun(c, [Start(c)]);
      var all := RunOn(c, [Start(c)]);
    } else if Plan(c, |c.order|) == [] {
      var all := IdleRunEnds(c);
    } else {
      forall states: seq<State> | IsRun(c, states)
        ensures !states[|states| - 1].main.Ended?
      {
        NoPermitsNoTask(c, states, |states| - 1);
        RunInv(c, states, |states| - 1);
      }
    }
  }

  lemma IdleRunEnds(c: Config) returns (states: seq<State>)
    requires c.Valid() && Plan(c, |c.order|) == []
    ensures IsRun(c, states) && states[|states| - 1].main.Ended?
  {
    hide TargetOf, Plan;
    var idle := IdleRun(c, |c.order|);
    var s := idle[|idle| - 1];
    var t := s.(main := Joining(0));
    var done := t.(main := Ended);
    assert StartJoin(c, s, t) && End(t, done);
    ExtendRun(c, idle, t);
    ExtendRun(c, idle + [t], done);
    states := idle + [t] + [done];
  }

  lemma {:induction false} IdleRun(c: Config, k: nat) returns (states: seq<State>)
    requires c.Valid() && k <= |c.order| && Plan(c, |c.order|) == []
    ensures IsRun(c, states) && states[|states| - 1] == Start(c).(passed := k)
  {
    hide TargetOf;
    if k == 0 {
      states := [Start(c)];
    } else {
      var before := IdleRun(c, k - 1);
      var s := before[|before| - 1];
      var t := s.(passed := k);
      PlanPrefix(c, k);
      assert SkipRack(c, s, t);
      ExtendRun(c, before, t);
      states := before + [t];
    }
  }
}
