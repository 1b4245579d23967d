/** xGMI fabric groups: a graph search over the peer lists of the AMD cards. */
module Fabric {
  import opened Text
  import opened Sorting
  import opened Sensors

  type Graph = map<AcceleratorId, set<AcceleratorId>>

  // The graph

  /** `amd.iter().find(|p| p.id.pci_addr == addr)` */
  function FindPci(amd: seq<Accelerator>, addr: string): Option<AcceleratorId> {
    if amd == [] then None
    else if amd[0].id.pciAddr == addr then Some(amd[0].id)
    else FindPci(amd[1..], addr)
  }

  /** Card `a` lists the card `y`, directly. */
  ghost predicate Lists(amd: seq<Accelerator>, a: Accelerator, y: AcceleratorId) {
    exists addr :: addr in a.peers && FindPci(amd, addr) == Some(y)
  }

  /** One of two cards lists the other. */
  ghost predicate Linked(all: seq<Accelerator>, amd: seq<Accelerator>, x: AcceleratorId, y: AcceleratorId) {
    exists a :: a in amd && ((a.id == x && Lists(all, a, y)) || (a.id == y && Lists(all, a, x)))
  }

  ghost predicate DistinctCards(accels: seq<Accelerator>) {
    forall i, j | 0 <= i < j < |accels| ::
      accels[i].id != accels[j].id && accels[i].id.pciAddr != accels[j].id.pciAddr
  }

  lemma {:induction false} FindPciFinds(amd: seq<Accelerator>, addr: string)
    ensures FindPci(amd, addr).Some? ==>
      exists p :: p in amd && p.id == FindPci(amd, addr).value && p.id.pciAddr == addr
    ensures DistinctCards(amd) ==>
      forall p | p in amd && p.id.pciAddr == addr :: FindPci(amd, addr) == Some(p.id)
  {
    if amd != [] {
      FindPciFinds(amd[1..], addr);
      assert amd == [amd[0]] + amd[1..];
    }
  }

  /** With distinct addresses, being listed is having one's address in the list. */
  lemma ListsByAddress(amd: seq<Accelerator>, a: Accelerator, p: Accelerator)
    requires DistinctCards(amd) && a in amd && p in amd
    ensures Lists(amd, a, p.id) <==> p.id.pciAddr in a.peers
  {
    FindPciFinds(amd, p.id.pciAddr);
    if Lists(amd, a, p.id) {
      var addr :| addr in a.peers && FindPci(amd, addr) == Some(p.id);
      FindPciFinds(amd, addr);
    }
  }

  ghost predicate GraphOf(all: seq<Accelerator>, amd: seq<Accelerator>, g: Graph) {
    && (forall a | a in amd :: a.id in g)
    && (forall x | x in g :: exists a :: a in all && a.id == x)
    && (forall x, y :: (x in g && y in g[x]) <==> Linked(all, amd, x, y))
  }

  function Insert(g: Graph, x: AcceleratorId, y: AcceleratorId): Graph {
    g[x := (if x in g then g[x] else {}) + {y}]
  }

  /** A graph on the ids of `all` holding exactly the links found so far. */
  ghost predicate PartGraph(all: seq<Accelerator>, g: Graph, links: iset<(AcceleratorId, AcceleratorId)>) {
    && (forall x | x in g :: exists a :: a in all && a.id == x)
    && (forall x, y :: (x in g && y in g[x]) <==> (x, y) in links)
  }

  lemma InsertBoth(all: seq<Accelerator>, g: Graph, links: iset<(AcceleratorId, AcceleratorId)>,
                   x: AcceleratorId, y: AcceleratorId)
    requires PartGraph(all, g, links)
    requires (exists a :: a in all && a.id == x) && (exists a :: a in all && a.id == y)
    ensures PartGraph(all, Insert(Insert(g, x, y), y, x), links + iset{(x, y), (y, x)})
    ensures g.Keys <= Insert(Insert(g, x, y), y, x).Keys
  {
  }

  /** The links card `a` brings through its first `n` peers, both ways. */
  ghost function CardLinks(all: seq<Accelerator>, a: Accelerator, n: nat): iset<(AcceleratorId, AcceleratorId)>
    requires n <= |a.peers|
  {
    if n == 0 then iset{}
    else
      var p := FindPci(all, a.peers[n - 1]);
      CardLinks(all, a, n - 1) + if p.Some? then iset{(a.id, p.value), (p.value, a.id)} else iset{}
  }

  ghost function AllLinks(all: seq<Accelerator>, amd: seq<Accelerator>): iset<(AcceleratorId, AcceleratorId)> {
    if amd == [] then iset{}
    else
      var k := |amd| - 1;
      AllLinks(all, amd[..k]) + CardLinks(all, amd[k], |amd[k].peers|)
  }

  lemma {:induction false} CardLinksMeaning(all: seq<Accelerator>, a: Accelerator, n: nat)
    requires n <= |a.peers|
    ensures forall x, y :: (x, y) in CardLinks(all, a, n) <==>
      exists i :: 0 <= i < n && FindPci(all, a.peers[i]).Some?
        && var p := FindPci(all, a.peers[i]).value; ((x, y) == (a.id, p) || (x, y) == (p, a.id))
  {
    if n > 0 {
      CardLinksMeaning(all, a, n - 1);
    }
  }

  lemma CardLinksAreLists(all: seq<Accelerator>, a: Accelerator, x: AcceleratorId, y: AcceleratorId)
    ensures (x, y) in CardLinks(all, a, |a.peers|)
      <==> (a.id == x && Lists(all, a, y)) || (a.id == y && Lists(all, a, x))
  {
    CardLinksMeaning(all, a, |a.peers|);
    if a.id == x && Lists(all, a, y) {
      var addr :| addr in a.peers && FindPci(all, addr) == Some(y);
      var i :| 0 <= i < |a.peers| && a.peers[i] == addr;
    }
    if a.id == y && Lists(all, a, x) {
      var addr :| addr in a.peers && FindPci(all, addr) == Some(x);
      var i :| 0 <= i < |a.peers| && a.peers[i] == addr;
    }
  }

  lemma {:induction false} AllLinksAreLinked(all: seq<Accelerator>, amd: seq<Accelerator>, x: AcceleratorId, y: AcceleratorId)
    ensures (x, y) in AllLinks(all, amd) <==> Linked(all, amd, x, y)
  {
    if amd != [] {
      var k := |amd| - 1;
      AllLinksAreLinked(all, amd[..k], x, y);
      CardLinksAreLists(all, amd[k], x, y);
      assert amd == amd[..k] + [amd[k]];
    }
  }

  method AddCard(all: seq<Accelerator>, a: Accelerator, before: Graph, ghost links: iset<(AcceleratorId, AcceleratorId)>)
    returns (g: Graph)
    requires a in all && PartGraph(all, before, links)
    ensures PartGraph(all, g, links + CardLinks(all, a, |a.peers|))
    ensures before.Keys + {a.id} <= g.Keys
  {
    hide Insert, FindPci;
    g := before[a.id := if a.id in before then before[a.id] else {}];
    for i := 0 to |a.peers|
      invariant PartGraph(all, g, links + CardLinks(all, a, i))
      invariant before.Keys + {a.id} <= g.Keys
    {
      hide PartGraph;
      var p := FindPci(all, a.peers[i]);
      if p.Some? {
        FindPciFinds(all, a.peers[i]);
        InsertBoth(all, g, links + CardLinks(all, a, i), a.id, p.value);
        g := Insert(Insert(g, a.id, p.value), p.value, a.id);
        assert links + CardLinks(all, a, i + 1)
          == links + CardLinks(all, a, i) + iset{(a.id, p.value), (p.value, a.id)};
      } else {
        assert CardLinks(all, a, i + 1) == CardLinks(all, a, i);
      }
    }
  }

  method BuildAdjacency(amd: seq<Accelerator>) returns (g: Graph)
    ensures GraphOf(amd, amd, g)
  {
    g := map[];
    for i := 0 to |amd|
      invariant PartGraph(amd, g, AllLinks(amd, amd[..i]))
      invariant forall a | a in amd[..i] :: a.id in g
    {
      hide PartGraph, CardLinks;
      assert amd[..i + 1] == amd[..i] + [amd[i]];
      g := AddCard(amd, amd[i], g, AllLinks(amd, amd[..i]));
      assert amd[..i + 1][..i] == amd[..i];
    }
    assert amd[..|amd|] == amd;
    forall x, y
      ensures (x in g && y in g[x]) <==> Linked(amd, amd, x, y)
    {
      AllLinksAreLinked(amd, amd, x, y);
    }
  }

  // Components

  ghost predicate Symmetric(g: Graph) {
    forall x, y | x in g && y in g[x] :: y in g && x in g[y]
  }

  ghost predicate IsPath(g: Graph, path: seq<AcceleratorId>) {
    && path != []
    && (forall i | 0 <= i < |path| :: path[i] in g)
    && (forall i | 0 <= i < |path| - 1 :: path[i + 1] in g[path[i]])
  }

  ghost predicate Connected(g: Graph, x: AcceleratorId, y: AcceleratorId) {
    exists path :: IsPath(g, path) && path[0] == x && path[|path| - 1] == y
  }

  lemma GraphIsSymmetric(all: seq<Accelerator>, g: Graph)
    requires GraphOf(all, all, g)
    ensures Symmetric(g)
  {
    forall x, y | x in g && y in g[x]
      ensures y in g && x in g[y]
    {
      assert Linked(all, all, x, y);
      assert Linked(all, all, y, x);
    }
  }

  lemma ConnectedStep(g: Graph, x: AcceleratorId, y: AcceleratorId, z: AcceleratorId)
    requires Connected(g, x, y) && y in g && z in g[y] && z in g
    ensures Connected(g, x, z)
  {
    var path :| IsPath(g, path) && path[0] == x && path[|path| - 1] == y;
    var more := path + [z];
    assert IsPath(g, more) && more[0] == x && more[|more| - 1] == z;
  }

  /** What is closed under links holds of everything connected. */
  lemma {:induction false} ConnectedStays(g: Graph, closed: set<AcceleratorId>, path: seq<AcceleratorId>)
    requires IsPath(g, path) && path[0] in closed
    requires forall x, y | x in closed && x in g && y in g[x] :: y in closed
    ensures path[|path| - 1] in closed
  {
    if |path| > 1 {
      ConnectedStays(g, closed, path[..|path| - 1]);
    }
  }

  lemma ConnectedBack(g: Graph, x: AcceleratorId, y: AcceleratorId)
    requires Symmetric(g) && Connected(g, x, y)
    ensures Connected(g, y, x)
  {
    var path :| IsPath(g, path) && path[0] == x && path[|path| - 1] == y;
    var n := |path|;
    var back := seq(n, i requires 0 <= i < n => path[n - 1 - i]);
    forall i | 0 <= i < n - 1
      ensures back[i + 1] in g[back[i]]
    {
      var j := n - 2 - i;
      assert path[j + 1] in g[path[j]];
    }
    assert IsPath(g, back) && back[0] == y && back[n - 1] == x;
  }

  lemma ConnectedThrough(g: Graph, x: AcceleratorId, y: AcceleratorId, z: AcceleratorId)
    requires Connected(g, x, y) && Connected(g, y, z)
    ensures Connected(g, x, z)
  {
    var p :| IsPath(g, p) && p[0] == x && p[|p| - 1] == y;
    var q :| IsPath(g, q) && q[0] == y && q[|q| - 1] == z;
    var r := p + q[1..];
    forall i | 0 <= i < |r| - 1
      ensures r[i + 1] in g[r[i]]
    {
      if i >= |p| - 1 {
        assert r[i] == q[i - (|p| - 1)] && r[i + 1] == q[i - (|p| - 1) + 1];
      }
    }
    assert IsPath(g, r) && r[0] == x && r[|r| - 1] == z;
  }

  predicate PciBefore(a: AcceleratorId, b: AcceleratorId) {
    Less(a.pciAddr, b.pciAddr)
  }

  lemma PciOrder()
    ensures WeakOrder(PciBefore)
  {
    forall x: AcceleratorId, y: AcceleratorId | PciBefore(x, y)
      ensures !PciBefore(y, x)
    {
      LessAsymmetric(x.pciAddr, y.pciAddr);
    }
    forall x: AcceleratorId, y: AcceleratorId, z: AcceleratorId | !PciBefore(x, y) && !PciBefore(y, z)
      ensures !PciBefore(x, z)
    {
      NotLessTransitive(x.pciAddr, y.pciAddr, z.pciAddr);
    }
  }

  /** One component: all of it, once each, in address order. */
  ghost predicate IsComponent(g: Graph, group: seq<AcceleratorId>) {
    && group != [] && Distinct(group) && Sorted(group, PciBefore)
    && (forall x | x in group :: x in g && g[x] != {})
    && (forall x, y | x in group && y in g[x] :: y in group)
    && (forall x, y | x in group && y in group :: Connected(g, x, y))
  }

  /** The groups are the components with at least one link, each once. */
  ghost predicate AreComponents(g: Graph, groups: seq<seq<AcceleratorId>>) {
    && (forall group | group in groups :: IsComponent(g, group))
    && (forall i, j | 0 <= i < j < |groups| :: forall x | x in groups[i] :: x !in groups[j])
    && (forall x | x in g && g[x] != {} :: exists group :: group in groups && x in group)
  }

  function Elements<T>(s: seq<T>): set<T> {
    set x | x in s
  }

  ghost predicate ClosedSet(g: Graph, s: set<AcceleratorId>) {
    s <= g.Keys && forall x, y | x in s && y in g[x] :: y in s
  }

  /** The neighbours not visited yet, in some order. */
  method Unvisited(neighbours: set<AcceleratorId>, visited: set<AcceleratorId>) returns (r: seq<AcceleratorId>)
    ensures forall x :: x in r <==> x in neighbours && x !in visited
  {
    r := [];
    var todo := neighbours;
    while todo != {}
      invariant todo <= neighbours
      invariant forall x :: x in r <==> x in neighbours && x !in todo && x !in visited
      decreases |todo|
    {
      var x :| x in todo;
      if x !in visited {
        r := r + [x];
      }
      todo := todo - {x};
    }
  }

  /** What holds while a component is being collected from `start`. */
  ghost predicate Collecting(g: Graph, start: AcceleratorId, before: set<AcceleratorId>,
                             group: seq<AcceleratorId>, queue: seq<AcceleratorId>) {
    && Distinct(group)
    && (forall x | x in group || x in queue :: x in g && x !in before && g[x] != {} && Connected(g, start, x))
    && (forall x, y | x in group && y in g[x] :: y in group || y in queue)
    && (start in group || start in queue)
  }

  lemma CollectOne(g: Graph, start: AcceleratorId, before: set<AcceleratorId>,
                   group: seq<AcceleratorId>, queue: seq<AcceleratorId>, n: AcceleratorId, more: seq<AcceleratorId>)
    requires Symmetric(g) && ClosedSet(g, before)
    requires Collecting(g, start, before, group, queue + [n]) && n !in group
    requires forall x :: x in more <==> x in g[n] && x !in before + Elements(group) + {n}
    ensures Collecting(g, start, before, group + [n], queue + more)
  {
    forall x | x in more
      ensures x in g && x !in before && g[x] != {} && Connected(g, start, x)
    {
      assert n in queue + [n] && x in g[n];
      ConnectedStep(g, start, n, x);
    }
    forall x, y | x in group + [n] && y in g[x]
      ensures y in group + [n] || y in queue + more
    {
      if x in group {
        assert y in group || y in queue + [n];
      } else {
        assert n in queue + [n];
        assert y !in before;
        if y !in more {
          assert y in before + Elements(group) + {n};
        }
      }
    }
  }

  lemma SkipOne(g: Graph, start: AcceleratorId, before: set<AcceleratorId>,
                group: seq<AcceleratorId>, queue: seq<AcceleratorId>, n: AcceleratorId)
    requires Collecting(g, start, before, group, queue + [n]) && n in group
    ensures Collecting(g, start, before, group, queue)
  {
  }

  lemma CollectedIsComponent(g: Graph, start: AcceleratorId, before: set<AcceleratorId>, group: seq<AcceleratorId>)
    requires Symmetric(g) && ClosedSet(g, before) && Collecting(g, start, before, group, [])
    ensures var sorted := Sort(group, PciBefore);
      && IsComponent(g, sorted) && start in sorted
      && Elements(sorted) == Elements(group)
      && ClosedSet(g, before + Elements(sorted))
      && forall x | x in sorted :: x !in before
  {
    PciOrder();
    SortSorts(group, PciBefore);
    var sorted := Sort(group, PciBefore);
    SameElements(group, sorted);
    DistinctPermutation(group, sorted);
    forall x, y | x in sorted && y in sorted
      ensures Connected(g, x, y)
    {
      ConnectedBack(g, start, x);
      ConnectedThrough(g, x, start, y);
    }
  }

  lemma CollectFirst(g: Graph, start: AcceleratorId, before: set<AcceleratorId>)
    requires start in g && g[start] != {} && start !in before
    ensures Collecting(g, start, before, [], [start])
    ensures before == before + Elements<AcceleratorId>([])
  {
  }

  /** Depth-first search from one card; a card may be queued more than once. */
  method Collect(g: Graph, start: AcceleratorId, before: set<AcceleratorId>)
    returns (group: seq<AcceleratorId>, visited: set<AcceleratorId>)
    requires Symmetric(g) && ClosedSet(g, before)
    requires start in g && g[start] != {} && start !in before
    ensures IsComponent(g, group) && start in group
    ensures visited == before + Elements(group) && ClosedSet(g, visited)
    ensures forall x | x in group :: x !in before
  {
    hide *;
    group := [];
    visited := before;
    var queue := [start];
    CollectFirst(g, start, before);
    while queue != []
      invariant visited == before + Elements(group)
      invariant Collecting(g, start, before, group, queue)
      decreases |g.Keys - visited|, |queue|
    {
      var n := queue[|queue| - 1];
      assert queue == queue[..|queue| - 1] + [n];
      queue := queue[..|queue| - 1];
      PoppedIsNew(g, start, before, group, queue, n);
      if n in visited {
        SkipOne(g, start, before, group, queue, n);
      } else {
        Shrinks(g.Keys, visited, n);
        visited := visited + {n};
        var more := Unvisited(g[n], visited);
        CollectOne(g, start, before, group, queue, n, more);
        ElementsSnoc(group, n);
        group := group + [n];
        queue := queue + more;
      }
    }
    CollectedIsComponent(g, start, before, group);
    group := Sort(group, PciBefore);
  }

  lemma PoppedIsNew(g: Graph, start: AcceleratorId, before: set<AcceleratorId>,
                    group: seq<AcceleratorId>, rest: seq<AcceleratorId>, n: AcceleratorId)
    requires Collecting(g, start, before, group, rest + [n])
    ensures n in g && n !in before && (n in before + Elements(group) <==> n in group)
  {
  }

  lemma ElementsSnoc<T>(s: seq<T>, x: T)
    ensures Elements(s + [x]) == Elements(s) + {x}
  {
  }

  lemma Shrinks(all: set<AcceleratorId>, visited: set<AcceleratorId>, n: AcceleratorId)
    requires n in all && n !in visited
    ensures |all - (visited + {n})| < |all - visited|
  {
    assert all - visited == (all - (visited + {n})) + {n};
  }

  function Union(groups: seq<seq<AcceleratorId>>): set<AcceleratorId> {
    set group, x | group in groups && x in group :: x
  }

  /** The components, whatever order the adjacency map gives its keys in. */
  method Components(g: Graph) returns (groups: seq<seq<AcceleratorId>>)
    requires Symmetric(g)
    ensures AreComponents(g, groups)
  {
    groups := [];
    var visited: set<AcceleratorId> := {};
    var todo := g.Keys;
    while todo != {}
      invariant todo <= g.Keys && ClosedSet(g, visited)
      invariant visited == Union(groups)
      invariant Separate(g, groups)
      invariant forall x | x in g && x !in todo && g[x] != {} :: x in visited
      decreases |todo|
    {
      hide *;
      var start :| start in todo;
      todo := todo - {start};
      if start !in visited && g[start] != {} {
        var group;
        group, visited := Collect(g, start, visited);
        UnionSnoc(groups, group);
        OneMoreGroup(g, groups, group);
        groups := groups + [group];
      }
    }
  }

  /** Components found so far, none meeting another. */
  ghost predicate Separate(g: Graph, groups: seq<seq<AcceleratorId>>) {
    && (forall group | group in groups :: IsComponent(g, group))
    && (forall i, j | 0 <= i < j < |groups| :: forall x | x in groups[i] :: x !in groups[j])
  }

  lemma OneMoreGroup(g: Graph, groups: seq<seq<AcceleratorId>>, group: seq<AcceleratorId>)
    requires Separate(g, groups) && IsComponent(g, group)
    requires forall x | x in group :: x !in Union(groups)
    ensures Separate(g, groups + [group])
  {
  }

  lemma UnionSnoc(groups: seq<seq<AcceleratorId>>, group: seq<AcceleratorId>)
    ensures Union(groups + [group]) == Union(groups) + Elements(group)
  {
  }

  /** A component holds everything connected to any of its members. */
  lemma ComponentIsMaximal(g: Graph, group: seq<AcceleratorId>, x: AcceleratorId, y: AcceleratorId)
    requires IsComponent(g, group) && x in group && Connected(g, x, y)
    ensures y in group
  {
    var path :| IsPath(g, path) && path[0] == x && path[|path| - 1] == y;
    ConnectedStays(g, Elements(group), path);
  }

  ghost predicate DistinctAddresses(g: Graph) {
    forall x, y | x in g && y in g && x != y :: x.pciAddr != y.pciAddr
  }

  lemma ComponentsMeetEqual(g: Graph, a: seq<AcceleratorId>, b: seq<AcceleratorId>, x: AcceleratorId)
    requires DistinctAddresses(g) && IsComponent(g, a) && IsComponent(g, b) && x in a && x in b
    ensures a == b
  {
    forall y: AcceleratorId
      ensures y in a <==> y in b
    {
      if y in a { ComponentIsMaximal(g, b, x, y); }
      if y in b { ComponentIsMaximal(g, a, x, y); }
    }
    SameBag(a, b);
    forall i, j | 0 <= i < j < |a|
      ensures PciBefore(a[i], a[j])
    {
      assert a[i] in a && a[j] in a;
      LessConnected(a[i].pciAddr, a[j].pciAddr);
    }
    StrictlySortedUnique(a, b, PciBefore);
  }

  /** Any two runs of the search, over any key orders, find the same groups. */
  lemma GroupsIgnoreKeyOrder(g: Graph, a: seq<seq<AcceleratorId>>, b: seq<seq<AcceleratorId>>)
    requires DistinctAddresses(g) && AreComponents(g, a) && AreComponents(g, b)
    ensures forall group :: group in a <==> group in b
  {
    hide IsComponent;
    forall group: seq<AcceleratorId>
      ensures group in a ==> group in b
      ensures group in b ==> group in a
    {
      if group in a {
        OtherHasIt(g, group, b);
      }
      if group in b {
        OtherHasIt(g, group, a);
      }
    }
  }

  lemma OtherHasIt(g: Graph, group: seq<AcceleratorId>, groups: seq<seq<AcceleratorId>>)
    requires DistinctAddresses(g) && IsComponent(g, group) && AreComponents(g, groups)
    ensures group in groups
  {
    var x := group[0];
    assert x in group;
    var other :| other in groups && x in other;
    ComponentsMeetEqual(g, group, other, x);
  }

  /** The groups all have two members or more exactly when no card's only link is to itself. */
  lemma GroupsOfTwoExactly(g: Graph, groups: seq<seq<AcceleratorId>>)
    requires Symmetric(g) && AreComponents(g, groups)
    ensures (forall group | group in groups :: |group| >= 2) <==> (forall x | x in g :: g[x] != {x})
  {
    hide IsComponent;
    forall x | x in g && g[x] == {x}
      ensures exists group :: group in groups && |group| < 2
    {
      var group :| group in groups && x in group;
      LoneGroup(g, group, x);
    }
    forall group | group in groups && |group| < 2
      ensures exists x :: x in g && g[x] == {x}
    {
      LoneMember(g, group);
    }
  }

  lemma AllOne(group: seq<AcceleratorId>, x: AcceleratorId)
    requires group != [] && Distinct(group) && forall y | y in group :: y == x
    ensures group == [x]
  {
    var last := |group| - 1;
    assert group[0] in group && group[last] in group;
  }

  lemma LoneGroup(g: Graph, group: seq<AcceleratorId>, x: AcceleratorId)
    requires IsComponent(g, group) && x in group && g[x] == {x}
    ensures group == [x]
  {
    hide Connected;
    forall y | y in group
      ensures y == x
    {
      OnlyItself(g, x, y);
    }
    AllOne(group, x);
  }

  lemma LoneMember(g: Graph, group: seq<AcceleratorId>)
    requires IsComponent(g, group) && |group| < 2
    ensures group[0] in g && g[group[0]] == {group[0]}
  {
    hide Connected;
    var x := group[0];
    assert group == [x] && x in group;
    assert forall y | y in g[x] :: y in group;
    assert forall y | y in group :: y == x;
  }

  lemma OnlyItself(g: Graph, x: AcceleratorId, y: AcceleratorId)
    requires x in g && g[x] == {x}
    ensures Connected(g, x, y) ==> y == x
  {
    if Connected(g, x, y) {
      var path :| IsPath(g, path) && path[0] == x && path[|path| - 1] == y;
      ConnectedStays(g, {x}, path);
    }
  }

  function AmdCards(accels: seq<Accelerator>): seq<Accelerator> {
    if accels == [] then []
    else
      var k := |accels| - 1;
      AmdCards(accels[..k]) + if accels[k].id.vendor.Amd? then [accels[k]] else []
  }

  lemma {:induction false} AmdCardsMeaning(accels: seq<Accelerator>)
    ensures forall a :: a in AmdCards(accels) <==> a in accels && a.id.vendor.Amd?
    ensures DistinctCards(accels) ==> DistinctCards(AmdCards(accels))
  {
    if accels != [] {
      var k := |accels| - 1;
      AmdCardsMeaning(accels[..k]);
      assert accels == accels[..k] + [accels[k]];
    }
  }

  /** The graph of some cards: who is linked to whom. */
  ghost function CardGraph(amd: seq<Accelerator>): Graph {
    var ids := set a | a in amd :: a.id;
    map x | x in ids :: set y | y in ids && Linked(amd, amd, x, y)
  }

  lemma LinkedAreCards(amd: seq<Accelerator>, x: AcceleratorId, y: AcceleratorId)
    requires Linked(amd, amd, x, y)
    ensures exists a :: a in amd && a.id == x
    ensures exists a :: a in amd && a.id == y
  {
    var a :| a in amd && ((a.id == x && Lists(amd, a, y)) || (a.id == y && Lists(amd, a, x)));
    var other := if a.id == x && Lists(amd, a, y) then y else x;
    var addr :| addr in a.peers && FindPci(amd, addr) == Some(other);
    FindPciFinds(amd, addr);
  }

  lemma CardGraphIsGraph(amd: seq<Accelerator>)
    ensures GraphOf(amd, amd, CardGraph(amd))
  {
    hide Linked;
    forall x, y | Linked(amd, amd, x, y)
      ensures x in CardGraph(amd) && y in CardGraph(amd)[x]
    {
      LinkedAreCards(amd, x, y);
    }
  }

  lemma OneGraph(amd: seq<Accelerator>, g: Graph, h: Graph)
    requires GraphOf(amd, amd, g) && GraphOf(amd, amd, h)
    ensures g == h
  {
    hide Linked;
    assert g.Keys == h.Keys;
    forall x | x in g
      ensures g[x] == h[x]
    {
      assert forall y :: y in g[x] <==> Linked(amd, amd, x, y);
      assert forall y :: y in h[x] <==> Linked(amd, amd, x, y);
    }
  }

  /** The graph of the AMD cards of a node. */
  ghost function AmdGraph(accels: seq<Accelerator>): Graph {
    CardGraph(AmdCards(accels))
  }

  method BuildAmdXgmiGroups(accels: seq<Accelerator>) returns (groups: seq<seq<AcceleratorId>>)
    ensures AreComponents(AmdGraph(accels), groups)
  {
    var amd := AmdCards(accels);
    var adjacency := BuildAdjacency(amd);
    GraphIsSymmetric(amd, adjacency);
    CardGraphIsGraph(amd);
    OneGraph(amd, adjacency, AmdGraph(accels));
    groups := Components(adjacency);
  }

  /** In terms of the cards: two AMD cards share a group exactly when a chain of cards, each
      listing the next or listed by it, joins them and at least one link is there. */
  lemma GroupsMeaning(accels: seq<Accelerator>, groups: seq<seq<AcceleratorId>>, x: AcceleratorId, y: AcceleratorId)
    requires AreComponents(AmdGraph(accels), groups)
    ensures var g, amd := AmdGraph(accels), AmdCards(accels);
      && ((exists group :: group in groups && x in group && y in group) <==> x in g && g[x] != {} && Connected(g, x, y))
      && (x in g && y in g[x] <==> Linked(amd, amd, x, y))
  {
    hide IsComponent, CardGraph;
    var g := AmdGraph(accels);
    CardGraphIsGraph(AmdCards(accels));
    if x in g && g[x] != {} && Connected(g, x, y) {
      var group :| group in groups && x in group;
      ComponentIsMaximal(g, group, x, y);
    }
    if exists group :: group in groups && x in group && y in group {
      var group :| group in groups && x in group && y in group;
      InsideComponent(g, group, x, y);
    }
  }

  /** Within a group the cards stand in the order of their addresses. */
  lemma GroupInOrder(g: Graph, groups: seq<seq<AcceleratorId>>, group: seq<AcceleratorId>, i: nat, j: nat)
    requires AreComponents(g, groups) && group in groups && i < j < |group|
    ensures AtMost(group[i].pciAddr, group[j].pciAddr) && group[i] != group[j]
  {
    hide Less, Connected;
    assert IsComponent(g, group) && !PciBefore(group[j], group[i]);
    LessIrreflexive(group[i].pciAddr);
    if group[i].pciAddr != group[j].pciAddr {
      LessConnected(group[i].pciAddr, group[j].pciAddr);
    }
  }

  /** A card that is linked to itself and to no other. */
  ghost predicate OnlySelfLinked(amd: seq<Accelerator>, x: AcceleratorId) {
    Linked(amd, amd, x, x) && forall y | y != x :: !Linked(amd, amd, x, y)
  }

  /** In terms of the cards: a group of one is found exactly when some AMD card is linked to
      itself and to no other. */
  lemma GroupsOfTwoByCards(accels: seq<Accelerator>, groups: seq<seq<AcceleratorId>>)
    requires AreComponents(AmdGraph(accels), groups)
    ensures (forall group | group in groups :: |group| >= 2)
      <==> !exists a :: a in AmdCards(accels) && OnlySelfLinked(AmdCards(accels), a.id)
  {
    hide AreComponents, Linked, CardGraph;
    var amd, g := AmdCards(accels), AmdGraph(accels);
    CardGraphIsGraph(amd);
    GraphIsSymmetric(amd, g);
    GroupsOfTwoExactly(g, groups);
    forall x | x in g
      ensures g[x] == {x} <==> OnlySelfLinked(amd, x)
    {
      assert forall y :: y in g[x] <==> Linked(amd, amd, x, y);
    }
  }

  /** With distinct cards that is: it lists its own address, lists no other card's, and no other
      card lists its. */
  lemma OnlySelfLinkedByAddress(amd: seq<Accelerator>, a: Accelerator)
    requires DistinctCards(amd) && a in amd
    ensures OnlySelfLinked(amd, a.id) <==>
      && a.id.pciAddr in a.peers
      && forall p | p in amd && p != a :: p.id.pciAddr !in a.peers && a.id.pciAddr !in p.peers
  {
    ListsByAddress(amd, a, a);
    forall p | p in amd
      ensures Linked(amd, amd, a.id, p.id) <==> p.id.pciAddr in a.peers || a.id.pciAddr in p.peers
    {
      ListsByAddress(amd, a, p);
      ListsByAddress(amd, p, a);
    }
    forall y | Linked(amd, amd, a.id, y)
      ensures exists p :: p in amd && p.id == y
    {
      LinkedAreCards(amd, a.id, y);
    }
  }

  /** The input that yields a group of one: a single card that lists its own address. */
  lemma SelfListingCard(card: Accelerator, groups: seq<seq<AcceleratorId>>)
    requires card.id.vendor.Amd? && card.id.pciAddr in card.peers
    requires AreComponents(AmdGraph([card]), groups)
    ensures groups == [[card.id]]
  {
    hide Linked, Connected, CardGraph;
    var amd, g, x := [card], AmdGraph([card]), card.id;
    assert AmdCards([card]) == amd;
    CardGraphIsGraph(amd);
    OnlySelfLinkedByAddress(amd, card);
    assert x in g && x in g[x] && forall y | y in g :: y == x;
    var group :| group in groups && x in group;
    forall other | other in groups
      ensures other == [x]
    {
      OneNameGroup(g, other, x);
    }
    var last := |groups| - 1;
    assert groups[0] in groups && groups[last] in groups;
    assert x in groups[0] && x in groups[last];
  }

  lemma OneNameGroup(g: Graph, group: seq<AcceleratorId>, x: AcceleratorId)
    requires IsComponent(g, group) && forall y | y in g :: y == x
    ensures group == [x]
  {
    hide Connected;
    AllOne(group, x);
  }

  /** Distinct cards make a graph of distinct addresses. */
  lemma AmdAddressesDistinct(accels: seq<Accelerator>)
    requires DistinctCards(accels)
    ensures DistinctAddresses(AmdGraph(accels))
  {
    AmdCardsMeaning(accels);
    CardGraphIsGraph(AmdCards(accels));
  }

  /** Any two runs of the search on a node's cards find the same groups. */
  lemma NodeGroupsIgnoreKeyOrder(accels: seq<Accelerator>, a: seq<seq<AcceleratorId>>, b: seq<seq<AcceleratorId>>)
    requires DistinctCards(accels) && AreComponents(AmdGraph(accels), a) && AreComponents(AmdGraph(accels), b)
    ensures forall group :: group in a <==> group in b
  {
    AmdAddressesDistinct(accels);
    GroupsIgnoreKeyOrder(AmdGraph(accels), a, b);
  }

  lemma InsideComponent(g: Graph, group: seq<AcceleratorId>, x: AcceleratorId, y: AcceleratorId)
    requires IsComponent(g, group) && x in group && y in group
    ensures x in g && g[x] != {} && Connected(g, x, y)
  {
  }
}
