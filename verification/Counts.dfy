/** Count maps, as the labels carry them and the cluster summary adds them up. */
module Counts {

  function At(m: map<string, nat>, k: string): nat {
    if k in m then m[k] else 0
  }

  /** The sum of all counts. */
  ghost function Total(m: map<string, nat>): nat {
    if m == map[] then 0
    else
      var k :| k in m;
      m[k] + Total(m - {k})
  }

  lemma {:induction false} TotalPick(m: map<string, nat>, k: string)
    requires k in m
    ensures Total(m) == m[k] + Total(m - {k})
    decreases |m|
  {
    var j :| j in m && Total(m) == m[j] + Total(m - {j});
    if j != k {
      TotalPick(m - {j}, k);
      TotalPick(m - {k}, j);
      assert m - {j} - {k} == m - {k} - {j};
    }
  }

  /** `*entry(k).or_default() += n` */
  function Bump(m: map<string, nat>, k: string, n: nat): map<string, nat> {
    m[k := At(m, k) + n]
  }

  lemma BumpTotal(m: map<string, nat>, k: string, n: nat)
    ensures Total(Bump(m, k, n)) == Total(m) + n
  {
    hide Total;
    var b := Bump(m, k, n);
    TotalPick(b, k);
    assert b - {k} == m - {k};
    if k in m {
      TotalPick(m, k);
    } else {
      assert m - {k} == m;
    }
  }

  lemma BumpAt(m: map<string, nat>, k: string, n: nat, j: string)
    ensures At(Bump(m, k, n), j) == At(m, j) + if j == k then n else 0
    ensures j in Bump(m, k, n) <==> j in m || j == k
  {
  }

  /** The tally of a list of keyed amounts. */
  function Tally(items: seq<(string, nat)>): map<string, nat> {
    if items == [] then map[]
    else Bump(Tally(items[..|items| - 1]), items[|items| - 1].0, items[|items| - 1].1)
  }

  function Amounts(items: seq<(string, nat)>): nat {
    if items == [] then 0 else Amounts(items[..|items| - 1]) + items[|items| - 1].1
  }

  /** The amount listed under one key. */
  function AmountOf(items: seq<(string, nat)>, k: string): nat {
    if items == [] then 0
    else AmountOf(items[..|items| - 1], k) + if items[|items| - 1].0 == k then items[|items| - 1].1 else 0
  }

  /** A tally gives every key the amount listed under it; nothing is lost or added, even when
      keys coincide. */
  lemma {:induction false} TallyConserves(items: seq<(string, nat)>)
    ensures forall k :: At(Tally(items), k) == AmountOf(items, k)
    ensures Total(Tally(items)) == Amounts(items)
  {
    hide At, Bump, Total;
    if items == [] {
      EmptyCounts();
    } else {
      var init, last := items[..|items| - 1], items[|items| - 1];
      TallyConserves(init);
      BumpTotal(Tally(init), last.0, last.1);
      forall k: string
        ensures At(Tally(items), k) == AmountOf(items, k)
      {
        BumpAt(Tally(init), last.0, last.1, k);
      }
    }
  }

  lemma EmptyCounts()
    ensures forall k :: At(map[], k) == 0
    ensures Total(map[]) == 0
  {
  }

  /** Adding two count maps. */
  function Plus(a: map<string, nat>, b: map<string, nat>): map<string, nat> {
    map k | k in a.Keys + b.Keys :: At(a, k) + At(b, k)
  }

  lemma PlusStep(a: map<string, nat>, b: map<string, nat>, todo: set<string>, k: string)
    requires k in todo && k in b
    ensures Bump(Plus(a, b - todo), k, b[k]) == Plus(a, b - (todo - {k}))
  {
  }

  lemma PlusNone(a: map<string, nat>, b: map<string, nat>)
    ensures Plus(a, b - b.Keys) == a && Plus(a, b - {}) == Plus(a, b)
  {
  }

  /** `for (k, n) in b { *totals.entry(k).or_default() += n }` */
  method AddInto(a: map<string, nat>, b: map<string, nat>) returns (r: map<string, nat>)
    ensures r == Plus(a, b)
    ensures Total(r) == Total(a) + Total(b)
  {
    hide Plus, At, Total;
    r := a;
    var todo := b.Keys;
    PlusNone(a, b);
    RemoveNone(b);
    while todo != {}
      invariant todo <= b.Keys
      invariant r == Plus(a, b - todo)
      invariant Total(r) == Total(a) + Total(b - todo)
      decreases |todo|
    {
      var k :| k in todo;
      PlusStep(a, b, todo, k);
      BumpTotal(r, k, b[k]);
      RestoreOne(b, todo, k);
      r := Bump(r, k, b[k]);
      todo := todo - {k};
    }
    assert b - {} == b;
  }

  lemma RestoreOne(b: map<string, nat>, todo: set<string>, k: string)
    requires k in todo && k in b
    ensures Total(b - (todo - {k})) == Total(b - todo) + b[k]
  {
    hide Total;
    TotalPick(b - (todo - {k}), k);
    assert b - (todo - {k}) - {k} == b - todo;
  }

  lemma RemoveNone(b: map<string, nat>)
    ensures Total(b - b.Keys) == 0
  {
  }
}
