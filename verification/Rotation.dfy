/** The rack as a queue of names under least-recently-used picks: each pick takes the front two and
    puts them at the back, in name order.  Here it is settled which names ever meet. */
module Rotation {
  import opened Text
  import opened Sorting

  function Lower(a: string, b: string): string {
    if Less(a, b) then a else b
  }

  function Upper(a: string, b: string): string {
    if Less(a, b) then b else a
  }

  /** One pick: the front two go to the back, in name order. */
  function Turn(q: seq<string>): (r: seq<string>)
    requires |q| >= 2
    ensures |r| == |q|
  {
    q[2..] + [Lower(q[0], q[1]), Upper(q[0], q[1])]
  }

  function Turns(q: seq<string>, k: nat): (r: seq<string>)
    requires |q| >= 2
    ensures |r| == |q|
  {
    if k == 0 then q else Turn(Turns(q, k - 1))
  }

  function Front(q: seq<string>): set<string>
    requires |q| >= 2
  {
    {q[0], q[1]}
  }

  lemma TurnKeepsNames(q: seq<string>)
    requires |q| >= 2 && Distinct(q)
    ensures Distinct(Turn(q)) && forall x :: x in Turn(q) <==> x in q
  {
    assert q == [q[0], q[1]] + q[2..];
    var next := Turn(q);
    forall i, j | 0 <= i < j < |q|
      ensures next[i] != next[j]
    {
      if i < |q| - 2 {
        assert next[i] == q[i + 2];
      }
      if j < |q| - 2 {
        assert next[j] == q[j + 2];
      }
    }
  }

  // Racks of an odd size: which of the largest names meet

  /** A queue of odd size whose names after the first come in twos, smaller name first. */
  ghost predicate Tied(q: seq<string>) {
    && |q| % 2 == 1 && Distinct(q)
    && forall i | 0 <= i < |q| - 1 && i % 2 == 1 :: Less(q[i], q[i + 1])
  }

  /** `x` is not the smaller name of its two. */
  ghost predicate NotLower(q: seq<string>, x: string) {
    forall i | 0 <= i < |q| && i % 2 == 1 :: q[i] != x
  }

  lemma TurnTies(q: seq<string>)
    requires |q| >= 3 && Tied(q)
    ensures Tied(Turn(q))
    ensures forall i | 0 <= i < |q| - 2 :: Turn(q)[i] == q[i + 2]
    ensures Turn(q)[|q| - 2] == Lower(q[0], q[1]) && Turn(q)[|q| - 1] == Upper(q[0], q[1])
  {
    TurnKeepsNames(q);
    LessConnected(q[0], q[1]);
    var next := Turn(q);
    forall i | 0 <= i < |q| - 1 && i % 2 == 1
      ensures Less(next[i], next[i + 1])
    {
      if i < |q| - 2 {
        assert (i + 2) % 2 == 1;
      }
    }
  }

  /** `x` and then `y` are the largest names. */
  ghost predicate TopTwo(q: seq<string>, x: string, y: string) {
    && x in q && y in q && Less(y, x)
    && forall v | v in q && v != x && v != y :: Less(v, y)
  }

  /** A second largest name that is not the smaller of its two never meets the largest. */
  lemma TopTwoStayApart(q: seq<string>, x: string, y: string)
    requires |q| >= 3 && Tied(q) && TopTwo(q, x, y) && NotLower(q, y)
    ensures Front(q) != {x, y} && NotLower(Turn(q), y) && TopTwo(Turn(q), x, y)
  {
    TurnTies(q);
    TurnKeepsNames(q);
    LargestIsNotLower(q, x, y, 1);
    var next, n := Turn(q), |q|;
    forall i | 0 <= i < n && i % 2 == 1
      ensures next[i] != y
    {
      if i < n - 2 {
        assert (i + 2) % 2 == 1;
      } else {
        assert i == n - 2;
        if next[i] == y {
          LessAsymmetric(q[1], y);
        }
      }
    }
  }

  /** The largest name is never the smaller of its two. */
  lemma LargestIsNotLower(q: seq<string>, x: string, y: string, i: nat)
    requires Tied(q) && TopTwo(q, x, y) && i < |q| - 1 && i % 2 == 1
    ensures q[i] != x
  {
    if q[i] == x {
      assert q[i + 1] in q && Less(x, q[i + 1]);
      LessAsymmetric(x, q[i + 1]);
      if q[i + 1] != y {
        LessTransitive(q[i + 1], y, x);
      }
    }
  }

  /** The names of two `j` of `q` stand at place `p` of `r`, smaller name first. */
  ghost predicate Stands(q: seq<string>, r: seq<string>, j: int, p: int) {
    && 0 <= 2 * j < |q| - 1 && 0 <= p < |r| - 1
    && r[p] == Lower(q[2 * j], q[2 * j + 1]) && r[p + 1] == Upper(q[2 * j], q[2 * j + 1])
  }

  /** The first picks, half as many as names, take the front of the queue in twos. */
  lemma {:induction false} EarlyTurns(q: seq<string>, k: nat)
    requires |q| >= 3 && 2 * k <= |q|
    ensures Turns(q, k)[..|q| - 2 * k] == q[2 * k..]
  {
    if k > 0 {
      EarlyTurns(q, k - 1);
      var before, r, rest := Turns(q, k - 1), Turns(q, k), |q| - 2 * k;
      assert r[..rest] == before[..rest + 2][2..];
    }
  }

  lemma StandsMoves(q: seq<string>, before: seq<string>, j: int, p: int)
    requires |before| >= 2 && p >= 2 && Stands(q, before, j, p)
    ensures Stands(q, Turn(before), j, p - 2)
  {
  }

  lemma {:induction false} EarlyStands(q: seq<string>, k: nat, j: nat)
    requires |q| >= 3 && 2 * k <= |q| && j < k
    ensures Stands(q, Turns(q, k), j, |q| - 2 * k + 2 * j)
  {
    hide Stands;
    var before := Turns(q, k - 1);
    if j < k - 1 {
      EarlyStands(q, k - 1, j);
      StandsMoves(q, before, j, |q| - 2 * (k - 1) + 2 * j);
    } else {
      EarlyTurns(q, k - 1);
      LastStands(q, before, j);
    }
  }

  lemma LastStands(q: seq<string>, before: seq<string>, j: nat)
    requires |before| == |q| >= 2 && 2 * j + 2 <= |q| && before[..|q| - 2 * j] == q[2 * j..]
    ensures Stands(q, Turn(before), j, |q| - 2)
  {
    assert before[0] == q[2 * j..][0] && before[1] == before[..|q| - 2 * j][1] == q[2 * j..][1];
  }

  /** After those, every name but the last stands with its partner. */
  lemma EarlyTurnsTie(q: seq<string>, m: nat)
    requires |q| == 2 * m + 1 && m > 0 && Distinct(q)
    ensures Tied(Turns(q, m)) && forall v :: v in Turns(q, m) <==> v in q
  {
    hide Stands, Turns;
    TurnsKeepNames(q, m);
    var r := Turns(q, m);
    forall i | 0 <= i < |r| - 1 && i % 2 == 1
      ensures Less(r[i], r[i + 1])
    {
      var j := i / 2;
      assert i == 2 * j + 1 && j < m;
      EarlyStands(q, m, j);
      StandsInOrder(q, r, j, i);
    }
  }

  lemma StandsInOrder(q: seq<string>, r: seq<string>, j: int, p: int)
    requires Distinct(q) && Stands(q, r, j, p)
    ensures Less(r[p], r[p + 1]) && {r[p], r[p + 1]} == {q[2 * j], q[2 * j + 1]}
  {
    LessConnected(q[2 * j], q[2 * j + 1]);
  }

  lemma {:induction false} TurnsKeepNames(q: seq<string>, k: nat)
    requires |q| >= 2 && Distinct(q)
    ensures Distinct(Turns(q, k)) && forall v :: v in Turns(q, k) <==> v in q
  {
    if k > 0 {
      TurnsKeepNames(q, k - 1);
      TurnKeepsNames(Turns(q, k - 1));
    }
  }

  lemma {:induction false} ApartForGood(q: seq<string>, m: nat, k: nat, x: string, y: string)
    requires |q| >= 3 && m <= k && Tied(Turns(q, m)) && TopTwo(Turns(q, m), x, y) && NotLower(Turns(q, m), y)
    ensures Tied(Turns(q, k)) && TopTwo(Turns(q, k), x, y) && NotLower(Turns(q, k), y)
    ensures Front(Turns(q, k)) != {x, y}
  {
    if k > m {
      ApartForGood(q, m, k - 1, x, y);
      TopTwoStayApart(Turns(q, k - 1), x, y);
      TurnTies(Turns(q, k - 1));
    }
    TopTwoStayApart(Turns(q, k), x, y);
  }

  /** The two names are neighbours in the front of the queue, taken in twos. */
  ghost predicate Paired(q: seq<string>, x: string, y: string) {
    exists j :: 0 <= j && 2 * j + 1 < |q| && {q[2 * j], q[2 * j + 1]} == {x, y}
  }

  lemma EarlyFront(q: seq<string>, m: nat, k: nat)
    requires |q| == 2 * m + 1 && k < m
    ensures Front(Turns(q, k)) == {q[2 * k], q[2 * k + 1]}
  {
    EarlyTurns(q, k);
    var r := Turns(q, k);
    assert r[0] == r[..|q| - 2 * k][0] == q[2 * k..][0] && r[1] == r[..|q| - 2 * k][1] == q[2 * k..][1];
  }

  lemma NotPairedNotLower(q: seq<string>, m: nat, i: nat, x: string, y: string)
    requires |q| == 2 * m + 1 && i < |q| && i % 2 == 1 && Distinct(q) && TopTwo(q, x, y) && !Paired(q, x, y)
    ensures Turns(q, m)[i] != y
  {
    hide Turns;
    var r, j := Turns(q, m), i / 2;
    assert i == 2 * j + 1 && j < m;
    EarlyStands(q, m, j);
    StandsInOrder(q, r, j, i);
    assert {q[2 * j], q[2 * j + 1]} != {x, y};
    assert r[i + 1] in {q[2 * j], q[2 * j + 1]};
    if r[i] == y {
      LessIrreflexive(y);
      LessAsymmetric(y, r[i + 1]);
    }
  }

  /** The two largest names meet in the first round or never. */
  lemma TopTwoMeetEarly(q: seq<string>, m: nat, k: nat, x: string, y: string)
    requires |q| == 2 * m + 1 && m > 0 && Distinct(q) && TopTwo(q, x, y) && !Paired(q, x, y)
    ensures Front(Turns(q, k)) != {x, y}
  {
    if k < m {
      EarlyFront(q, m, k);
    } else {
      EarlyTurnsTie(q, m);
      forall i | 0 <= i < |q| && i % 2 == 1
        ensures Turns(q, m)[i] != y
      {
        NotPairedNotLower(q, m, i, x, y);
      }
      ApartForGood(q, m, k, x, y);
    }
  }

  // If the two largest meet, the largest and the third never do

  /** `x`, `y` and `z` are the three largest names, in that order. */
  ghost predicate TopThree(q: seq<string>, x: string, y: string, z: string) {
    && TopTwo(q, x, y) && z in q && z != x && z != y
    && forall v | v in q && v != x && v != y && v != z :: Less(v, z)
  }

  /** `x` and `y` stand together, and `z` is not the smaller of its two. */
  ghost predicate Together(q: seq<string>, x: string, y: string, z: string, i: int) {
    0 <= i < |q| - 1 && i % 2 == 1 && q[i] == y && q[i + 1] == x && NotLower(q, z)
  }

  /** `z` stands with `y`, and `x` is the larger name of the two that follow. */
  ghost predicate Trailing(q: seq<string>, x: string, y: string, z: string, i: int) {
    && 0 <= i < |q| - 1 && i % 2 == 1 && q[i] == z && q[i + 1] == y
    && x == if i + 3 < |q| then q[i + 3] else q[0]
  }

  ghost predicate KeptApart(q: seq<string>, x: string, y: string, z: string) {
    || (NotLower(q, y) && NotLower(q, z))
    || (exists i :: Together(q, x, y, z, i))
    || (exists i :: Trailing(q, x, y, z, i))
  }

  lemma TopThreeOrder(q: seq<string>, x: string, y: string, z: string)
    requires TopThree(q, x, y, z)
    ensures Less(z, y) && Less(z, x) && Less(y, x)
    ensures forall v | v in q && v != x :: Less(v, x) && !Less(x, v)
    ensures forall v | v in q && v != x && v != y :: Less(v, y) && !Less(y, v)
    ensures forall v | v in q && v != x && v != y && v != z :: Less(v, z) && !Less(z, v)
  {
    forall v | v in q && v != x
      ensures Less(v, x) && !Less(x, v)
      ensures v != y ==> Less(v, y) && !Less(y, v)
      ensures v != y && v != z ==> !Less(z, v)
    {
      if v != y {
        LessTransitive(v, y, x);
        LessAsymmetric(v, y);
      }
      LessAsymmetric(v, x);
      if v != y && v != z {
        LessAsymmetric(v, z);
      }
    }
    LessTransitive(z, y, x);
  }

  /** What a turn does to places: everything moves up by two, the smaller of the front two goes
      next to last and the larger last. */
  lemma TurnPlaces(q: seq<string>)
    requires |q| >= 3 && Tied(q)
    ensures var next, n := Turn(q), |q|;
      && Tied(next) && (forall v :: v in next <==> v in q)
      && (forall i | 2 <= i < n :: next[i - 2] == q[i])
      && next[n - 2] == Lower(q[0], q[1]) && next[n - 1] == Upper(q[0], q[1])
  {
    TurnTies(q);
    TurnKeepsNames(q);
  }

  lemma NotLowerTurns(q: seq<string>, v: string)
    requires |q| >= 3 && Tied(q) && Turn(q)[|q| - 2] != v
    requires forall i | 3 <= i < |q| && i % 2 == 1 :: q[i] != v
    ensures NotLower(Turn(q), v)
  {
    TurnPlaces(q);
    forall i | 0 <= i < |q| && i % 2 == 1
      ensures Turn(q)[i] != v
    {
      if i < |q| - 2 {
        assert Turn(q)[(i + 2) - 2] == q[i + 2] && (i + 2) % 2 == 1;
      }
    }
  }

  lemma FreeTurns(q: seq<string>, x: string, y: string, z: string)
    requires |q| >= 5 && Tied(q) && TopThree(q, x, y, z) && NotLower(q, y) && NotLower(q, z)
    ensures Front(q) != {x, z} && KeptApart(Turn(q), x, y, z)
  {
    TopThreeOrder(q, x, y, z);
    LargestIsNotLower(q, x, y, 1);
    TurnPlaces(q);
    assert q[0] in q && q[1] in q && q[1] !in {x, y, z};
    NotLowerTurns(q, y);
    NotLowerTurns(q, z);
  }

  lemma TogetherTurns(q: seq<string>, x: string, y: string, z: string, i: int)
    requires |q| >= 5 && Tied(q) && TopThree(q, x, y, z) && Together(q, x, y, z, i)
    ensures Front(q) != {x, z} && KeptApart(Turn(q), x, y, z)
  {
    TopThreeOrder(q, x, y, z);
    TurnPlaces(q);
    var next, n := Turn(q), |q|;
    assert q[0] in q && q[1] in q;
    if i == 1 {
      assert q[0] != x && q[0] != y;
      assert Less(q[0], q[1]) && next[n - 2] == q[0] && next[n - 1] == y && next[2 - 2] == x;
      if q[0] == z {
        assert Trailing(next, x, y, z, n - 2);
      } else {
        NotLowerTurns(q, y);
        NotLowerTurns(q, z);
      }
    } else {
      assert i >= 3 && q[1] !in {x, y, z} && q[0] !in {x, y};
      assert next[i - 2] == q[i] && next[(i + 1) - 2] == q[i + 1];
      NotLowerTurns(q, z);
      assert Together(next, x, y, z, i - 2);
    }
  }

  lemma TrailingTurns(q: seq<string>, x: string, y: string, z: string, i: int)
    requires |q| >= 5 && Tied(q) && TopThree(q, x, y, z) && Trailing(q, x, y, z, i)
    ensures Front(q) != {x, z} && KeptApart(Turn(q), x, y, z)
  {
    TopThreeOrder(q, x, y, z);
    TurnPlaces(q);
    var next, n := Turn(q), |q|;
    assert q[0] in q && q[1] in q;
    if i == 1 {
      assert x == q[4] && q[0] !in {x, y, z};
      assert next[n - 2] == q[0];
      NotLowerTurns(q, y);
      NotLowerTurns(q, z);
    } else {
      assert q[0] != z && q[1] != z;
      assert next[i - 2] == z && next[(i + 1) - 2] == y;
      if i + 3 < n {
        assert next[(i + 3) - 2] == x;
      } else {
        assert i == n - 2 && q[1] != x && next[n - 1] == x;
      }
      assert Trailing(next, x, y, z, i - 2);
    }
  }

  lemma {:induction false} FirstAndThirdStayApart(q: seq<string>, m: nat, k: nat, x: string, y: string, z: string)
    requires |q| >= 5 && m <= k && Tied(Turns(q, m)) && TopThree(Turns(q, m), x, y, z)
    requires KeptApart(Turns(q, m), x, y, z)
    ensures Tied(Turns(q, k)) && TopThree(Turns(q, k), x, y, z) && KeptApart(Turns(q, k), x, y, z)
    ensures Front(Turns(q, k)) != {x, z}
  {
    hide KeptApart, Tied, Turn, Front;
    if k > m {
      FirstAndThirdStayApart(q, m, k - 1, x, y, z);
      ApartTurns(Turns(q, k - 1), x, y, z);
    }
    ApartTurns(Turns(q, k), x, y, z);
  }

  lemma ApartTurns(q: seq<string>, x: string, y: string, z: string)
    requires |q| >= 5 && Tied(q) && TopThree(q, x, y, z) && KeptApart(q, x, y, z)
    ensures Tied(Turn(q)) && TopThree(Turn(q), x, y, z)
    ensures Front(q) != {x, z} && KeptApart(Turn(q), x, y, z)
  {
    hide Together, Trailing, Turn;
    TurnPlaces(q);
    if NotLower(q, y) && NotLower(q, z) {
      FreeTurns(q, x, y, z);
    } else if exists i :: Together(q, x, y, z, i) {
      var i :| Together(q, x, y, z, i);
      TogetherTurns(q, x, y, z, i);
    } else {
      var i :| Trailing(q, x, y, z, i);
      TrailingTurns(q, x, y, z, i);
    }
  }

  lemma MetEarly(q: seq<string>, m: nat, k: nat, j: int, x: string, y: string, z: string)
    requires |q| == 2 * m + 1 && k < m && 0 <= j < m && Distinct(q) && x != y && y != z
    requires {q[2 * j], q[2 * j + 1]} == {x, y}
    ensures Front(Turns(q, k)) != {x, z}
  {
    EarlyFront(q, m, k);
    assert x in {q[2 * j], q[2 * j + 1]} && y in {q[2 * j], q[2 * j + 1]};
    if k != j {
      assert x !in {q[2 * k], q[2 * k + 1]};
    } else {
      assert y in {q[2 * k], q[2 * k + 1]} && y !in {x, z};
    }
  }

  lemma MetTogether(q: seq<string>, m: nat, j: int, x: string, y: string, z: string)
    requires |q| == 2 * m + 1 && 0 <= j < m && Distinct(q) && TopThree(q, x, y, z)
    requires {q[2 * j], q[2 * j + 1]} == {x, y}
    ensures Tied(Turns(q, m)) && TopThree(Turns(q, m), x, y, z) && Together(Turns(q, m), x, y, z, 2 * j + 1)
  {
    hide Turns, Stands;
    EarlyTurnsTie(q, m);
    var r := Turns(q, m);
    EarlyStands(q, m, j);
    StandsInOrder(q, r, j, 2 * j + 1);
    TopThreeOrder(r, x, y, z);
    assert r[2 * j + 1] in {x, y} && r[2 * j + 2] in {x, y};
    PartnersTaken(r, x, y, z, 2 * j + 1);
  }

  lemma PartnersTaken(r: seq<string>, x: string, y: string, z: string, p: int)
    requires Tied(r) && TopThree(r, x, y, z) && 0 <= p < |r| - 1 && p % 2 == 1 && r[p] == y && r[p + 1] == x
    ensures Together(r, x, y, z, p)
  {
    TopThreeOrder(r, x, y, z);
    forall i | 0 <= i < |r| && i % 2 == 1
      ensures r[i] != z
    {
      assert Less(r[i], r[i + 1]) && r[i + 1] in r;
    }
  }

  /** Once the two largest names have met, the largest and the third never do. */
  lemma FirstAndThirdNeverMeet(q: seq<string>, m: nat, k: nat, x: string, y: string, z: string)
    requires |q| == 2 * m + 1 && m > 1 && Distinct(q) && TopThree(q, x, y, z) && Paired(q, x, y)
    ensures Front(Turns(q, k)) != {x, z}
  {
    hide Tied, TopThree, Together, Trailing, Turns, Front;
    var j :| 0 <= j && 2 * j + 1 < |q| && {q[2 * j], q[2 * j + 1]} == {x, y};
    DifferentNames(q, x, y, z);
    if k < m {
      MetEarly(q, m, k, j, x, y, z);
    } else {
      MetTogether(q, m, j, x, y, z);
      FirstAndThirdStayApart(q, m, k, x, y, z);
    }
  }

  lemma DifferentNames(q: seq<string>, x: string, y: string, z: string)
    requires TopThree(q, x, y, z)
    ensures x != y && y != z && x != z
  {
    LessIrreflexive(x);
  }

  lemma {:induction false} Greatest(names: set<string>) returns (x: string)
    requires names != {}
    ensures x in names && forall v | v in names && v != x :: Less(v, x)
  {
    var w :| w in names;
    if names == {w} {
      x := w;
    } else {
      var u := Greatest(names - {w});
      LessConnected(u, w);
      x := if Less(u, w) then w else u;
      forall v | v in names && v != x
        ensures Less(v, x)
      {
        if v != w && v != u && x == w {
          LessTransitive(v, u, w);
        }
      }
    }
  }

  // Small racks

  /** The racks that reach every pair: two nodes, or three of which the one with the least name
      stands last. */
  predicate Reaching(q: seq<string>) {
    |q| == 2 || (|q| == 3 && Less(q[2], q[0]) && Less(q[2], q[1]))
  }

  lemma LastIsLeast(q: seq<string>, x: string, y: string, z: string)
    requires |q| == 3 && Distinct(q) && TopThree(q, x, y, z) && Paired(q, x, y)
    ensures Reaching(q)
  {
    TopThreeOrder(q, x, y, z);
    assert {q[0], q[1]} == {x, y};
    assert q[0] in {x, y} && q[1] in {x, y} && q[2] in q;
  }

  lemma ThreeReach(q: seq<string>)
    requires |q| == 3 && Reaching(q)
    ensures Front(Turns(q, 0)) == {q[0], q[1]}
    ensures Front(Turns(q, 1)) == {q[2], Lower(q[0], q[1])} && Front(Turns(q, 2)) == {q[2], Upper(q[0], q[1])}
  {
    var lo, hi := Lower(q[0], q[1]), Upper(q[0], q[1]);
    assert Turns(q, 1) == Turn(q) == [q[2], lo, hi];
    assert Turns(q, 2) == Turn([q[2], lo, hi]) == [hi, q[2], lo];
  }

  lemma FirstThree(q: seq<string>, a: string, b: string)
    requires Reaching(q) && a in q && b in q && a != b
    ensures {a, b} == Front(Turns(q, 0)) || {a, b} == Front(Turns(q, 1)) || {a, b} == Front(Turns(q, 2))
  {
    if |q| == 3 {
      ThreeReach(q);
      assert {a, b} == {q[0], q[1]} || {a, b} == {q[2], q[0]} || {a, b} == {q[2], q[1]};
    } else {
      assert {a, b} == {q[0], q[1]};
    }
  }

  lemma TwoReach(q: seq<string>)
    requires |q| == 2
    ensures Reaching(q)
  {
  }
}
