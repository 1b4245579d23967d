/** `sort_by` as the program uses it: a stable sort under a comparison. */
module Sorting {

  /** What `sort_by` asks of its comparison: `less` is the strict part of a total preorder. */
  ghost predicate WeakOrder<T(!new)>(less: (T, T) -> bool) {
    && (forall x, y :: less(x, y) ==> !less(y, x))
    && (forall x, y, z :: !less(x, y) && !less(y, z) ==> !less(x, z))
  }

  ghost predicate Sorted<T>(s: seq<T>, less: (T, T) -> bool) {
    forall i, j | 0 <= i < j < |s| :: !less(s[j], s[i])
  }

  /** No two elements tie. */
  ghost predicate StrictlySorted<T>(s: seq<T>, less: (T, T) -> bool) {
    forall i, j | 0 <= i < j < |s| :: less(s[i], s[j])
  }

  function Insert<T>(x: T, s: seq<T>, less: (T, T) -> bool): (r: seq<T>)
    ensures |r| == |s| + 1
  {
    if s != [] && less(s[0], x) then [s[0]] + Insert(x, s[1..], less) else [x] + s
  }

  function Sort<T>(s: seq<T>, less: (T, T) -> bool): (r: seq<T>)
    ensures |r| == |s|
  {
    if s == [] then [] else Insert(s[0], Sort(s[1..], less), less)
  }

  lemma {:induction false} InsertKeeps<T>(x: T, s: seq<T>, less: (T, T) -> bool)
    ensures multiset(Insert(x, s, less)) == multiset(s) + multiset{x}
    ensures forall y :: y in Insert(x, s, less) <==> y in s || y == x
  {
    if s != [] {
      assert s == [s[0]] + s[1..];
      if less(s[0], x) {
        InsertKeeps(x, s[1..], less);
      }
    }
  }

  lemma {:induction false} InsertSorts<T(!new)>(x: T, s: seq<T>, less: (T, T) -> bool)
    requires WeakOrder(less) && Sorted(s, less)
    ensures Sorted(Insert(x, s, less), less)
  {
    if s != [] {
      var first := s[0];
      if less(first, x) {
        var rest := Insert(x, s[1..], less);
        InsertSorts(x, s[1..], less);
        InsertKeeps(x, s[1..], less);
        forall y | y in rest
          ensures !less(y, first)
        {
          if y in s[1..] {
            var k :| 0 <= k < |s[1..]| && s[1..][k] == y;
            assert y == s[k + 1];
          }
        }
      } else {
        forall k | 0 <= k < |s|
          ensures !less(s[k], x)
        {
          assert k > 0 ==> !less(s[k], first);
        }
      }
    }
  }

  lemma {:induction false} SortSorts<T(!new)>(s: seq<T>, less: (T, T) -> bool)
    requires WeakOrder(less)
    ensures Sorted(Sort(s, less), less)
    ensures multiset(Sort(s, less)) == multiset(s)
  {
    if s != [] {
      SortSorts(s[1..], less);
      InsertSorts(s[0], Sort(s[1..], less), less);
      InsertKeeps(s[0], Sort(s[1..], less), less);
      assert s == [s[0]] + s[1..];
    }
  }

  lemma SameElements<T>(s: seq<T>, t: seq<T>)
    requires multiset(s) == multiset(t)
    ensures |s| == |t|
    ensures forall x :: x in s <==> x in t
  {
    assert |multiset(s)| == |s| && |multiset(t)| == |t|;
    assert forall x :: x in s <==> x in multiset(s);
    assert forall x :: x in t <==> x in multiset(t);
  }

  lemma SameFirst<T>(s: seq<T>, t: seq<T>, less: (T, T) -> bool)
    requires StrictlySorted(s, less) && Sorted(t, less)
    requires s != [] && t != [] && s[0] in t && t[0] in s
    ensures s[0] == t[0]
  {
  }

  lemma DropFirst<T>(s: seq<T>)
    requires s != []
    ensures multiset(s[1..]) == multiset(s) - multiset{s[0]}
  {
    assert s == [s[0]] + s[1..];
  }

  /** Without ties, the sorted order of a bag is unique. */
  lemma {:induction false} StrictlySortedUnique<T>(s: seq<T>, t: seq<T>, less: (T, T) -> bool)
    requires StrictlySorted(s, less) && Sorted(t, less)
    requires multiset(s) == multiset(t)
    ensures s == t
  {
    SameElements(s, t);
    if s != [] {
      SameFirst(s, t, less);
      DropFirst(s);
      DropFirst(t);
      StrictlySortedUnique(s[1..], t[1..], less);
      assert s == [s[0]] + s[1..] && t == [t[0]] + t[1..];
    }
  }

  /** Sorting forgets the order its input came in, when nothing ties. */
  lemma SortIgnoresOrder<T(!new)>(s: seq<T>, t: seq<T>, less: (T, T) -> bool)
    requires WeakOrder(less) && multiset(s) == multiset(t)
    requires StrictlySorted(Sort(s, less), less)
    ensures Sort(s, less) == Sort(t, less)
  {
    SortSorts(s, less);
    SortSorts(t, less);
    StrictlySortedUnique(Sort(s, less), Sort(t, less), less);
  }

  ghost predicate Distinct<T>(s: seq<T>) {
    forall i, j | 0 <= i < j < |s| :: s[i] != s[j]
  }

  lemma SeenTwice<T>(s: seq<T>, i: nat, j: nat)
    requires i < j < |s| && s[i] == s[j]
    ensures multiset(s)[s[i]] >= 2
  {
    assert s == s[..j] + [s[j]] + s[j + 1..];
    assert s[i] in s[..j];
  }

  lemma {:induction false} SeenOnce<T>(s: seq<T>, x: T)
    requires Distinct(s)
    ensures multiset(s)[x] <= 1
  {
    if s != [] {
      assert s == [s[0]] + s[1..];
      SeenOnce(s[1..], x);
      if x == s[0] {
        assert x !in s[1..];
      }
    }
  }

  lemma DistinctPermutation<T>(s: seq<T>, t: seq<T>)
    requires multiset(s) == multiset(t) && Distinct(s)
    ensures Distinct(t)
  {
    forall i, j | 0 <= i < j < |t|
      ensures t[i] != t[j]
    {
      SeenOnce(s, t[i]);
      if t[i] == t[j] {
        SeenTwice(t, i, j);
      }
    }
  }

  lemma SameBag<T>(s: seq<T>, t: seq<T>)
    requires Distinct(s) && Distinct(t)
    requires forall x :: x in s <==> x in t
    ensures multiset(s) == multiset(t)
  {
    forall x: T
      ensures multiset(s)[x] == multiset(t)[x]
    {
      SeenOnce(s, x);
      SeenOnce(t, x);
      assert x in s <==> multiset(s)[x] > 0;
      assert x in t <==> multiset(t)[x] > 0;
    }
  }

  lemma {:induction false} SubsetSize<T>(a: set<T>, b: set<T>)
    requires a <= b
    ensures |a| <= |b|
  {
    if a != {} {
      var x :| x in a;
      SubsetSize(a - {x}, b - {x});
    }
  }
}
