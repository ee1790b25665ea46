/**
 * A stable sort standing in for the repository's `mergesort` (whose source
 * is not part of this model): only its contract matters, a sorted
 * permutation of the input.
 */
module Sorting {

  /** `lt` is a strict total order. */
  ghost predicate StrictTotalOrder<T(!new)>(lt: (T, T) -> bool) {
    && (forall x :: !lt(x, x))
    && (forall x, y, z :: lt(x, y) && lt(y, z) ==> lt(x, z))
    && (forall x, y :: x != y ==> lt(x, y) || lt(y, x))
  }

  /** No element is smaller than one before it. */
  ghost predicate Sorted<T>(s: seq<T>, lt: (T, T) -> bool) {
    forall i, j :: 0 <= i < j < |s| ==> !lt(s[j], s[i])
  }

  /** Puts `x` in front of the first element of `s` that is not smaller. */
  function InsertSorted<T>(x: T, s: seq<T>, lt: (T, T) -> bool): (r: seq<T>)
    ensures multiset(r) == multiset(s) + multiset{x}
  {
    if s == [] || !lt(s[0], x) then [x] + s
    else
      assert s == [s[0]] + s[1..];
      [s[0]] + InsertSorted(x, s[1..], lt)
  }

  function Sort<T>(s: seq<T>, lt: (T, T) -> bool): (r: seq<T>)
    ensures multiset(r) == multiset(s)
  {
    if s == [] then []
    else
      assert s == [s[0]] + s[1..];
      InsertSorted(s[0], Sort(s[1..], lt), lt)
  }

  lemma {:induction false} InsertSortedKeepsOrder<T(!new)>(x: T, s: seq<T>, lt: (T, T) -> bool)
    requires StrictTotalOrder(lt) && Sorted(s, lt)
    ensures Sorted(InsertSorted(x, s, lt), lt)
  {
    if s != [] && lt(s[0], x) {
      var tail := InsertSorted(x, s[1..], lt);
      InsertSortedKeepsOrder(x, s[1..], lt);
      forall j | 0 <= j < |tail| ensures !lt(tail[j], s[0]) {
        assert tail[j] in multiset(tail);
        if tail[j] != x {
          assert tail[j] in multiset(s[1..]);
          var k :| 0 <= k < |s[1..]| && s[1..][k] == tail[j];
          assert s[k + 1] == tail[j];
        }
      }
    }
  }

  lemma {:induction false} SortIsSorted<T(!new)>(s: seq<T>, lt: (T, T) -> bool)
    requires StrictTotalOrder(lt)
    ensures Sorted(Sort(s, lt), lt)
  {
    if s != [] {
      SortIsSorted(s[1..], lt);
      InsertSortedKeepsOrder(s[0], Sort(s[1..], lt), lt);
    }
  }

  /** Sorted and free of repeats means strictly ascending. */
  lemma SortedDistinctAscending<T(!new)>(s: seq<T>, lt: (T, T) -> bool)
    requires StrictTotalOrder(lt) && Sorted(s, lt)
    requires forall i, j :: 0 <= i < j < |s| ==> s[i] != s[j]
    ensures forall i, j :: 0 <= i < j < |s| ==> lt(s[i], s[j])
  {
  }

  /** Sorting a sequence without repeats gives one without repeats. */
  lemma SortKeepsDistinct<T>(s: seq<T>, lt: (T, T) -> bool)
    requires forall i, j :: 0 <= i < j < |s| ==> s[i] != s[j]
    ensures forall i, j :: 0 <= i < j < |Sort(s, lt)| ==> Sort(s, lt)[i] != Sort(s, lt)[j]
  {
    var r := Sort(s, lt);
    forall i, j | 0 <= i < j < |r| ensures r[i] != r[j] {
      if r[i] == r[j] {
        DistinctCountsOne(s, r[i]);
        TwoOccurrences(r, i, j);
      }
    }
  }

  /**
   * Sorting a sequence without repeats under a strict total order lists the
   * same elements, each once, in strictly ascending order.
   */
  lemma SortDistinct<T(!new)>(s: seq<T>, lt: (T, T) -> bool)
    requires StrictTotalOrder(lt)
    requires forall i, j :: 0 <= i < j < |s| ==> s[i] != s[j]
    ensures var r := Sort(s, lt);
      && |r| == |s|
      && (forall i, j :: 0 <= i < j < |r| ==> lt(r[i], r[j]))
      && (forall x :: x in r <==> x in s)
  {
    SortKeepsDistinct(s, lt);
    SortIsSorted(s, lt);
    var r := Sort(s, lt);
    assert forall i, j :: 0 <= i < j < |r| ==> r[i] != r[j];
    SortedDistinctAscending(r, lt);
    assert |r| == |s| by {
      assert |multiset(r)| == |multiset(s)|;
    }
    forall x ensures x in r <==> x in s {
      assert x in r <==> x in multiset(r);
      assert x in s <==> x in multiset(s);
    }
  }

  lemma TwoOccurrences<T>(r: seq<T>, i: nat, j: nat)
    requires i < j < |r| && r[i] == r[j]
    ensures multiset(r)[r[i]] >= 2
  {
    var a, b := r[..j], r[j..];
    assert r == a + b;
    assert a[i] == r[i];
    assert b[0] == r[i];
    assert multiset(r) == multiset(a) + multiset(b);
  }

  lemma DistinctCountsOne<T>(s: seq<T>, x: T)
    requires forall i, j :: 0 <= i < j < |s| ==> s[i] != s[j]
    ensures multiset(s)[x] <= 1
  {
    if s != [] {
      assert s == [s[0]] + s[1..];
      DistinctCountsOne(s[1..], x);
      if s[0] == x {
        assert x !in s[1..];
      }
    }
  }
}
