/**
 * The list manager of computer_manager.py: a list of computers changed in
 * place, a filter by difficulty and a grouping by difficulty.
 */
module ComputerManagers {
  import opened Computers
  import Sorting

  /** Index of the first element equal to `c` (`list.index`). */
  function IndexOf(s: seq<Computer>, c: Computer): (i: nat)
    requires c in s
    ensures i < |s| && s[i] == c && c !in s[..i]
  {
    if s[0] == c then 0
    else
      assert s == [s[0]] + s[1..];
      1 + IndexOf(s[1..], c)
  }

  /** The elements of `s` whose difficulty is `d`, in list order. */
  function WithDifficulty(s: seq<Computer>, d: int): (r: seq<Computer>)
    ensures |r| <= |s| && forall c :: c in r ==> c in s && c.hackingDifficulty == d
  {
    if s == [] then []
    else
      var last := s[|s| - 1];
      assert s == s[..|s| - 1] + [last];
      WithDifficulty(s[..|s| - 1], d) + if last.hackingDifficulty == d then [last] else []
  }

  /** The filter keeps exactly the elements of difficulty `d`, with their multiplicity. */
  lemma {:induction false} WithDifficultyCounts(s: seq<Computer>, d: int)
    ensures forall c :: multiset(WithDifficulty(s, d))[c]
                     == if c.hackingDifficulty == d then multiset(s)[c] else 0
  {
    if s != [] {
      var s' := s[..|s| - 1];
      assert s == s' + [s[|s| - 1]];
      WithDifficultyCounts(s', d);
    }
  }

  /** Filtering keeps list order: it distributes over concatenation. */
  lemma {:induction false} WithDifficultyAppend(s: seq<Computer>, t: seq<Computer>, d: int)
    ensures WithDifficulty(s + t, d) == WithDifficulty(s, d) + WithDifficulty(t, d)
    decreases |t|
  {
    if t != [] {
      var t' := t[..|t| - 1];
      assert (s + t)[..|s + t| - 1] == s + t';
      var last := t[|t| - 1];
      assert (s + t)[|s + t| - 1] == last;
      var x := if last.hackingDifficulty == d then [last] else [];
      assert WithDifficulty(t, d) == WithDifficulty(t', d) + x;
      assert WithDifficulty(s + t, d) == WithDifficulty(s + t', d) + x;
      WithDifficultyAppend(s, t', d);
    } else {
      assert s + t == s;
    }
  }

  /** The difficulties occurring in `s`, gathered from the front. */
  ghost function Difficulties(s: seq<Computer>): set<int> {
    if s == [] then {} else Difficulties(s[..|s| - 1]) + {s[|s| - 1].hackingDifficulty}
  }

  /** A difficulty is gathered exactly when some computer of `s` has it. */
  lemma {:induction false} DifficultiesOccur(s: seq<Computer>)
    ensures forall d :: d in Difficulties(s) <==> exists c :: c in s && c.hackingDifficulty == d
  {
    if s != [] {
      var s', last := s[..|s| - 1], s[|s| - 1];
      assert s == s' + [last];
      DifficultiesOccur(s');
    }
  }

  /** The elements of `s` whose difficulty lies in `ds`, in list order. */
  ghost function WithDifficultyIn(s: seq<Computer>, ds: set<int>): seq<Computer> {
    if s == [] then []
    else
      var last := s[|s| - 1];
      WithDifficultyIn(s[..|s| - 1], ds) + if last.hackingDifficulty in ds then [last] else []
  }

  ghost function Concat(gs: seq<seq<Computer>>): seq<Computer> {
    if gs == [] then [] else Concat(gs[..|gs| - 1]) + gs[|gs| - 1]
  }

  lemma {:induction false} SplitFilterIn(s: seq<Computer>, ds: set<int>, d: int)
    requires d !in ds
    ensures multiset(WithDifficultyIn(s, ds + {d}))
         == multiset(WithDifficultyIn(s, ds)) + multiset(WithDifficulty(s, d))
  {
    if s != [] {
      var s', last := s[..|s| - 1], s[|s| - 1];
      SplitFilterIn(s', ds, d);
      var a := WithDifficultyIn(s', ds + {d});
      var b := WithDifficultyIn(s', ds);
      var c := WithDifficulty(s', d);
      assert WithDifficultyIn(s, ds + {d}) == a + if last.hackingDifficulty in ds + {d} then [last] else [];
      assert WithDifficultyIn(s, ds) == b + if last.hackingDifficulty in ds then [last] else [];
      assert WithDifficulty(s, d) == c + if last.hackingDifficulty == d then [last] else [];
    }
  }

  lemma {:induction false} FilterInAll(s: seq<Computer>, ds: set<int>)
    requires Difficulties(s) <= ds
    ensures WithDifficultyIn(s, ds) == s
  {
    if s != [] {
      var s' := s[..|s| - 1];
      assert s == s' + [s[|s| - 1]];
      assert Difficulties(s') <= Difficulties(s);
      FilterInAll(s', ds);
    }
  }

  /** Grouping along duplicate-free difficulties `ds` loses nothing and adds nothing. */
  lemma {:induction false} ConcatGroups(s: seq<Computer>, ds: seq<int>)
    requires forall i, j :: 0 <= i < j < |ds| ==> ds[i] != ds[j]
    ensures multiset(Concat(Groups(s, ds))) == multiset(WithDifficultyIn(s, set d | d in ds))
  {
    var gs := Groups(s, ds);
    if ds == [] {
      assert (set d | d in ds) == {};
      EmptyFilterIn(s);
    } else {
      var ds' := ds[..|ds| - 1];
      var last := ds[|ds| - 1];
      var gs' := Groups(s, ds');
      assert gs[..|gs| - 1] == gs';
      ConcatGroups(s, ds');
      assert (set d | d in ds) == (set d | d in ds') + {last};
      assert last !in ds';
      SplitFilterIn(s, (set d | d in ds'), last);
    }
  }

  lemma {:induction false} EmptyFilterIn(s: seq<Computer>)
    ensures WithDifficultyIn(s, {}) == []
  {
    if s != [] {
      EmptyFilterIn(s[..|s| - 1]);
    }
  }

  class ComputerManager {
    var computers: seq<Computer>

    constructor ()
      ensures computers == []
    {
      computers := [];
    }

    /** Appends `c` unless an equal computer is already listed. */
    method AddComputer(c: Computer)
      modifies this
      ensures c in old(computers) ==> computers == old(computers)
      ensures c !in old(computers) ==> computers == old(computers) + [c]
      ensures (forall i, j :: 0 <= i < j < |old(computers)| ==> old(computers)[i] != old(computers)[j])
           ==> forall i, j :: 0 <= i < j < |computers| ==> computers[i] != computers[j]
    {
      if c !in computers {
        computers := computers + [c];
      }
    }

    /** Removes the first computer equal to `c`, if there is one. */
    method RemoveComputer(c: Computer)
      modifies this
      ensures c !in old(computers) ==> computers == old(computers)
      ensures c in old(computers) ==>
        var i := IndexOf(old(computers), c);
        computers == old(computers)[..i] + old(computers)[i + 1..] && |computers| == |old(computers)| - 1
    {
      if c in computers {
        var i := IndexOf(computers, c);
        computers := computers[..i] + computers[i + 1..];
      }
    }

    /** Puts `replacement` in place of the first computer equal to `previous`, if any. */
    method EditComputer(previous: Computer, replacement: Computer)
      modifies this
      ensures previous !in old(computers) ==> computers == old(computers)
      ensures previous in old(computers) ==>
        var i := IndexOf(old(computers), previous);
        && |computers| == |old(computers)|
        && computers[i] == replacement
        && forall j :: 0 <= j < |computers| && j != i ==> computers[j] == old(computers)[j]
    {
      if previous in computers {
        var i := IndexOf(computers, previous);
        computers := computers[i := replacement];
      }
    }

    /** The listed computers of difficulty `d`, in list order. */
    function ComputersWithDifficulty(d: int): (r: seq<Computer>)
      reads this
      ensures forall c :: c in r ==> c.hackingDifficulty == d
      ensures forall c :: c in computers && c.hackingDifficulty == d ==> c in r
      ensures |r| <= |computers|
    {
      WithDifficultyCounts(computers, d);
      assert forall c :: c in computers <==> multiset(computers)[c] > 0;
      assert forall c :: c in WithDifficulty(computers, d) <==> multiset(WithDifficulty(computers, d))[c] > 0;
      WithDifficultyLength(computers, d);
      WithDifficulty(computers, d)
    }

    /**
     * One group per difficulty present, in ascending difficulty; each group
     * holds that difficulty's computers in list order.
     */
    method GroupByDifficulty() returns (groups: seq<seq<Computer>>)
      ensures forall g :: 0 <= g < |groups| ==> groups[g] != []
      ensures forall g :: 0 <= g < |groups| ==>
        groups[g] == WithDifficulty(computers, groups[g][0].hackingDifficulty)
      ensures forall g, h :: 0 <= g < h < |groups| ==>
        groups[g][0].hackingDifficulty < groups[h][0].hackingDifficulty
      ensures multiset(Concat(groups)) == multiset(computers)
    {
      var all := computers;
      var grouped, order := Bucket(all);
      var diffs := Sorting.Sort(order, (a: int, b: int) => a < b);
      SortedDifficulties(order, diffs);
      forall k | 0 <= k < |diffs| ensures diffs[k] in grouped {
        assert diffs[k] in diffs;
      }
      groups := seq(|diffs|, k requires 0 <= k < |diffs| => grouped[diffs[k]]);
      assert groups == Groups(all, diffs);
      GroupsByDifficulty(computers, diffs);
    }
  }

  /**
   * One pass over `s` collecting each difficulty's computers in list order,
   * and the difficulties in order of first appearance.
   */
  method Bucket(s: seq<Computer>) returns (grouped: map<int, seq<Computer>>, order: seq<int>)
    ensures grouped.Keys == Difficulties(s)
    ensures forall d :: d in grouped ==> grouped[d] == WithDifficulty(s, d)
    ensures forall d :: d in grouped <==> d in order
    ensures forall a, b :: 0 <= a < b < |order| ==> order[a] != order[b]
  {
    grouped, order := map[], [];
    for i := 0 to |s|
      invariant Bucketed(s[..i], grouped, order)
    {
      grouped, order := BucketOne(s[..i], s[i], grouped, order);
      assert s[..i + 1] == s[..i] + [s[i]];
    }
    assert s[..|s|] == s;
  }

  /** Files computer `comp` under its difficulty, opening a group if it is the first. */
  method BucketOne(ghost done: seq<Computer>, comp: Computer, grouped: map<int, seq<Computer>>, order: seq<int>)
    returns (grouped': map<int, seq<Computer>>, order': seq<int>)
    requires Bucketed(done, grouped, order)
    ensures Bucketed(done + [comp], grouped', order')
  {
    var diff := comp.hackingDifficulty;
    grouped', order' := grouped, order;
    if diff !in grouped' {
      grouped' := grouped'[diff := []];
      order' := order' + [diff];
    }
    grouped' := grouped'[diff := grouped'[diff] + [comp]];
    BucketStep(done, comp, grouped, order, grouped', order');
  }

  /** What `Bucket` has gathered from the computers `done`. */
  ghost predicate Bucketed(done: seq<Computer>, grouped: map<int, seq<Computer>>, order: seq<int>) {
    && grouped.Keys == Difficulties(done)
    && (forall d :: d in grouped ==> grouped[d] == WithDifficulty(done, d))
    && (forall d :: d in grouped <==> d in order)
    && (forall a, b :: 0 <= a < b < |order| ==> order[a] != order[b])
  }

  /**
   * One more computer: a new difficulty opens an empty group at the end
   * of `order`, then the computer joins its group.
   */
  lemma BucketStep(done: seq<Computer>, c: Computer, grouped: map<int, seq<Computer>>, order: seq<int>,
                   grouped': map<int, seq<Computer>>, order': seq<int>)
    requires Bucketed(done, grouped, order)
    requires var d := c.hackingDifficulty;
      var g := if d in grouped then grouped else grouped[d := []];
      grouped' == g[d := g[d] + [c]] && order' == if d in grouped then order else order + [d]
    ensures Bucketed(done + [c], grouped', order')
  {
    var d := c.hackingDifficulty;
    if d !in grouped {
      assert grouped[d := []][d := [] + [c]] == grouped[d := [] + [c]];
    }
    GroupsStep(done, c, grouped, grouped');
    OrderStep(grouped, order, d, order');
  }

  lemma GroupsStep(p: seq<Computer>, c: Computer, grouped: map<int, seq<Computer>>, g': map<int, seq<Computer>>)
    requires grouped.Keys == Difficulties(p)
    requires forall d :: d in grouped ==> grouped[d] == WithDifficulty(p, d)
    requires var d := c.hackingDifficulty;
      g' == grouped[d := (if d in grouped then grouped[d] else []) + [c]]
    ensures g'.Keys == Difficulties(p + [c])
    ensures forall d :: d in g' ==> g'[d] == WithDifficulty(p + [c], d)
  {
    var d := c.hackingDifficulty;
    assert g'.Keys == Difficulties(p + [c]) by {
      DifficultiesSnoc(p, c);
    }
    forall e | e in g' ensures g'[e] == WithDifficulty(p + [c], e) {
      WithDifficultySnoc(p, c, e);
      if e != d {
        assert g'[e] == grouped[e];
      } else if d !in grouped {
        NoneOfDifficulty(p, d);
      }
    }
  }

  lemma OrderStep(grouped: map<int, seq<Computer>>, order: seq<int>, d: int, o': seq<int>)
    requires (forall e :: e in grouped <==> e in order)
    requires (forall a, b :: 0 <= a < b < |order| ==> order[a] != order[b])
    requires o' == if d in grouped then order else order + [d]
    ensures forall e :: e in grouped || e == d <==> e in o'
    ensures forall a, b :: 0 <= a < b < |o'| ==> o'[a] != o'[b]
  {
    forall a, b | 0 <= a < b < |o'| ensures o'[a] != o'[b] {
      if d !in grouped && b == |order| {
        assert o'[a] == order[a] && o'[a] in grouped;
      }
    }
  }

  /** One computer more adds its difficulty. */
  lemma DifficultiesSnoc(s: seq<Computer>, c: Computer)
    ensures Difficulties(s + [c]) == Difficulties(s) + {c.hackingDifficulty}
  {
    assert (s + [c])[..|s|] == s;
  }

  /** One computer more joins the group of its own difficulty only. */
  lemma WithDifficultySnoc(s: seq<Computer>, c: Computer, d: int)
    ensures WithDifficulty(s + [c], d) == WithDifficulty(s, d) + if c.hackingDifficulty == d then [c] else []
  {
    assert (s + [c])[..|s|] == s;
  }

  lemma WithDifficultyLength(s: seq<Computer>, d: int)
    ensures |WithDifficulty(s, d)| <= |s|
  {
    if s != [] {
      WithDifficultyLength(s[..|s| - 1], d);
    }
  }

  lemma {:induction false} NoneOfDifficulty(s: seq<Computer>, d: int)
    requires d !in Difficulties(s)
    ensures WithDifficulty(s, d) == []
  {
    if s != [] {
      var s' := s[..|s| - 1];
      assert Difficulties(s') <= Difficulties(s);
      NoneOfDifficulty(s', d);
    }
  }

  /** A difficulty that occurs has a non-empty group, all of that difficulty. */
  lemma {:induction false} FirstOfDifficulty(s: seq<Computer>, d: int)
    requires d in Difficulties(s)
    ensures WithDifficulty(s, d) != [] && WithDifficulty(s, d)[0].hackingDifficulty == d
  {
    var s', last := s[..|s| - 1], s[|s| - 1];
    if d in Difficulties(s') {
      FirstOfDifficulty(s', d);
    } else {
      NoneOfDifficulty(s', d);
    }
  }

  lemma SortedDifficulties(order: seq<int>, diffs: seq<int>)
    requires forall a, b :: 0 <= a < b < |order| ==> order[a] != order[b]
    requires diffs == Sorting.Sort(order, (a: int, b: int) => a < b)
    ensures forall d :: d in diffs <==> d in order
    ensures forall a, b :: 0 <= a < b < |diffs| ==> diffs[a] < diffs[b]
  {
    var lt := (a: int, b: int) => a < b;
    Sorting.SortIsSorted(order, lt);
    Sorting.SortKeepsDistinct(order, lt);
    Sorting.SortedDistinctAscending(diffs, lt);
    forall d ensures d in diffs <==> d in order {
      assert d in diffs <==> d in multiset(diffs);
      assert d in order <==> d in multiset(order);
    }
  }

  /** The computers of `s` of each difficulty of `diffs`, in the order of `diffs`. */
  function Groups(s: seq<Computer>, diffs: seq<int>): seq<seq<Computer>> {
    seq(|diffs|, k requires 0 <= k < |diffs| => WithDifficulty(s, diffs[k]))
  }

  /**
   * Filtering by each difficulty of `s`, in ascending order, gives non-empty
   * single-difficulty groups in ascending order that together are `s`
   * rearranged.
   */
  lemma GroupsByDifficulty(s: seq<Computer>, diffs: seq<int>)
    requires forall d :: d in diffs <==> d in Difficulties(s)
    requires forall a, b :: 0 <= a < b < |diffs| ==> diffs[a] < diffs[b]
    ensures var groups := Groups(s, diffs);
      && (forall g :: 0 <= g < |groups| ==> groups[g] != [])
      && (forall g :: 0 <= g < |groups| ==> groups[g] == WithDifficulty(s, groups[g][0].hackingDifficulty))
      && (forall g, h :: 0 <= g < h < |groups| ==> groups[g][0].hackingDifficulty < groups[h][0].hackingDifficulty)
      && multiset(Concat(groups)) == multiset(s)
  {
    var groups: seq<seq<Computer>> := Groups(s, diffs);
    forall g | 0 <= g < |groups|
      ensures groups[g] != [] && groups[g][0].hackingDifficulty == diffs[g]
      ensures groups[g] == WithDifficulty(s, groups[g][0].hackingDifficulty)
    {
      FirstOfDifficulty(s, diffs[g]);
    }
    forall g, h | 0 <= g < h < |groups|
      ensures groups[g][0].hackingDifficulty < groups[h][0].hackingDifficulty
    {
      assert groups[g][0].hackingDifficulty == diffs[g] && groups[h][0].hackingDifficulty == diffs[h];
    }
    ConcatGroups(s, diffs);
    assert (set d | d in diffs) == Difficulties(s) by {
      forall d ensures d in (set d | d in diffs) <==> d in Difficulties(s) {
      }
    }
    FilterInAll(s, Difficulties(s));
  }
}
