/**
 * What the double key table promises while no delete has disturbed a probe
 * cluster. Call a table clean when every key it stores sits exactly where
 * its own probe stops, at both levels. A new table is clean, and `Put`, `Set`
 * and the resize of `_rehash` keep it clean. On a clean table a set reads
 * back even when it resizes, and a resize keeps every stored triple and
 * `count`. `__delitem__` frees a slot without moving the rest of the cluster,
 * so a delete can leave a table that is not clean; `DoubleKeyStale` shows
 * one.
 */
module DoubleKeyClean {
  import opened Wrappers
  import opened DoubleKeySpec
  import opened DoubleKeyProps

  /** Whether slot `o` makes a probe for `key` move on. */
  predicate Blocks<X>(o: Option<(string, X)>, key: string) {
    o.Some? && o.value.0 != key
  }

  /** Every key of the nested array sits where its nested probe stops. */
  predicate SubClean<V>(sub: Sub<V>) {
    forall j :: 0 <= j < |sub| && sub[j].Some? ==>
      |sub[j].value.0| > 0 && Locate2(sub, sub[j].value.0) == Found(j)
  }

  /** Every first key sits where its top-level probe stops, and every nested array is clean. */
  predicate Clean<V>(s: State<V>)
    requires Shaped(s)
  {
    forall i :: 0 <= i < |s.slots| && s.slots[i].Some? ==>
      Locate1(s, s.slots[i].value.0) == Found(i) && SubClean(s.slots[i].value.1)
  }

  /** No two triples share both keys. */
  predicate Unique<V>(ps: seq<(string, string, V)>) {
    forall i, j :: 0 <= i < j < |ps| ==> ps[i].0 != ps[j].0 || ps[i].1 != ps[j].1
  }

  /** No two taken slots hold the same key. */
  predicate Distinct<X>(a: seq<Option<(string, X)>>) {
    forall i, j :: 0 <= i < j < |a| && a[i].Some? && a[j].Some? ==> a[i].value.0 != a[j].value.0
  }

  /**
   * A probe that stops at `p` still stops there when no slot that made it
   * move on stops doing so, and `p` still lets it stop.
   */
  lemma {:induction false} ProbeMoreBlocked<X>(a: seq<Option<(string, X)>>, b: seq<Option<(string, X)>>,
                                               key: string, start: nat, steps: nat, p: nat)
    requires start < |a| == |b| && Probe(a, key, start, steps) == Found(p)
    requires forall x :: 0 <= x < |a| && Blocks(a[x], key) ==> Blocks(b[x], key)
    requires !Blocks(b[p], key)
    ensures Probe(b, key, start, steps) == Found(p)
    decreases |a| - steps
  {
    var x := (start + steps) % |a|;
    if x != p {
      assert Blocks(a[x], key);
      ProbeMoreBlocked(a, b, key, start, steps + 1, p);
    }
  }

  /** A table just built is clean. */
  lemma InitClean<V>(sizes: seq<nat>, innerCap: nat)
    requires 0 < |sizes| && innerCap > 0
    requires forall i :: 0 <= i < |sizes| ==> sizes[i] > 0
    ensures Clean(Init<V>(sizes, innerCap))
  {
  }

  /** Writing `key2` where its probe stops keeps a nested array clean. */
  lemma SubPutClean<V>(sub: Sub<V>, key2: string, value: V, q: nat)
    requires |sub| > 0 && |key2| > 0 && SubClean(sub) && Locate2(sub, key2) == Found(q)
    ensures SubClean(sub[q := Some((key2, value))])
  {
    var sub' := sub[q := Some((key2, value))];
    forall j | 0 <= j < |sub'| && sub'[j].Some?
      ensures |sub'[j].value.0| > 0 && Locate2(sub', sub'[j].value.0) == Found(j)
    {
      var k := sub'[j].value.0;
      if j != q {
        assert Locate2(sub, k) == Found(j);
      }
      ProbeMoreBlocked(sub, sub', k, Hash2(k, |sub|), 0, j);
    }
  }

  /** `Put` keeps a table clean. */
  lemma PutClean<V>(s: State<V>, key1: string, key2: string, value: V)
    requires Shaped(s) && CountInv(s) && |key1| > 0 && |key2| > 0 && Put(s, key1, key2, value).Done?
    requires Clean(s)
    ensures Clean(Put(s, key1, key2, value).value)
  {
    var t := Put(s, key1, key2, value).value;
    var p := Locate1(s, key1).pos;
    var sub := if s.slots[p].None? then EmptySub(s.innerCap) else s.slots[p].value.1;
    var q := Locate2(sub, key2).pos;
    var sub' := sub[q := Some((key2, value))];
    assert t.slots == s.slots[p := Some((key1, sub'))];
    SubPutClean(sub, key2, value, q);
    forall i | 0 <= i < |t.slots| && t.slots[i].Some?
      ensures Locate1(t, t.slots[i].value.0) == Found(i) && SubClean(t.slots[i].value.1)
    {
      var k := t.slots[i].value.0;
      if i != p {
        assert Locate1(s, k) == Found(i);
      }
      ProbeMoreBlocked(s.slots, t.slots, k, Hash1(k, |s.slots|), 0, i);
    }
  }

  /** Where a triple of `SubEntries` comes from. */
  lemma {:induction false} SubFind<V>(key1: string, sub: Sub<V>, e: (string, string, V)) returns (j: nat)
    requires e in SubEntries(key1, sub)
    ensures e.0 == key1 && j < |sub| && sub[j] == Some((e.1, e.2))
  {
    var n := |sub| - 1;
    assert SubEntries(key1, sub) == SubEntries(key1, sub[..n]) + Triple(key1, sub[n]) by {
      match sub[n] case None => case Some(_) =>
    }
    if e in SubEntries(key1, sub[..n]) {
      j := SubFind(key1, sub[..n], e);
    } else {
      j := n;
    }
  }

  /** Where a triple of `Flatten` comes from. */
  lemma {:induction false} FlattenFind<V>(slots: Slots<V>, e: (string, string, V)) returns (i: nat, j: nat)
    requires e in Flatten(slots)
    ensures i < |slots| && slots[i].Some? && slots[i].value.0 == e.0
    ensures j < |slots[i].value.1| && slots[i].value.1[j] == Some((e.1, e.2))
  {
    var n := |slots| - 1;
    if e in Flatten(slots[..n]) {
      i, j := FlattenFind(slots[..n], e);
    } else {
      i := n;
      j := SubFind(slots[n].value.0, slots[n].value.1, e);
    }
  }

  /** On a clean table every stored triple reads back. */
  lemma CleanGet<V>(t: State<V>, e: (string, string, V))
    requires Shaped(t) && Clean(t) && e in Flatten(t.slots) && |e.0| > 0 && |e.1| > 0
    ensures Get(t, e.0, e.1) == Done(Ok(e.2))
  {
    var i, j := FlattenFind(t.slots, e);
    assert Locate1(t, e.0) == Found(i);
    assert Locate2(t.slots[i].value.1, e.1) == Found(j);
  }

  /** A clean table holds each key once per level. */
  lemma CleanDistinct<V>(s: State<V>)
    requires Shaped(s) && Clean(s)
    ensures Distinct(s.slots)
    ensures forall i :: 0 <= i < |s.slots| && s.slots[i].Some? ==> Distinct(s.slots[i].value.1)
  {
    forall i | 0 <= i < |s.slots| && s.slots[i].Some?
      ensures Distinct(s.slots[i].value.1)
    {
      var sub := s.slots[i].value.1;
      assert SubClean(sub);
      forall j, j' | 0 <= j < j' < |sub| && sub[j].Some? && sub[j'].Some?
        ensures sub[j].value.0 != sub[j'].value.0
      {
        assert Locate2(sub, sub[j].value.0) == Found(j) && Locate2(sub, sub[j'].value.0) == Found(j');
      }
    }
  }

  lemma UniqueAppend<V>(a: seq<(string, string, V)>, b: seq<(string, string, V)>)
    requires Unique(a) && Unique(b)
    requires forall x, y :: x in a && y in b ==> x.0 != y.0 || x.1 != y.1
    ensures Unique(a + b)
  {
    var c := a + b;
    forall i, j | 0 <= i < j < |c|
      ensures c[i].0 != c[j].0 || c[i].1 != c[j].1
    {
      if j < |a| {
        assert c[i] == a[i] && c[j] == a[j];
      } else if i >= |a| {
        assert c[i] == b[i - |a|] && c[j] == b[j - |a|];
      } else {
        assert c[i] in a && c[j] in b;
      }
    }
  }

  /** A nested array holding each key once lists each key pair once. */
  lemma {:induction false} SubUnique<V>(key1: string, sub: Sub<V>)
    requires Distinct(sub)
    ensures Unique(SubEntries(key1, sub))
  {
    if sub != [] {
      var n := |sub| - 1;
      var last := Triple(key1, sub[n]);
      assert SubEntries(key1, sub) == SubEntries(key1, sub[..n]) + last by {
        match sub[n] case None => case Some(_) =>
      }
      SubUnique(key1, sub[..n]);
      forall x, y | x in SubEntries(key1, sub[..n]) && y in last
        ensures x.0 != y.0 || x.1 != y.1
      {
        var j := SubFind(key1, sub[..n], x);
        assert sub[j].Some? && sub[n].Some?;
      }
      UniqueAppend(SubEntries(key1, sub[..n]), last);
    }
  }

  /** A table holding each key once per level lists each key pair once. */
  lemma {:induction false} FlattenUnique<V>(slots: Slots<V>)
    requires Distinct(slots)
    requires forall i :: 0 <= i < |slots| && slots[i].Some? ==> Distinct(slots[i].value.1)
    ensures Unique(Flatten(slots))
  {
    if slots != [] {
      var n := |slots| - 1;
      var last := SlotEntries(slots[n]);
      FlattenUnique(slots[..n]);
      if slots[n].Some? {
        SubUnique(slots[n].value.0, slots[n].value.1);
      }
      forall x, y | x in Flatten(slots[..n]) && y in last
        ensures x.0 != y.0 || x.1 != y.1
      {
        var i, _ := FlattenFind(slots[..n], x);
        var _ := SubFind(slots[n].value.0, slots[n].value.1, y);
        assert slots[i].Some? && slots[n].Some?;
      }
      UniqueAppend(Flatten(slots[..n]), last);
    }
  }

  /** The first keys among the triples. */
  ghost function FirstsOf<V>(ps: seq<(string, string, V)>): set<string> {
    if ps == [] then {} else FirstsOf(ps[..|ps| - 1]) + {ps[|ps| - 1].0}
  }

  lemma {:induction false} FirstsOfHas<V>(ps: seq<(string, string, V)>, x: (string, string, V))
    requires x in ps
    ensures x.0 in FirstsOf(ps)
  {
    var n := |ps| - 1;
    if x != ps[n] {
      assert x in ps[..n];
      FirstsOfHas(ps[..n], x);
    }
  }

  lemma {:induction false} FirstsOfFrom<V>(ps: seq<(string, string, V)>, k: string) returns (x: (string, string, V))
    requires k in FirstsOf(ps)
    ensures x in ps && x.0 == k
  {
    var n := |ps| - 1;
    if k == ps[n].0 {
      x := ps[n];
    } else {
      x := FirstsOfFrom(ps[..n], k);
    }
  }

  /** Triples equal as a multiset have the same first keys. */
  lemma FirstsOfSame<V>(a: seq<(string, string, V)>, b: seq<(string, string, V)>)
    requires multiset(a) == multiset(b)
    ensures FirstsOf(a) == FirstsOf(b)
  {
    forall k | k in FirstsOf(a) ensures k in FirstsOf(b) {
      var x := FirstsOfFrom(a, k);
      assert x in multiset(b);
      FirstsOfHas(b, x);
    }
    forall k | k in FirstsOf(b) ensures k in FirstsOf(a) {
      var x := FirstsOfFrom(b, k);
      assert x in multiset(a);
      FirstsOfHas(a, x);
    }
  }

  /**
   * In a table holding each first key once, with no empty nested array,
   * there are as many first keys among the triples as taken slots.
   */
  lemma {:induction false} CountFirsts<V>(slots: Slots<V>)
    requires Distinct(slots)
    requires forall i :: 0 <= i < |slots| && slots[i].Some? ==> !AllNone(slots[i].value.1)
    ensures |FirstsOf(Flatten(slots))| == SomeCount(slots)
  {
    if slots != [] {
      var n := |slots| - 1;
      var before, last := Flatten(slots[..n]), SlotEntries(slots[n]);
      CountFirsts(slots[..n]);
      var fs := FirstsOf(before);
      if slots[n].Some? {
        var k := slots[n].value.0;
        forall c | c in FirstsOf(before + last) ensures c in fs + {k} {
          var x := FirstsOfFrom(before + last, c);
          if x in before {
            FirstsOfHas(before, x);
          } else {
            var _ := SubFind(k, slots[n].value.1, x);
          }
        }
        forall c | c in fs + {k} ensures c in FirstsOf(before + last) {
          if c in fs {
            var x := FirstsOfFrom(before, c);
            FirstsOfHas(before + last, x);
          } else {
            var j :| 0 <= j < |slots[n].value.1| && slots[n].value.1[j].Some?;
            InSubEntries(k, slots[n].value.1, j);
            FirstsOfHas(before + last, (k, slots[n].value.1[j].value.0, slots[n].value.1[j].value.1));
          }
        }
        forall c | c in fs ensures c != k {
          var x := FirstsOfFrom(before, c);
          var i, _ := FlattenFind(slots[..n], x);
          assert slots[..n][i] == slots[i];
        }
        assert FirstsOf(before + last) == fs + {k};
      } else {
        assert before + last == before;
      }
    }
  }

  /**
   * `__setitem__` on a clean table: the table stays clean, the pair takes
   * the place of the one `__getitem__` read for the same keys, and every
   * other triple stays stored, through any resize it triggers.
   */
  lemma SetClean<V>(s: State<V>, key1: string, key2: string, value: V, bound: nat)
    requires Shaped(s) && CountInv(s) && |key1| > 0 && |key2| > 0 && Pairs(s) < bound && Clean(s)
    requires Set(s, key1, key2, value, bound).Done?
    ensures var t := Set(s, key1, key2, value, bound).value;
      && Clean(t)
      && multiset(Flatten(t.slots)) + ReadBack(s, key1, key2) == multiset(Flatten(s.slots)) + multiset{(key1, key2, value)}
    decreases Stage(s), Slack(s, bound), 1, 0
  {
    var t := Put(s, key1, key2, value).value;
    PutClean(s, key1, key2, value);
    PutFrame(s, key1, key2, value);
    if 2 * t.count >= |t.slots| {
      RehashClean(t, bound);
    }
  }

  /**
   * `_rehash` of a clean table: the new table is clean, holds exactly the
   * triples of the old one, and has the same `count`.
   */
  lemma RehashClean<V>(s: State<V>, bound: nat)
    requires Shaped(s) && CountInv(s) && Pairs(s) <= bound && 2 * s.count >= |s.slots| && Clean(s)
    requires Rehash(s, bound).Done?
    ensures var t := Rehash(s, bound).value;
      Clean(t) && multiset(Flatten(t.slots)) == multiset(Flatten(s.slots)) && t.count == s.count
    decreases Stage(s), Slack(s, bound), 0, 0
  {
    CountBelowPairs(s.slots);
    FlattenOk(s.slots);
    var a, ps := Advance(s), Flatten(s.slots);
    FlattenFree(a.slots);
    CleanDistinct(s);
    FlattenUnique(s.slots);
    ReinsertClean(a, ps, |ps|, bound);
    assert ps[..|ps|] == ps;
    var t := Rehash(s, bound).value;
    CleanDistinct(t);
    CountFirsts(t.slots);
    CountFirsts(s.slots);
    FirstsOfSame(Flatten(t.slots), ps);
  }

  /**
   * The first `n` triples of `ps`, no two sharing both keys, set one after
   * the other into an empty table: the table is clean and holds exactly
   * those triples.
   */
  lemma ReinsertClean<V>(a: State<V>, ps: seq<(string, string, V)>, n: nat, bound: nat)
    requires Shaped(a) && CountInv(a) && 2 * a.count < |a.slots| && EntriesOk(ps)
    requires n <= |ps| && Pairs(a) + n <= bound
    requires AllNone(a.slots) && Unique(ps)
    requires ReinsertAll(a, ps, n, bound).Done?
    ensures var r := ReinsertAll(a, ps, n, bound).value;
      Clean(r) && multiset(Flatten(r.slots)) == multiset(ps[..n])
    decreases Stage(a), Slack(a, bound), 3, n
  {
    if n == 0 {
      ReinsertNone(a, ps, bound);
    } else {
      var m, r, t := ReinsertLast(a, ps, n, bound);
      ReinsertStep(a, ps, m, n, bound, r, t);
    }
  }

  /** `ReinsertClean` for no triple at all. */
  lemma ReinsertNone<V>(a: State<V>, ps: seq<(string, string, V)>, bound: nat)
    requires Shaped(a) && CountInv(a) && 2 * a.count < |a.slots| && EntriesOk(ps)
    requires Pairs(a) <= bound && AllNone(a.slots)
    ensures ReinsertAll(a, ps, 0, bound) == Done(a)
    ensures Clean(a) && multiset(Flatten(a.slots)) == multiset(ps[..0])
  {
    FlattenFree(a.slots);
    assert ps[..0] == [];
  }

  /**
   * `ReinsertClean` for the first `n = m + 1` triples: `r` holds the first `m`
   * and `t` is `r` after setting triple `m`.
   */
  lemma ReinsertStep<V>(a: State<V>, ps: seq<(string, string, V)>, m: nat, n: nat, bound: nat, r: State<V>, t: State<V>)
    requires Shaped(a) && CountInv(a) && 2 * a.count < |a.slots| && EntriesOk(ps)
    requires n == m + 1 && n <= |ps| && Pairs(a) + n <= bound
    requires AllNone(a.slots) && Unique(ps)
    requires ReinsertAll(a, ps, m, bound) == Done(r)
    requires Shaped(r) && CountInv(r) && Pairs(r) < bound && NoLater(r, a, bound)
    requires Set(r, ps[m].0, ps[m].1, ps[m].2, bound) == Done(t)
    ensures Clean(t) && multiset(Flatten(t.slots)) == multiset(ps[..n])
    decreases Stage(a), Slack(a, bound), 3, n, 0
  {
    ReinsertClean(a, ps, m, bound);
    SetClean(r, ps[m].0, ps[m].1, ps[m].2, bound);
    StepFrame(r, t, ps, m, n);
  }

  /** The last step of `ReinsertAll` is a `Set` of the last triple. */
  lemma ReinsertLast<V>(a: State<V>, ps: seq<(string, string, V)>, n: nat, bound: nat) returns (m: nat, r: State<V>, t: State<V>)
    requires Shaped(a) && CountInv(a) && 2 * a.count < |a.slots| && EntriesOk(ps)
    requires 0 < n <= |ps| && Pairs(a) + n <= bound && ReinsertAll(a, ps, n, bound).Done?
    ensures m + 1 == n && ReinsertAll(a, ps, m, bound) == Done(r) && ReinsertAll(a, ps, n, bound) == Done(t)
    ensures Shaped(r) && CountInv(r) && Pairs(r) < bound && NoLater(r, a, bound)
    ensures Set(r, ps[m].0, ps[m].1, ps[m].2, bound) == Done(t)
  {
    m := n - 1;
    r := ReinsertAll(a, ps, m, bound).value;
    t := ReinsertAll(a, ps, n, bound).value;
  }

  /** Setting triple `m` into a table holding the ones before it gives a table holding the first `n = m + 1`. */
  lemma StepFrame<V>(r: State<V>, t: State<V>, ps: seq<(string, string, V)>, m: nat, n: nat)
    requires Shaped(r) && EntriesOk(ps) && Unique(ps) && n == m + 1 && n <= |ps|
    requires multiset(Flatten(r.slots)) == multiset(ps[..m])
    requires multiset(Flatten(t.slots)) + ReadBack(r, ps[m].0, ps[m].1)
      == multiset(Flatten(r.slots)) + multiset{(ps[m].0, ps[m].1, ps[m].2)}
    ensures multiset(Flatten(t.slots)) == multiset(ps[..n])
  {
    FreshReadBack(r, ps, m);
    OneMore(multiset(Flatten(t.slots)), multiset(Flatten(r.slots)), ReadBack(r, ps[m].0, ps[m].1), ps, m, n);
  }

  /** A table that held the first `m` triples and had triple `m` added holds the first `n = m + 1`. */
  lemma OneMore<T>(t: multiset<T>, r: multiset<T>, b: multiset<T>, ps: seq<T>, m: nat, n: nat)
    requires n == m + 1 && n <= |ps| && r == multiset(ps[..m]) && b == multiset{}
    requires t + b == r + multiset{ps[m]}
    ensures t == multiset(ps[..n])
  {
    assert ps[..n] == ps[..m] + [ps[m]];
  }

  /**
   * `t[key1, key2] = value` on a clean table reads back, even when it
   * resizes; the table stays clean and every other triple stays stored.
   * `SetItem` is this with one pair more than those held as `bound`.
   */
  lemma SetThenGetClean<V>(s: State<V>, key1: string, key2: string, value: V, bound: nat)
    requires Shaped(s) && CountInv(s) && |key1| > 0 && |key2| > 0 && Pairs(s) < bound && Clean(s)
    requires Set(s, key1, key2, value, bound).Done?
    ensures var t := Set(s, key1, key2, value, bound).value;
      && Clean(t) && Get(t, key1, key2) == Done(Ok(value))
      && multiset(Flatten(t.slots)) + ReadBack(s, key1, key2) == multiset(Flatten(s.slots)) + multiset{(key1, key2, value)}
  {
    var t := Set(s, key1, key2, value, bound).value;
    var e := (key1, key2, value);
    SetClean(s, key1, key2, value, bound);
    var g := Get(s, key1, key2);
    if g.Done? && g.value.Ok? {
      GetSound(s, key1, key2);
      StaysIn(multiset(Flatten(t.slots)), multiset(Flatten(s.slots)), (key1, key2, g.value.value), e);
    } else {
      assert ReadBack(s, key1, key2) == multiset{};
      assert e in multiset(Flatten(s.slots)) + multiset{e};
    }
    CleanGet(t, e);
  }
  /**
   * The same for `t[key1, key2] = value` from outside the table, whose bound
   * is the pairs held and the new one.
   */
  lemma SetItemThenGetClean<V>(s: State<V>, key1: string, key2: string, value: V)
    requires Shaped(s) && CountInv(s) && |key1| > 0 && |key2| > 0 && Clean(s)
    requires SetItem(s, key1, key2, value).Done?
    ensures var t := SetItem(s, key1, key2, value).value;
      && Clean(t) && Get(t, key1, key2) == Done(Ok(value))
      && multiset(Flatten(t.slots)) + ReadBack(s, key1, key2) == multiset(Flatten(s.slots)) + multiset{(key1, key2, value)}
  {
    var bound := Pairs(s) + 1;
    SetItemIsSet(s, key1, key2, value, bound);
    SetThenGetClean(s, key1, key2, value, bound);
  }

  /** A set from outside the table that returns is `Set` with that bound. */
  lemma SetItemIsSet<V>(s: State<V>, key1: string, key2: string, value: V, bound: nat)
    requires Shaped(s) && CountInv(s) && |key1| > 0 && |key2| > 0 && bound == Pairs(s) + 1
    ensures SetItem(s, key1, key2, value).Done? ==> SetItem(s, key1, key2, value) == Set(s, key1, key2, value, bound)
  {
  }


  /** A triple that replaced a stored one is stored. */
  lemma StaysIn<T>(t: multiset<T>, s: multiset<T>, x: T, e: T)
    requires t + multiset{x} == s + multiset{e} && x in s
    ensures e in t
  {
    assert (t + multiset{x})[e] == (s + multiset{e})[e];
  }

  /**
   * A table holding the triples before triple `m` of a list without
   * repeated key pairs reads nothing back for the keys of triple `m`.
   */
  lemma FreshReadBack<V>(r: State<V>, ps: seq<(string, string, V)>, m: nat)
    requires Shaped(r) && EntriesOk(ps) && Unique(ps) && m < |ps|
    requires multiset(Flatten(r.slots)) == multiset(ps[..m])
    ensures ReadBack(r, ps[m].0, ps[m].1) == multiset{}
  {
    forall x | x in Flatten(r.slots) ensures x.0 != ps[m].0 || x.1 != ps[m].1 {
      assert x in multiset(ps[..m]);
      var i :| 0 <= i < m && ps[i] == x;
    }
    NoReadBack(r, ps[m].0, ps[m].1);
  }

  /** A table storing no triple for the pair reads nothing back for it. */
  lemma NoReadBack<V>(s: State<V>, key1: string, key2: string)
    requires Shaped(s) && |key1| > 0 && |key2| > 0
    requires forall x :: x in Flatten(s.slots) ==> x.0 != key1 || x.1 != key2
    ensures ReadBack(s, key1, key2) == multiset{}
  {
    if Get(s, key1, key2).Done? {
      GetAbsent(s, key1, key2);
    }
  }
}
