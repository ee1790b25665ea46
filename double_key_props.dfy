/**
 * What the double key table promises, and where it falls short: lookups
 * after a set or a delete, the meaning of `count`, when the probes loop,
 * and what `keys` and `values` list.
 */
module DoubleKeyProps {
  import opened Wrappers
  import opened DoubleKeySpec

  /**
   * Changing slots other than the one a probe stops at, and keeping that
   * one free or holding the probed key, leaves the probe's answer alone.
   */
  lemma {:induction false} ProbeStable<X>(a: seq<Option<(string, X)>>, b: seq<Option<(string, X)>>,
                                          key: string, start: nat, steps: nat, p: nat)
    requires start < |a| == |b| && Probe(a, key, start, steps) == Found(p)
    requires b[p].None? || b[p].value.0 == key
    requires forall i :: 0 <= i < |a| && i != p ==> b[i] == a[i]
    ensures Probe(b, key, start, steps) == Found(p)
    decreases |a| - steps
  {
    var x := (start + steps) % |a|;
    if x != p {
      ProbeStable(a, b, key, start, steps + 1, p);
    }
  }

  /** A probe loops exactly when every slot is taken by another key. */
  lemma ProbeLoops<X>(a: seq<Option<(string, X)>>, key: string, start: nat)
    requires start < |a|
    ensures Probe(a, key, start, 0).Loops? <==> forall i :: 0 <= i < |a| ==> a[i].Some? && a[i].value.0 != key
  {
    if Probe(a, key, start, 0).Loops? {
      forall i | 0 <= i < |a|
        ensures a[i].Some? && a[i].value.0 != key
      {
        var d := if i >= start then i - start else i + |a| - start;
        ModWrap(i, |a|);
        ProbeSkips(a, key, start, 0, d);
      }
    } else {
      var p := Probe(a, key, start, 0).pos;
      assert a[p].None? || a[p].value.0 == key;
    }
  }

  lemma ModWrap(i: nat, n: nat)
    requires i < n
    ensures i % n == i && (i + n) % n == i
  {
  }

  lemma {:induction false} ProbeSkips<X>(a: seq<Option<(string, X)>>, key: string, start: nat, steps: nat, d: nat)
    requires start < |a| && steps <= d < |a| && Probe(a, key, start, steps).Loops?
    ensures var x := (start + d) % |a|; a[x].Some? && a[x].value.0 != key
    decreases d - steps
  {
    if steps < d {
      ProbeSkips(a, key, start, steps + 1, d);
    }
  }

  /** An array with every slot taken has as many taken slots as slots. */
  lemma SomeCountFull<X>(a: seq<Option<X>>)
    requires forall i :: 0 <= i < |a| ==> a[i].Some?
    ensures SomeCount(a) == |a|
  {
    if a != [] {
      SomeCountFull(a[..|a| - 1]);
    }
  }

  /**
   * With `count` below half the size, the top-level probe always stops:
   * some top-level slot is free.
   */
  lemma TopProbeStops<V>(s: State<V>, key1: string)
    requires Shaped(s) && CountInv(s) && 2 * s.count < |s.slots| && |key1| > 0
    ensures Locate1(s, key1).Found?
  {
    var start := Hash1(key1, |s.slots|);
    ProbeLoops(s.slots, key1, start);
    if Locate1(s, key1).Loops? {
      SomeCountFull(s.slots);
    }
  }

  /** `(key1, key2, value)` is among the triples when a slot pair holds it. */
  lemma {:induction false} InSubEntries<V>(key1: string, sub: Sub<V>, q: nat)
    requires q < |sub| && sub[q].Some?
    ensures (key1, sub[q].value.0, sub[q].value.1) in SubEntries(key1, sub)
  {
    if q < |sub| - 1 {
      InSubEntries(key1, sub[..|sub| - 1], q);
    }
  }

  lemma {:induction false} InFlatten<V>(slots: Slots<V>, p: nat, q: nat)
    requires p < |slots| && slots[p].Some? && q < |slots[p].value.1| && slots[p].value.1[q].Some?
    ensures var e := slots[p].value.1[q].value;
      (slots[p].value.0, e.0, e.1) in Flatten(slots)
  {
    if p < |slots| - 1 {
      InFlatten(slots[..|slots| - 1], p, q);
    } else {
      InSubEntries(slots[p].value.0, slots[p].value.1, q);
    }
  }

  /** `__getitem__` only ever returns a value the table holds under both keys. */
  lemma GetSound<V>(s: State<V>, key1: string, key2: string)
    requires Shaped(s) && |key1| > 0 && |key2| > 0 && Get(s, key1, key2).Done?
    ensures Get(s, key1, key2).value.Ok? ==> (key1, key2, Get(s, key1, key2).value.value) in Flatten(s.slots)
  {
    if Get(s, key1, key2).value.Ok? {
      var p := Locate1(s, key1).pos;
      var q := Locate2(s.slots[p].value.1, key2).pos;
      InFlatten(s.slots, p, q);
    }
  }

  /**
   * A lookup of a pair the table does not hold raises KeyError, whether the
   * first key is missing or only the second.
   */
  lemma GetAbsent<V>(s: State<V>, key1: string, key2: string)
    requires Shaped(s) && |key1| > 0 && |key2| > 0 && Get(s, key1, key2).Done?
    requires forall e :: e in Flatten(s.slots) ==> e.0 != key1 || e.1 != key2
    ensures Get(s, key1, key2) == Done(Err(KeyError))
  {
    GetSound(s, key1, key2);
  }

  /** Right after `Put`, the pair reads back. */
  lemma PutThenGet<V>(s: State<V>, key1: string, key2: string, value: V)
    requires Shaped(s) && CountInv(s) && |key1| > 0 && |key2| > 0 && Put(s, key1, key2, value).Done?
    ensures Get(Put(s, key1, key2, value).value, key1, key2) == Done(Ok(value))
  {
    var t := Put(s, key1, key2, value).value;
    var p := Locate1(s, key1).pos;
    var sub := if s.slots[p].None? then EmptySub(s.innerCap) else s.slots[p].value.1;
    var q := Locate2(sub, key2).pos;
    var sub' := sub[q := Some((key2, value))];
    assert t.slots == s.slots[p := Some((key1, sub'))];
    ProbeStable(s.slots, t.slots, key1, Hash1(key1, |s.slots|), 0, p);
    ProbeStable(sub, sub', key2, Hash2(key2, |sub|), 0, q);
  }

  /**
   * A set that does not resize reads back: `t[k1, k2]` is `value` after
   * `t[k1, k2] = value`.
   */
  lemma SetThenGet<V>(s: State<V>, key1: string, key2: string, value: V, bound: nat)
    requires Shaped(s) && CountInv(s) && |key1| > 0 && |key2| > 0 && Pairs(s) < bound
    requires Put(s, key1, key2, value).Done? && 2 * Put(s, key1, key2, value).value.count < |s.slots|
    ensures Set(s, key1, key2, value, bound) == Put(s, key1, key2, value)
    ensures Get(Set(s, key1, key2, value, bound).value, key1, key2) == Done(Ok(value))
  {
    PutThenGet(s, key1, key2, value);
  }

  /**
   * `__delitem__` raises KeyError exactly when `__getitem__` would; after a
   * delete the pair no longer reads back, the invariants hold, `count`
   * drops exactly when the top-level slot of `key1` was cleared, and every
   * other triple stays stored.
   */
  lemma DeleteCorrect<V>(s: State<V>, key1: string, key2: string)
    requires Shaped(s) && CountInv(s) && |key1| > 0 && |key2| > 0
    ensures Delete(s, key1, key2).Done? <==> Get(s, key1, key2).Done?
    ensures Delete(s, key1, key2) == Done(Err(KeyError)) <==> Get(s, key1, key2) == Done(Err(KeyError))
    ensures Delete(s, key1, key2).Done? && Delete(s, key1, key2).value.Ok? ==>
      var t := Delete(s, key1, key2).value.value;
      && Shaped(t) && CountInv(t) && Pairs(t) + 1 == Pairs(s)
      && Get(t, key1, key2) == Done(Err(KeyError))
      && t.count == s.count - (if Holds1(t, key1) then 0 else 1)
      && t.sizes == s.sizes && t.sizeIndex == s.sizeIndex
      && multiset(Flatten(t.slots)) + ReadBack(s, key1, key2) == multiset(Flatten(s.slots))
  {
    var d := Delete(s, key1, key2);
    if d.Done? && d.value.Ok? {
      var p := Locate1(s, key1).pos;
      var q := Locate2(s.slots[p].value.1, key2).pos;
      DeleteAt(s, key1, key2, p, q);
      DeleteFrame(s, key1, key2);
    }
  }

  lemma DeleteAt<V>(s: State<V>, key1: string, key2: string, p: nat, q: nat)
    requires Shaped(s) && CountInv(s) && |key1| > 0 && |key2| > 0
    requires Locate1(s, key1) == Found(p) && s.slots[p].Some?
    requires Locate2(s.slots[p].value.1, key2) == Found(q) && s.slots[p].value.1[q].Some?
    ensures Delete(s, key1, key2).Done? && Delete(s, key1, key2).value.Ok?
    ensures var t := Delete(s, key1, key2).value.value;
      && Shaped(t) && CountInv(t) && Pairs(t) + 1 == Pairs(s)
      && Get(t, key1, key2) == Done(Err(KeyError))
      && t.count == s.count - (if Holds1(t, key1) then 0 else 1)
      && t.sizes == s.sizes && t.sizeIndex == s.sizeIndex
  {
    var t := Delete(s, key1, key2).value.value;
    var sub := s.slots[p].value.1;
    var sub' := sub[q := None];
    SomeCountUpdate(sub, q, None);
    SubEntriesCount(key1, sub);
    SubEntriesCount(key1, sub');
    if AllNone(sub') {
      DeleteClears(s, key1, p, sub');
    } else {
      DeleteKeeps(s, key1, key2, p, q, t);
    }
  }

  lemma DeleteKeeps<V>(s: State<V>, key1: string, key2: string, p: nat, q: nat, t: State<V>)
    requires Shaped(s) && CountInv(s) && |key1| > 0 && |key2| > 0
    requires Locate1(s, key1) == Found(p) && s.slots[p].Some?
    requires Locate2(s.slots[p].value.1, key2) == Found(q) && s.slots[p].value.1[q].Some?
    requires !AllNone(s.slots[p].value.1[q := None])
    requires t == s.(slots := s.slots[p := Some((key1, s.slots[p].value.1[q := None]))])
    ensures Shaped(t) && CountInv(t) && Pairs(t) + 1 == Pairs(s)
    ensures Locate1(t, key1) == Found(p) && Locate2(t.slots[p].value.1, key2) == Found(q)
  {
    var sub := s.slots[p].value.1;
    var sub' := sub[q := None];
    KeepsShape(s, key1, p, q, t);
    ProbeStable(s.slots, t.slots, key1, Hash1(key1, |s.slots|), 0, p);
    ProbeStable(sub, sub', key2, Hash2(key2, |sub|), 0, q);
  }

  lemma KeepsShape<V>(s: State<V>, key1: string, p: nat, q: nat, t: State<V>)
    requires Shaped(s) && CountInv(s) && |key1| > 0
    requires p < |s.slots| && s.slots[p].Some? && s.slots[p].value.0 == key1
    requires q < |s.slots[p].value.1| && s.slots[p].value.1[q].Some?
    requires !AllNone(s.slots[p].value.1[q := None])
    requires t == s.(slots := s.slots[p := Some((key1, s.slots[p].value.1[q := None]))])
    ensures Shaped(t) && CountInv(t) && Pairs(t) + 1 == Pairs(s)
  {
    var sub := s.slots[p].value.1;
    var sub' := sub[q := None];
    SomeCountUpdate(sub, q, None);
    ShapedUpdate(s, p, Some((key1, sub')), t);
    SomeCountUpdate(s.slots, p, Some((key1, sub')));
    FlattenUpdate(s.slots, p, Some((key1, sub')));
    SubEntriesCount(key1, sub);
    SubEntriesCount(key1, sub');
  }

  lemma DeleteClears<V>(s: State<V>, key1: string, p: nat, sub': Sub<V>)
    requires Shaped(s) && CountInv(s) && |key1| > 0
    requires Locate1(s, key1) == Found(p) && s.slots[p].Some?
    requires AllNone(sub') && |SubEntries(key1, s.slots[p].value.1)| == |SubEntries(key1, sub')| + 1
    ensures var t := s.(slots := s.slots[p := None], count := s.count - 1);
      && Shaped(t) && CountInv(t) && Pairs(t) + 1 == Pairs(s) && Locate1(t, key1) == Found(p)
  {
    var t := s.(slots := s.slots[p := None], count := s.count - 1);
    ShapedUpdate(s, p, None, t);
    SomeCountUpdate(s.slots, p, None);
    FlattenUpdate(s.slots, p, None);
    AllNoneCount(sub');
    SubEntriesCount(key1, sub');
    SubEntriesCount(s.slots[p].value.0, s.slots[p].value.1);
    ProbeStable(s.slots, t.slots, key1, Hash1(key1, |s.slots|), 0, p);
  }

  /**
   * `keys()`: one first key per taken top-level slot, so under the counter
   * invariant exactly `len(self)` of them, and a key is listed exactly when
   * some top-level slot holds it.
   */
  lemma KeysAll<V>(s: State<V>)
    requires Shaped(s) && CountInv(s)
    ensures Keys(s, None).Done? && Keys(s, None).value.Ok?
    ensures |Keys(s, None).value.value| == s.count
    ensures forall k :: k in Keys(s, None).value.value <==>
      exists i :: 0 <= i < |s.slots| && s.slots[i].Some? && s.slots[i].value.0 == k
  {
    FirstKeysFacts(s.slots);
  }

  lemma {:induction false} FirstKeysFacts<V>(slots: Slots<V>)
    ensures |FirstKeys(slots)| == SomeCount(slots)
    ensures forall k :: k in FirstKeys(slots) <==>
      exists i :: 0 <= i < |slots| && slots[i].Some? && slots[i].value.0 == k
  {
    if slots != [] {
      var n := |slots| - 1;
      FirstKeysFacts(slots[..n]);
      forall k | k in FirstKeys(slots)
        ensures exists i :: 0 <= i < |slots| && slots[i].Some? && slots[i].value.0 == k
      {
        if k in FirstKeys(slots[..n]) {
          var i :| 0 <= i < n && slots[..n][i].Some? && slots[..n][i].value.0 == k;
          assert slots[i] == slots[..n][i];
        }
      }
      forall k | exists i :: 0 <= i < |slots| && slots[i].Some? && slots[i].value.0 == k
        ensures k in FirstKeys(slots)
      {
        var i :| 0 <= i < |slots| && slots[i].Some? && slots[i].value.0 == k;
        if i < n {
          assert slots[..n][i] == slots[i];
        }
      }
    }
  }

  lemma {:induction false} SubKeysFacts<V>(sub: Sub<V>)
    ensures |SubKeys(sub)| == SomeCount(sub) && |SubValues(sub)| == SomeCount(sub)
    ensures forall k :: k in SubKeys(sub) <==> exists j :: 0 <= j < |sub| && sub[j].Some? && sub[j].value.0 == k
  {
    if sub != [] {
      var n := |sub| - 1;
      SubKeysFacts(sub[..n]);
      forall k | k in SubKeys(sub)
        ensures exists j :: 0 <= j < |sub| && sub[j].Some? && sub[j].value.0 == k
      {
        if k in SubKeys(sub[..n]) {
          var j :| 0 <= j < n && sub[..n][j].Some? && sub[..n][j].value.0 == k;
          assert sub[j] == sub[..n][j];
        }
      }
      forall k | exists j :: 0 <= j < |sub| && sub[j].Some? && sub[j].value.0 == k
        ensures k in SubKeys(sub)
      {
        var j :| 0 <= j < |sub| && sub[j].Some? && sub[j].value.0 == k;
        if j < n {
          assert sub[..n][j] == sub[j];
        }
      }
    }
  }

  /**
   * `keys(k)`: KeyError exactly when the top-level probe for `k` stops at a
   * free slot; otherwise the second keys held in the nested array it stops
   * at, one per taken slot.
   */
  lemma KeysOf<V>(s: State<V>, k: string)
    requires Shaped(s) && CountInv(s) && 2 * s.count < |s.slots| && |k| > 0
    ensures Keys(s, Some(k)).Done?
    ensures Keys(s, Some(k)) == Done(Err(KeyError)) <==> !Holds1(s, k)
    ensures Holds1(s, k) ==> var sub := s.slots[Locate1(s, k).pos].value.1;
      && Keys(s, Some(k)) == Done(Ok(SubKeys(sub))) && 0 < |SubKeys(sub)|
      && forall k2 :: k2 in SubKeys(sub) <==> exists j :: 0 <= j < |sub| && sub[j].Some? && sub[j].value.0 == k2
  {
    TopProbeStops(s, k);
    if Holds1(s, k) {
      var sub := s.slots[Locate1(s, k).pos].value.1;
      SubKeysFacts(sub);
      AllNoneCount(sub);
    }
  }

  /** The third components of a sequence of triples. */
  function Thirds<V>(ps: seq<(string, string, V)>): (vs: seq<V>)
    ensures |vs| == |ps| && forall i :: 0 <= i < |ps| ==> vs[i] == ps[i].2
  {
    seq(|ps|, i requires 0 <= i < |ps| => ps[i].2)
  }

  /**
   * `values()`: the values in exactly the order `_rehash` re-inserts the
   * pairs, one per pair held.
   */
  lemma {:induction false} ValuesAll<V>(slots: Slots<V>)
    ensures AllValues(slots) == Thirds(Flatten(slots))
  {
    if slots != [] {
      var n := |slots| - 1;
      ValuesAll(slots[..n]);
      if slots[n].Some? {
        SubValuesThirds(slots[n].value.0, slots[n].value.1);
      }
      assert Thirds(Flatten(slots)) == Thirds(Flatten(slots[..n])) + Thirds(SlotEntries(slots[n]));
    }
  }

  lemma {:induction false} SubValuesThirds<V>(key1: string, sub: Sub<V>)
    ensures SubValues(sub) == Thirds(SubEntries(key1, sub))
  {
    if sub != [] {
      var n := |sub| - 1;
      SubValuesThirds(key1, sub[..n]);
      var last := match sub[n] case None => [] case Some(e) => [(key1, e.0, e.1)];
      assert Thirds(SubEntries(key1, sub)) == Thirds(SubEntries(key1, sub[..n])) + Thirds(last);
    }
  }

  /** The triple one nested slot contributes to `SubEntries`. */
  function Triple<V>(key1: string, slot: Option<(string, V)>): seq<(string, string, V)> {
    match slot
    case None => []
    case Some(e) => [(key1, e.0, e.1)]
  }

  /**
   * The triple `__getitem__` reads for `(key1, key2)`: one triple when it
   * returns a value, none when it raises or never returns.
   */
  ghost function ReadBack<V>(s: State<V>, key1: string, key2: string): multiset<(string, string, V)>
    requires Shaped(s) && |key1| > 0 && |key2| > 0
  {
    match Get(s, key1, key2)
    case Done(Ok(v)) => multiset{(key1, key2, v)}
    case _ => multiset{}
  }

  /** Writing one nested slot swaps that slot's triple for the new one. */
  lemma {:induction false} SubEntriesSwap<V>(key1: string, sub: Sub<V>, q: nat, x: Option<(string, V)>)
    requires q < |sub|
    ensures multiset(SubEntries(key1, sub[q := x])) + multiset(Triple(key1, sub[q]))
         == multiset(SubEntries(key1, sub)) + multiset(Triple(key1, x))
  {
    var n, b := |sub| - 1, sub[q := x];
    var before, after := SubEntries(key1, sub[..n]), SubEntries(key1, b[..n]);
    assert SubEntries(key1, sub) == before + Triple(key1, sub[n]) by {
      match sub[n] case None => case Some(_) =>
    }
    assert SubEntries(key1, b) == after + Triple(key1, b[n]) by {
      match b[n] case None => case Some(_) =>
    }
    if q == n {
      assert b[..n] == sub[..n];
      Rearrange(multiset(after), multiset(before), multiset(Triple(key1, x)), multiset(Triple(key1, sub[n])));
    } else {
      assert b[..n] == sub[..n][q := x];
      SubEntriesSwap(key1, sub[..n], q, x);
      Shift(multiset(after), multiset(before), multiset(Triple(key1, sub[q])), multiset(Triple(key1, x)),
            multiset(Triple(key1, sub[n])));
    }
  }

  lemma Rearrange<T>(a: multiset<T>, b: multiset<T>, x: multiset<T>, y: multiset<T>)
    requires a == b
    ensures (a + x) + y == (b + y) + x
  {
  }

  lemma Shift<T>(a: multiset<T>, b: multiset<T>, x: multiset<T>, y: multiset<T>, z: multiset<T>)
    requires a + x == b + y
    ensures (a + z) + x == (b + z) + y
  {
    forall e ensures ((a + z) + x)[e] == ((b + z) + y)[e] {
      assert (a + x)[e] == (b + y)[e];
    }
  }

  /** Writing one top-level slot swaps that slot's triples for the new ones. */
  lemma {:induction false} FlattenSwap<V>(slots: Slots<V>, p: nat, x: Option<(string, Sub<V>)>)
    requires p < |slots|
    ensures multiset(Flatten(slots[p := x])) + multiset(SlotEntries(slots[p]))
         == multiset(Flatten(slots)) + multiset(SlotEntries(x))
  {
    var n, b := |slots| - 1, slots[p := x];
    var before, after := Flatten(slots[..n]), Flatten(b[..n]);
    assert Flatten(slots) == before + SlotEntries(slots[n]);
    assert Flatten(b) == after + SlotEntries(b[n]);
    if p == n {
      assert b[..n] == slots[..n];
      Rearrange(multiset(after), multiset(before), multiset(SlotEntries(x)), multiset(SlotEntries(slots[n])));
    } else {
      assert b[..n] == slots[..n][p := x];
      FlattenSwap(slots[..n], p, x);
      Shift(multiset(after), multiset(before), multiset(SlotEntries(slots[p])), multiset(SlotEntries(x)),
            multiset(SlotEntries(slots[n])));
    }
  }

  lemma FreeSubEntries<V>(key1: string, sub: Sub<V>)
    requires AllNone(sub)
    ensures SubEntries(key1, sub) == []
  {
    AllNoneCount(sub);
    SubEntriesCount(key1, sub);
  }

  /**
   * What `Put` stores: every triple held before except the one `__getitem__`
   * read for `(key1, key2)`, and the new triple.
   */
  lemma PutFrame<V>(s: State<V>, key1: string, key2: string, value: V)
    requires Shaped(s) && CountInv(s) && |key1| > 0 && |key2| > 0 && Put(s, key1, key2, value).Done?
    ensures multiset(Flatten(Put(s, key1, key2, value).value.slots)) + ReadBack(s, key1, key2)
         == multiset(Flatten(s.slots)) + multiset{(key1, key2, value)}
  {
    var t := Put(s, key1, key2, value).value;
    var p := Locate1(s, key1).pos;
    var sub := if s.slots[p].None? then EmptySub(s.innerCap) else s.slots[p].value.1;
    var q := Locate2(sub, key2).pos;
    var sub' := sub[q := Some((key2, value))];
    assert t.slots == s.slots[p := Some((key1, sub'))];
    FlattenSwap(s.slots, p, Some((key1, sub')));
    SubEntriesSwap(key1, sub, q, Some((key2, value)));
    if s.slots[p].None? {
      FreeSubEntries(key1, sub);
      assert ReadBack(s, key1, key2) == multiset{};
    } else {
      assert ReadBack(s, key1, key2) == multiset(Triple(key1, sub[q]));
    }
    Exchange(multiset(Flatten(t.slots)), multiset(Flatten(s.slots)), multiset(SlotEntries(s.slots[p])),
             multiset(SubEntries(key1, sub')), ReadBack(s, key1, key2), multiset{(key1, key2, value)});
  }

  /**
   * What `Delete` stores: every triple held before except the one
   * `__getitem__` read for `(key1, key2)`.
   */
  lemma DeleteFrame<V>(s: State<V>, key1: string, key2: string)
    requires Shaped(s) && |key1| > 0 && |key2| > 0
    requires Delete(s, key1, key2).Done? && Delete(s, key1, key2).value.Ok?
    ensures Get(s, key1, key2).Done? && Get(s, key1, key2).value.Ok?
    ensures multiset(Flatten(Delete(s, key1, key2).value.value.slots)) + ReadBack(s, key1, key2)
         == multiset(Flatten(s.slots))
  {
    var t := Delete(s, key1, key2).value.value;
    var p := Locate1(s, key1).pos;
    var sub := s.slots[p].value.1;
    var q := Locate2(sub, key2).pos;
    var sub' := sub[q := None];
    SubEntriesSwap(key1, sub, q, None);
    assert ReadBack(s, key1, key2) == multiset(Triple(key1, sub[q]));
    if AllNone(sub') {
      FreeSubEntries(key1, sub');
      FlattenSwap(s.slots, p, None);
      Exchange(multiset(Flatten(t.slots)), multiset(Flatten(s.slots)), multiset(SubEntries(key1, sub)),
               multiset{}, ReadBack(s, key1, key2), multiset{});
    } else {
      FlattenSwap(s.slots, p, Some((key1, sub')));
      Exchange(multiset(Flatten(t.slots)), multiset(Flatten(s.slots)), multiset(SubEntries(key1, sub)),
               multiset(SubEntries(key1, sub')), ReadBack(s, key1, key2), multiset{});
    }
  }

  /** Exchanging `a` for `b` in `s`, then `x` for `y`, keeps the balance. */
  lemma Exchange<T>(t: multiset<T>, s: multiset<T>, a: multiset<T>, b: multiset<T>, x: multiset<T>, y: multiset<T>)
    requires t + a == s + b && b + x == a + y
    ensures t + x == s + y
  {
    forall e ensures (t + x)[e] == (s + y)[e] {
      assert (t + a)[e] == (s + b)[e] && (b + x)[e] == (a + y)[e];
    }
  }
}
