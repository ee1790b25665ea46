/**
 * The double key table of double_key_table.py as values. The top-level
 * array holds `(key1, nested array)` pairs, each nested array holds
 * `(key2, value)` pairs, and both are probed linearly. The probes of the
 * source loop forever when every slot they visit is taken by another key;
 * an operation that would run into such a loop yields `Diverges`.
 */
module DoubleKeySpec {
  import opened Wrappers

  /** The class-level size schedule of the source. */
  const DefaultSizes: seq<nat> := [5, 13, 29, 53, 97, 193, 389, 769, 1543, 3079, 6151, 12289,
    24593, 49157, 98317, 196613, 393241, 786433, 1572869]

  /** Every size of the class schedule is positive. */
  lemma DefaultSizesPositive()
    ensures |DefaultSizes| == 19 && forall i :: 0 <= i < |DefaultSizes| ==> DefaultSizes[i] > 0
  {
  }

  type Sub<V> = seq<Option<(string, V)>>
  type Slots<V> = seq<Option<(string, Sub<V>)>>

  /**
   * The table: its top-level slots, the running counter `count`, the size
   * schedule with the index of the current size, and the capacity every
   * nested array is created with.
   */
  datatype State<V> = State(slots: Slots<V>, count: int, sizes: seq<nat>, sizeIndex: nat, innerCap: nat)

  /** What an operation does: it returns `value`, or it never returns. */
  datatype Outcome<T> = Done(value: T) | Diverges

  datatype ProbeResult = Found(pos: nat) | Loops

  /** `hash1`: the code of the first character modulo the top-level size. */
  function Hash1(key: string, cap: nat): (h: nat)
    requires |key| > 0 && cap > 0
    ensures h < cap
  {
    (key[0] as int) % cap
  }

  /** `hash2`: the code of the last character modulo the nested size. */
  function Hash2(key: string, cap: nat): (h: nat)
    requires |key| > 0 && cap > 0
    ensures h < cap
  {
    (key[|key| - 1] as int) % cap
  }

  /**
   * The linear probe shared by both levels: from `start`, one slot at a time
   * around the array, the first slot that is free or holds `key`. After
   * visiting every slot without finding one, the source keeps going forever.
   */
  function Probe<X>(a: seq<Option<(string, X)>>, key: string, start: nat, steps: nat): (r: ProbeResult)
    requires start < |a|
    ensures r.Found? ==> r.pos < |a| && (a[r.pos].None? || a[r.pos].value.0 == key)
    decreases |a| - steps
  {
    if steps >= |a| then Loops
    else
      var p := (start + steps) % |a|;
      if a[p].None? || a[p].value.0 == key then Found(p)
      else Probe(a, key, start, steps + 1)
  }

  function EmptySub<V>(cap: nat): (sub: Sub<V>)
    ensures |sub| == cap && AllNone(sub)
  {
    seq(cap, _ => None)
  }

  /** The emptiness test of a nested array: every slot free. */
  predicate AllNone<X>(a: seq<Option<X>>) {
    forall i :: 0 <= i < |a| ==> a[i].None?
  }

  /** The number of taken slots. */
  function SomeCount<X>(a: seq<Option<X>>): nat {
    if a == [] then 0
    else SomeCount(a[..|a| - 1]) + if a[|a| - 1].Some? then 1 else 0
  }

  /** The pairs of one nested array as triples, in slot order. */
  function SubEntries<V>(key1: string, sub: Sub<V>): seq<(string, string, V)> {
    if sub == [] then []
    else
      SubEntries(key1, sub[..|sub| - 1]) +
        match sub[|sub| - 1]
        case None => []
        case Some(e) => [(key1, e.0, e.1)]
  }

  function SlotEntries<V>(slot: Option<(string, Sub<V>)>): seq<(string, string, V)> {
    match slot
    case None => []
    case Some(e) => SubEntries(e.0, e.1)
  }

  /**
   * Every `(key1, key2, value)` held, top-level slot by top-level slot and
   * nested slot by nested slot: the order in which `_rehash` re-inserts them.
   */
  function Flatten<V>(slots: Slots<V>): seq<(string, string, V)> {
    if slots == [] then []
    else Flatten(slots[..|slots| - 1]) + SlotEntries(slots[|slots| - 1])
  }

  /** The number of pairs in the table: as many as `Flatten` lists (`PairCountFlatten`). */
  function Pairs<V>(s: State<V>): nat {
    PairCount(s.slots)
  }

  function PairCount<V>(slots: Slots<V>): nat {
    if slots == [] then 0
    else
      PairCount(slots[..|slots| - 1]) +
        match slots[|slots| - 1]
        case None => 0
        case Some(e) => SomeCount(e.1)
  }

  /**
   * The shape every table keeps: a non-empty schedule of positive sizes, the
   * current size among them, nested arrays of the nested capacity, and
   * non-empty keys.
   */
  predicate Shaped<V>(s: State<V>) {
    && 0 < |s.sizes| && s.sizeIndex < |s.sizes|
    && (forall i :: 0 <= i < |s.sizes| ==> s.sizes[i] > 0)
    && |s.slots| == s.sizes[s.sizeIndex] && s.innerCap > 0
    && (forall i :: 0 <= i < |s.slots| && s.slots[i].Some? ==>
          |s.slots[i].value.0| > 0 && |s.slots[i].value.1| == s.innerCap
          && KeysNonEmpty(s.slots[i].value.1))
  }

  predicate KeysNonEmpty<V>(sub: Sub<V>) {
    forall j :: 0 <= j < |sub| && sub[j].Some? ==> |sub[j].value.0| > 0
  }

  /** Writing one well-formed top-level slot keeps the shape. */
  lemma ShapedUpdate<V>(s: State<V>, p: nat, x: Option<(string, Sub<V>)>, t: State<V>)
    requires Shaped(s) && p < |s.slots|
    requires x.Some? ==> |x.value.0| > 0 && |x.value.1| == s.innerCap && KeysNonEmpty(x.value.1)
    requires t == s.(slots := s.slots[p := x], count := t.count)
    ensures Shaped(t)
  {
  }

  /**
   * `count` counts the taken top-level slots, and no taken slot holds an
   * empty nested array.
   */
  predicate CountInv<V>(s: State<V>) {
    && s.count == SomeCount(s.slots)
    && forall i :: 0 <= i < |s.slots| && s.slots[i].Some? ==> !AllNone(s.slots[i].value.1)
  }

  /** `DoubleKeyTable(sizes, internal_sizes)`: empty, at the first size. */
  function Init<V>(sizes: seq<nat>, innerCap: nat): (s: State<V>)
    requires 0 < |sizes| && innerCap > 0
    requires forall i :: 0 <= i < |sizes| ==> sizes[i] > 0
    ensures Shaped(s) && CountInv(s) && Pairs(s) == 0 && 2 * s.count < |s.slots|
    ensures s.sizeIndex == 0 && s.sizes == sizes && |s.slots| == sizes[0]
  {
    State(FreeSlots(sizes[0]), 0, sizes, 0, innerCap)
  }

  /** A top-level array of `n` free slots: nothing taken, no pairs. */
  function FreeSlots<V>(n: nat): (slots: Slots<V>)
    ensures |slots| == n && AllNone(slots) && SomeCount(slots) == 0 && PairCount(slots) == 0
  {
    NoneFacts<(string, Sub<V>)>(n);
    FlattenFree<V>(seq(n, _ => None));
    seq(n, _ => None)
  }

  lemma NoneFacts<X>(n: nat)
    ensures SomeCount(seq<Option<X>>(n, _ => None)) == 0
  {
    if n > 0 {
      assert seq<Option<X>>(n, _ => None)[..n - 1] == seq<Option<X>>(n - 1, _ => None);
      NoneFacts<X>(n - 1);
    }
  }

  lemma {:induction false} FlattenFree<V>(slots: Slots<V>)
    requires AllNone(slots)
    ensures Flatten(slots) == [] && PairCount(slots) == 0
  {
    if slots != [] {
      FlattenFree(slots[..|slots| - 1]);
    }
  }

  lemma {:induction false} SomeCountUpdate<X>(a: seq<Option<X>>, i: nat, x: Option<X>)
    requires i < |a|
    ensures SomeCount(a[i := x]) == SomeCount(a) - (if a[i].Some? then 1 else 0) + (if x.Some? then 1 else 0)
    decreases |a|
  {
    var n := |a| - 1;
    if i < n {
      assert a[i := x][..n] == a[..n][i := x];
      SomeCountUpdate(a[..n], i, x);
    } else {
      assert a[i := x][..n] == a[..n];
    }
  }

  lemma {:induction false} AllNoneCount<X>(a: seq<Option<X>>)
    ensures AllNone(a) <==> SomeCount(a) == 0
  {
    if a != [] {
      AllNoneCount(a[..|a| - 1]);
      if !AllNone(a) && a[|a| - 1].None? {
        var i :| 0 <= i < |a| && a[i].Some?;
        assert a[..|a| - 1][i].Some?;
      }
    }
  }

  lemma {:induction false} SubEntriesCount<V>(key1: string, sub: Sub<V>)
    ensures |SubEntries(key1, sub)| == SomeCount(sub)
  {
    if sub != [] {
      SubEntriesCount(key1, sub[..|sub| - 1]);
    }
  }

  lemma {:induction false} FlattenUpdate<V>(slots: Slots<V>, p: nat, x: Option<(string, Sub<V>)>)
    requires p < |slots|
    ensures |Flatten(slots[p := x])| == |Flatten(slots)| - |SlotEntries(slots[p])| + |SlotEntries(x)|
    ensures PairCount(slots[p := x]) == PairCount(slots) - |SlotEntries(slots[p])| + |SlotEntries(x)|
    decreases |slots|
  {
    var s', n := slots[p := x], |slots| - 1;
    PairCountFlatten(slots);
    PairCountFlatten(s');
    assert |Flatten(slots)| == |Flatten(slots[..n])| + |SlotEntries(slots[n])|;
    assert |Flatten(s')| == |Flatten(s'[..n])| + |SlotEntries(s'[n])|;
    if p < n {
      assert s'[..n] == slots[..n][p := x] && s'[n] == slots[n];
      FlattenUpdate(slots[..n], p, x);
    } else {
      assert s'[..n] == slots[..n];
    }
  }

  lemma {:induction false} PairCountFlatten<V>(slots: Slots<V>)
    ensures PairCount(slots) == |Flatten(slots)|
  {
    if slots != [] {
      PairCountFlatten(slots[..|slots| - 1]);
      if slots[|slots| - 1].Some? {
        SubEntriesCount(slots[|slots| - 1].value.0, slots[|slots| - 1].value.1);
      }
    }
  }

  /** Under the counter invariant, `count` never exceeds the number of pairs. */
  lemma {:induction false} CountBelowPairs<V>(slots: Slots<V>)
    requires forall i :: 0 <= i < |slots| && slots[i].Some? ==> !AllNone(slots[i].value.1)
    ensures SomeCount(slots) <= |Flatten(slots)| == PairCount(slots)
  {
    PairCountFlatten(slots);
    if slots != [] {
      var n := |slots| - 1;
      CountBelowPairs(slots[..n]);
      if slots[n].Some? {
        AllNoneCount(slots[n].value.1);
        SubEntriesCount(slots[n].value.0, slots[n].value.1);
      }
    }
  }

  /** The top-level probe for `key1`. */
  function Locate1<V>(s: State<V>, key1: string): ProbeResult
    requires Shaped(s) && |key1| > 0
  {
    Probe(s.slots, key1, Hash1(key1, |s.slots|), 0)
  }

  /** The nested probe for `key2` in `sub`. */
  function Locate2<V>(sub: Sub<V>, key2: string): ProbeResult
    requires |sub| > 0 && |key2| > 0
  {
    Probe(sub, key2, Hash2(key2, |sub|), 0)
  }

  /** Whether the top-level probe for `key1` stops at a slot holding it. */
  predicate Holds1<V>(s: State<V>, key1: string)
    requires Shaped(s) && |key1| > 0
  {
    var l := Locate1(s, key1);
    l.Found? && s.slots[l.pos].Some?
  }

  /**
   * The insert path of `_linear_probe` followed by the nested assignment of
   * `__setitem__`, without the resize check: a free top-level slot gets a new
   * empty nested array, `count` goes up when the nested array was empty, and
   * `(key2, value)` is written where the nested probe stops.
   */
  function Put<V>(s: State<V>, key1: string, key2: string, value: V): (r: Outcome<State<V>>)
    requires Shaped(s) && CountInv(s) && |key1| > 0 && |key2| > 0
    ensures r.Done? ==> var t := r.value;
      && Shaped(t) && CountInv(t) && Pairs(t) <= Pairs(s) + 1
      && t.sizes == s.sizes && t.sizeIndex == s.sizeIndex && |t.slots| == |s.slots| && t.innerCap == s.innerCap
      && t.count == s.count + (if Holds1(s, key1) then 0 else 1)
  {
    match Locate1(s, key1)
    case Loops => Diverges
    case Found(p) =>
      var sub := if s.slots[p].None? then EmptySub(s.innerCap) else s.slots[p].value.1;
      match Locate2(sub, key2)
      case Loops => Diverges
      case Found(q) =>
        var sub' := sub[q := Some((key2, value))];
        var t := s.(slots := s.slots[p := Some((key1, sub'))],
                    count := if AllNone(sub) then s.count + 1 else s.count);
        PutFacts(s, p, key1, sub, q, key2, value);
        Done(t)
  }

  lemma PutFacts<V>(s: State<V>, p: nat, key1: string, sub: Sub<V>, q: nat, key2: string, value: V)
    requires Shaped(s) && CountInv(s) && |key1| > 0 && |key2| > 0
    requires p < |s.slots| && (s.slots[p].None? || s.slots[p].value.0 == key1)
    requires sub == if s.slots[p].None? then EmptySub(s.innerCap) else s.slots[p].value.1
    requires q < |sub|
    ensures var t := s.(slots := s.slots[p := Some((key1, sub[q := Some((key2, value))]))],
                        count := if AllNone(sub) then s.count + 1 else s.count);
      && Shaped(t) && CountInv(t) && Pairs(t) <= Pairs(s) + 1
      && t.count == s.count + (if s.slots[p].Some? then 0 else 1)
  {
    var t := s.(slots := s.slots[p := Some((key1, sub[q := Some((key2, value))]))],
                count := if AllNone(sub) then s.count + 1 else s.count);
    PutShape(s, p, key1, sub, q, key2, value, t);
    PutCounts(s, p, key1, sub, q, key2, value, t);
  }

  /** The shape after `Put`, and no taken slot with an empty nested array. */
  lemma PutShape<V>(s: State<V>, p: nat, key1: string, sub: Sub<V>, q: nat, key2: string, value: V, t: State<V>)
    requires Shaped(s) && CountInv(s) && |key1| > 0 && |key2| > 0
    requires p < |s.slots| && (s.slots[p].None? || s.slots[p].value.0 == key1)
    requires sub == if s.slots[p].None? then EmptySub(s.innerCap) else s.slots[p].value.1
    requires q < |sub|
    requires t == s.(slots := s.slots[p := Some((key1, sub[q := Some((key2, value))]))],
                     count := if AllNone(sub) then s.count + 1 else s.count)
    ensures Shaped(t) && forall i :: 0 <= i < |t.slots| && t.slots[i].Some? ==> !AllNone(t.slots[i].value.1)
  {
    assert sub[q := Some((key2, value))][q].Some?;
  }

  /** The counter and the pairs after `Put`. */
  lemma PutCounts<V>(s: State<V>, p: nat, key1: string, sub: Sub<V>, q: nat, key2: string, value: V, t: State<V>)
    requires Shaped(s) && CountInv(s) && |key1| > 0 && |key2| > 0
    requires p < |s.slots| && (s.slots[p].None? || s.slots[p].value.0 == key1)
    requires sub == if s.slots[p].None? then EmptySub(s.innerCap) else s.slots[p].value.1
    requires q < |sub|
    requires t == s.(slots := s.slots[p := Some((key1, sub[q := Some((key2, value))]))],
                     count := if AllNone(sub) then s.count + 1 else s.count)
    ensures t.count == SomeCount(t.slots) && Pairs(t) <= Pairs(s) + 1
    ensures t.count == s.count + (if s.slots[p].Some? then 0 else 1)
  {
    var sub' := sub[q := Some((key2, value))];
    var x := Some((key1, sub'));
    SomeCountUpdate(s.slots, p, x);
    FlattenUpdate(s.slots, p, x);
    SomeCountUpdate(sub, q, Some((key2, value)));
    SubEntriesCount(key1, sub');
    if s.slots[p].Some? {
      SubEntriesCount(s.slots[p].value.0, sub);
    } else {
      AllNoneCount(sub);
    }
  }

  /** Every key of every triple is non-empty, so each can be hashed. */
  predicate EntriesOk<V>(ps: seq<(string, string, V)>) {
    forall i :: 0 <= i < |ps| ==> |ps[i].0| > 0 && |ps[i].1| > 0
  }

  lemma {:induction false} SubEntriesOk<V>(key1: string, sub: Sub<V>)
    requires |key1| > 0 && KeysNonEmpty(sub)
    ensures EntriesOk(SubEntries(key1, sub))
  {
    if sub != [] {
      SubEntriesOk(key1, sub[..|sub| - 1]);
    }
  }

  lemma {:induction false} FlattenOk<V>(slots: Slots<V>)
    requires forall i :: 0 <= i < |slots| && slots[i].Some? ==>
      |slots[i].value.0| > 0 && KeysNonEmpty(slots[i].value.1)
    ensures EntriesOk(Flatten(slots))
  {
    if slots != [] {
      FlattenOk(slots[..|slots| - 1]);
      if slots[|slots| - 1].Some? {
        SubEntriesOk(slots[|slots| - 1].value.0, slots[|slots| - 1].value.1);
      }
    }
  }

  /**
   * The first half of `_rehash`: the next size of the schedule, the schedule
   * first extended by its last size plus one when it is exhausted, a fresh
   * top-level array of that size, and `count` back to zero.
   */
  function Advance<V>(s: State<V>): (r: State<V>)
    requires Shaped(s)
    ensures Shaped(r) && CountInv(r) && Pairs(r) == 0 && r.count == 0 && AllNone(r.slots)
    ensures r.sizeIndex == s.sizeIndex + 1 && |r.slots| == r.sizes[r.sizeIndex] && r.innerCap == s.innerCap
    ensures s.sizeIndex + 1 < |s.sizes| ==> r.sizes == s.sizes
    ensures s.sizeIndex + 1 >= |s.sizes| ==> r.sizes == s.sizes + [|s.slots| + 1]
  {
    var index := s.sizeIndex + 1;
    var sizes := if index >= |s.sizes| then s.sizes + [s.sizes[|s.sizes| - 1] + 1] else s.sizes;
    State(FreeSlots(sizes[index]), 0, sizes, index, s.innerCap)
  }

  /** How many sizes of the schedule are still ahead. */
  function Stage<V>(s: State<V>): nat {
    if s.sizeIndex < |s.sizes| then |s.sizes| - 1 - s.sizeIndex else 0
  }

  /**
   * How far the top-level size is below `2 * bound + 1`. With at most
   * `bound` pairs in play, no resize happens once the size is above
   * `2 * bound`; past the end of the schedule each resize adds one.
   */
  function Slack<V>(s: State<V>, bound: nat): nat {
    if |s.slots| <= 2 * bound + 1 then 2 * bound + 1 - |s.slots| else 0
  }

  /** `r` is no further from the end of growth than `s`. */
  predicate NoLater<V>(r: State<V>, s: State<V>, bound: nat) {
    Stage(r) < Stage(s) || (Stage(r) == Stage(s) && Slack(r, bound) <= Slack(s, bound))
  }

  /**
   * `__setitem__`: `Put`, then `_rehash` when `count` has reached half the
   * top-level size. `bound` bounds the pairs in play; it is not part of the
   * table and only shows that resizing stops.
   */
  function Set<V>(s: State<V>, key1: string, key2: string, value: V, bound: nat): (r: Outcome<State<V>>)
    requires Shaped(s) && CountInv(s) && |key1| > 0 && |key2| > 0 && Pairs(s) < bound
    ensures r.Done? ==> var t := r.value;
      && Shaped(t) && CountInv(t) && Pairs(t) <= Pairs(s) + 1 && t.innerCap == s.innerCap
      && 2 * t.count < |t.slots| && t.sizeIndex >= s.sizeIndex && NoLater(t, s, bound)
    decreases Stage(s), Slack(s, bound), 1, 0
  {
    match Put(s, key1, key2, value)
    case Diverges => Diverges
    case Done(t) =>
      if 2 * t.count >= |t.slots| then Rehash(t, bound) else Done(t)
  }

  /**
   * `t[key1, key2] = value` from outside the table: the pairs in play are
   * those held and the new one.
   */
  function SetItem<V>(s: State<V>, key1: string, key2: string, value: V): (r: Outcome<State<V>>)
    requires Shaped(s) && CountInv(s) && |key1| > 0 && |key2| > 0
    ensures r.Done? ==> Shaped(r.value) && CountInv(r.value) && 2 * r.value.count < |r.value.slots|
    ensures r.Done? ==> r.value.sizeIndex >= s.sizeIndex && Pairs(r.value) <= Pairs(s) + 1
  {
    Set(s, key1, key2, value, Pairs(s) + 1)
  }

  /**
   * `_rehash`, called when `count` has reached half the size: `Advance`, then
   * every pair of the old table set again, in slot order, through `Set`,
   * which may itself resize again.
   */
  function Rehash<V>(s: State<V>, bound: nat): (r: Outcome<State<V>>)
    requires Shaped(s) && CountInv(s) && Pairs(s) <= bound && 2 * s.count >= |s.slots|
    ensures r.Done? ==> var t := r.value;
      && Shaped(t) && CountInv(t) && Pairs(t) <= Pairs(s) && t.innerCap == s.innerCap
      && 2 * t.count < |t.slots| && t.sizeIndex > s.sizeIndex && NoLater(t, s, bound)
    decreases Stage(s), Slack(s, bound), 0, 0
  {
    CountBelowPairs(s.slots);
    FlattenOk(s.slots);
    ReinsertAll(Advance(s), Flatten(s.slots), |Flatten(s.slots)|, bound)
  }

  /**
   * Sets the first `n` triples of `ps` one after the other, stopping if one
   * diverges.
   */
  function ReinsertAll<V>(s: State<V>, ps: seq<(string, string, V)>, n: nat, bound: nat): (r: Outcome<State<V>>)
    requires Shaped(s) && CountInv(s) && 2 * s.count < |s.slots| && EntriesOk(ps)
    requires n <= |ps| && Pairs(s) + n <= bound
    ensures r.Done? ==>
      && Shaped(r.value) && CountInv(r.value) && Pairs(r.value) <= Pairs(s) + n && r.value.innerCap == s.innerCap
      && 2 * r.value.count < |r.value.slots| && r.value.sizeIndex >= s.sizeIndex && NoLater(r.value, s, bound)
    decreases Stage(s), Slack(s, bound), 3, n
  {
    if n == 0 then Done(s)
    else SetAfter(ReinsertAll(s, ps, n - 1, bound), ps[n - 1], bound)
  }

  /** `Set` of triple `e` after an outcome that may have diverged already. */
  function SetAfter<V>(o: Outcome<State<V>>, e: (string, string, V), bound: nat): (r: Outcome<State<V>>)
    requires o.Done? ==> Shaped(o.value) && CountInv(o.value) && Pairs(o.value) < bound
    requires |e.0| > 0 && |e.1| > 0
    ensures r.Done? ==>
      && o.Done? && Shaped(r.value) && CountInv(r.value) && Pairs(r.value) <= Pairs(o.value) + 1
      && r.value.innerCap == o.value.innerCap && 2 * r.value.count < |r.value.slots|
      && r.value.sizeIndex >= o.value.sizeIndex && NoLater(r.value, o.value, bound)
    decreases if o.Done? then Stage(o.value) else 0, if o.Done? then Slack(o.value, bound) else 0, 2, 0
  {
    match o
    case Diverges => Diverges
    case Done(t) => Set(t, e.0, e.1, e.2, bound)
  }

  /**
   * Whether both probes for `(key1, key2)` stop: the top-level one always
   * does in a table below half load, and the nested one does unless the
   * nested array it reaches is full of other keys.
   */
  predicate Stops<V>(s: State<V>, key1: string, key2: string)
    requires Shaped(s) && |key1| > 0 && |key2| > 0
  {
    var l := Locate1(s, key1);
    l.Found? && (s.slots[l.pos].None? || Locate2(s.slots[l.pos].value.1, key2).Found?)
  }

  lemma PutStops<V>(s: State<V>, key1: string, key2: string, value: V)
    requires Shaped(s) && CountInv(s) && |key1| > 0 && |key2| > 0
    ensures Put(s, key1, key2, value).Done? <==> Stops(s, key1, key2)
  {
  }

  /**
   * `__getitem__`: the lookup path of `_linear_probe`, raising KeyError where
   * either probe stops at a free slot.
   */
  function Get<V>(s: State<V>, key1: string, key2: string): Outcome<Result<V>>
    requires Shaped(s) && |key1| > 0 && |key2| > 0
  {
    match Locate1(s, key1)
    case Loops => Diverges
    case Found(p) =>
      if s.slots[p].None? then Done(Err(KeyError))
      else
        var sub := s.slots[p].value.1;
        match Locate2(sub, key2)
        case Loops => Diverges
        case Found(q) =>
          if sub[q].None? then Done(Err(KeyError)) else Done(Ok(sub[q].value.1))
  }

  /** `__contains__`: whether `__getitem__` returns rather than raising. */
  function Contains<V>(s: State<V>, key1: string, key2: string): (r: Outcome<bool>)
    requires Shaped(s) && |key1| > 0 && |key2| > 0
    ensures r.Done? <==> Get(s, key1, key2).Done?
    ensures r.Done? ==> (r.value <==> Get(s, key1, key2).value.Ok?)
  {
    match Get(s, key1, key2)
    case Diverges => Diverges
    case Done(g) => Done(g.Ok?)
  }

  /**
   * `__delitem__`: KeyError along the lookup path; otherwise the nested slot
   * is cleared with no tombstone, and when the nested array is left all free
   * the top-level slot is cleared too and `count` goes down.
   */
  function Delete<V>(s: State<V>, key1: string, key2: string): Outcome<Result<State<V>>>
    requires Shaped(s) && |key1| > 0 && |key2| > 0
  {
    match Locate1(s, key1)
    case Loops => Diverges
    case Found(p) =>
      if s.slots[p].None? then Done(Err(KeyError))
      else
        var sub := s.slots[p].value.1;
        match Locate2(sub, key2)
        case Loops => Diverges
        case Found(q) =>
          if sub[q].None? then Done(Err(KeyError))
          else
            var sub' := sub[q := None];
            if AllNone(sub') then Done(Ok(s.(slots := s.slots[p := None], count := s.count - 1)))
            else Done(Ok(s.(slots := s.slots[p := Some((key1, sub'))])))
  }

  /** The first keys of the taken top-level slots, in slot order. */
  function FirstKeys<V>(slots: Slots<V>): seq<string> {
    if slots == [] then []
    else FirstKeys(slots[..|slots| - 1]) + if slots[|slots| - 1].Some? then [slots[|slots| - 1].value.0] else []
  }

  /** The keys of one nested array, in slot order. */
  function SubKeys<V>(sub: Sub<V>): seq<string> {
    if sub == [] then []
    else SubKeys(sub[..|sub| - 1]) + if sub[|sub| - 1].Some? then [sub[|sub| - 1].value.0] else []
  }

  /** The values of one nested array, in slot order. */
  function SubValues<V>(sub: Sub<V>): seq<V> {
    if sub == [] then []
    else SubValues(sub[..|sub| - 1]) + if sub[|sub| - 1].Some? then [sub[|sub| - 1].value.1] else []
  }

  /** The values of every nested array, top-level slot by top-level slot. */
  function AllValues<V>(slots: Slots<V>): seq<V> {
    if slots == [] then []
    else AllValues(slots[..|slots| - 1]) + if slots[|slots| - 1].Some? then SubValues(slots[|slots| - 1].value.1) else []
  }

  /**
   * `keys(key)`: with no key, the first keys of the table; with `key`, the
   * second keys under it, or KeyError when the top-level probe stops at a
   * free slot.
   */
  function Keys<V>(s: State<V>, key: Option<string>): Outcome<Result<seq<string>>>
    requires Shaped(s) && (key.Some? ==> |key.value| > 0)
  {
    match key
    case None => Done(Ok(FirstKeys(s.slots)))
    case Some(k) =>
      match Locate1(s, k)
      case Loops => Diverges
      case Found(p) =>
        if s.slots[p].None? then Done(Err(KeyError)) else Done(Ok(SubKeys(s.slots[p].value.1)))
  }

  /** `values(key)`: as `keys`, with the values of the nested arrays. */
  function Values<V>(s: State<V>, key: Option<string>): Outcome<Result<seq<V>>>
    requires Shaped(s) && (key.Some? ==> |key.value| > 0)
  {
    match key
    case None => Done(Ok(AllValues(s.slots)))
    case Some(k) =>
      match Locate1(s, k)
      case Loops => Diverges
      case Found(p) =>
        if s.slots[p].None? then Done(Err(KeyError)) else Done(Ok(SubValues(s.slots[p].value.1)))
  }

  /** Setting the first `k` triples stops when setting the first `m >= k` does. */
  lemma {:induction false} ReinsertPrefix<V>(s: State<V>, ps: seq<(string, string, V)>, k: nat, m: nat, bound: nat)
    requires Shaped(s) && CountInv(s) && 2 * s.count < |s.slots| && EntriesOk(ps)
    requires k <= m <= |ps| && Pairs(s) + m <= bound
    requires ReinsertAll(s, ps, m, bound).Done?
    ensures ReinsertAll(s, ps, k, bound).Done?
    decreases m
  {
    if k < m {
      ReinsertPrefix(s, ps, k, m - 1, bound);
    }
  }

  /** The triples of the first `i` top-level slots begin the triples of all. */
  lemma {:induction false} FlattenPrefix<V>(slots: Slots<V>, i: nat)
    requires i <= |slots|
    ensures Flatten(slots[..i]) <= Flatten(slots)
    decreases |slots|
  {
    if i < |slots| {
      var n := |slots| - 1;
      assert slots[..n][..i] == slots[..i];
      FlattenPrefix(slots[..n], i);
      assert Flatten(slots) == Flatten(slots[..n]) + SlotEntries(slots[n]);
    } else {
      assert slots[..i] == slots;
    }
  }

  lemma FlattenStep<V>(slots: Slots<V>, i: nat)
    requires i < |slots|
    ensures Flatten(slots[..i + 1]) == Flatten(slots[..i]) + SlotEntries(slots[i])
  {
    assert slots[..i + 1][..i] == slots[..i];
  }

  lemma SubEntriesStep<V>(key1: string, sub: Sub<V>, j: nat)
    requires j < |sub|
    ensures SubEntries(key1, sub[..j + 1]) == SubEntries(key1, sub[..j]) +
      match sub[j] case None => [] case Some(e) => [(key1, e.0, e.1)]
  {
    assert sub[..j + 1][..j] == sub[..j];
  }

  lemma {:induction false} SubEntriesPrefix<V>(key1: string, sub: Sub<V>, j: nat)
    requires j <= |sub|
    ensures SubEntries(key1, sub[..j]) <= SubEntries(key1, sub)
    decreases |sub|
  {
    if j < |sub| {
      var n := |sub| - 1;
      assert sub[..n][..j] == sub[..j];
      SubEntriesPrefix(key1, sub[..n], j);
    } else {
      assert sub[..j] == sub;
    }
  }

  lemma GetStops<V>(s: State<V>, key1: string, key2: string)
    requires Shaped(s) && |key1| > 0 && |key2| > 0
    ensures Get(s, key1, key2).Done? <==> Stops(s, key1, key2)
    ensures Delete(s, key1, key2).Done? <==> Stops(s, key1, key2)
  {
  }
}
