/**
 * The class DoubleKeyTable of double_key_table.py over an array: a
 * top-level array of `(key1, nested table)` pairs, each nested table a
 * fixed-capacity sequence of `(key2, value)` slots, both probed linearly.
 * Each method is proved to do to the table what the matching function of
 * DoubleKeySpec does to its value `Abs()`.
 */
module DoubleKeyTables {
  import opened Wrappers
  import opened DoubleKeySpec
  import opened DoubleKeyProps

  /** Where `_linear_probe` stopped: the top-level position alone, or both. */
  datatype Position = Top(p1: nat) | Both(p1: nat, p2: nat)

  /**
   * The probe loop of `_linear_probe`: from `start`, one slot at a time
   * around the slots, while the slot holds another key.
   */
  method FindSlot<X>(a: seq<Option<(string, X)>>, key: string, start: nat) returns (pos: nat)
    requires start < |a| && Probe(a, key, start, 0).Found?
    ensures Probe(a, key, start, 0) == Found(pos)
  {
    pos := start;
    ghost var steps: nat := 0;
    ModWrap(start, |a|);
    while a[pos].Some? && a[pos].value.0 != key
      invariant steps < |a| && pos == (start + steps) % |a|
      invariant Probe(a, key, start, steps) == Probe(a, key, start, 0)
      decreases |a| - steps
    {
      ProbeStep(a, key, start, steps, pos);
      pos := (pos + 1) % |a|;
      steps := steps + 1;
    }
  }

  /** Passing an occupied slot holding another key leaves the probe's answer as it was. */
  lemma ProbeStep<X>(a: seq<Option<(string, X)>>, key: string, start: nat, steps: nat, pos: nat)
    requires start < |a| && steps < |a| && pos == (start + steps) % |a|
    requires Probe(a, key, start, steps).Found? && a[pos].Some? && a[pos].value.0 != key
    ensures steps + 1 < |a| && (pos + 1) % |a| == (start + steps + 1) % |a|
    ensures Probe(a, key, start, steps + 1) == Probe(a, key, start, steps)
  {
    NextMod(start + steps, |a|);
  }

  lemma NextMod(x: nat, n: nat)
    requires n > 0 && x + 1 < 2 * n
    ensures (x % n + 1) % n == (x + 1) % n
  {
    if x < n {
      ModWrap(x, n);
      if x + 1 < n {
        ModWrap(x + 1, n);
      } else {
        ModWrap(0, n);
      }
    } else {
      ModWrap(x - n, n);
      ModWrap(x + 1 - n, n);
    }
  }

  /** The emptiness test of a nested table: every slot free. */
  method AllFree<X>(a: seq<Option<X>>) returns (b: bool)
    ensures b == AllNone(a)
  {
    for i := 0 to |a|
      invariant forall j :: 0 <= j < i ==> a[j].None?
    {
      if a[i].Some? {
        return false;
      }
    }
    return true;
  }

  class DoubleKeyTable<V> {
    /** `array`: free slots, or a first key with the slots of its nested table. */
    var cells: array<Option<(string, Sub<V>)>>
    /** `count`: the taken top-level slots. */
    var count: int
    /** `TABLE_SIZES`, the size schedule, extended at its end when exhausted. */
    var sizes: seq<nat>
    var sizeIndex: nat
    /** The size every nested table is created with. */
    const innerCap: nat

    /** The table as a value of DoubleKeySpec. */
    ghost function Abs(): State<V>
      reads this, cells
    {
      State(cells[..], count, sizes, sizeIndex, innerCap)
    }

    /** The table's shape and counter, and below half load. */
    ghost predicate Valid()
      reads this, cells
    {
      Shaped(Abs()) && CountInv(Abs()) && 2 * count < cells.Length
    }

    /**
     * `DoubleKeyTable(sizes, internal_sizes)`: the schedule is `sizes` or
     * the class schedule; nested tables take the first internal size, and
     * the internal sizes default to the schedule.
     */
    constructor (sizes: Option<seq<nat>>, internalSizes: Option<seq<nat>>)
      requires var schedule := if sizes.Some? then sizes.value else DefaultSizes;
        0 < |schedule| && forall i :: 0 <= i < |schedule| ==> schedule[i] > 0
      requires var inner := if internalSizes.Some? then internalSizes.value
        else if sizes.Some? then sizes.value else DefaultSizes;
        0 < |inner| && inner[0] > 0
      ensures Valid() && fresh(cells)
      ensures var schedule := if sizes.Some? then sizes.value else DefaultSizes;
        var inner := if internalSizes.Some? then internalSizes.value else schedule;
        Abs() == Init(schedule, inner[0])
    {
      var schedule := if sizes.Some? then sizes.value else DefaultSizes;
      var inner := if internalSizes.Some? then internalSizes.value else schedule;
      this.sizes := schedule;
      innerCap := inner[0];
      sizeIndex := 0;
      cells := new Option<(string, Sub<V>)>[schedule[0]](_ => None);
      count := 0;
      new;
      assert cells[..] == FreeSlots(schedule[0]);
      assert Abs() == Init(schedule, inner[0]);
    }

    /** `table_size`: the length of the top-level array, the current size. */
    function TableSize(): (n: nat)
      reads this, cells
      requires Valid()
      ensures n == |Abs().slots| == sizes[sizeIndex]
    {
      cells.Length
    }

    /** `__len__`: the counter, always below half the table size. */
    function Len(): (n: int)
      reads this, cells
      requires Valid()
      ensures 0 <= n && 2 * n < TableSize()
      ensures n == SomeCount(Abs().slots)
    {
      count
    }

    /** The top-level slots after `_linear_probe`: an insert fills a free slot. */
    static ghost function Probed(s: State<V>, key1: string, isInsert: bool): Slots<V>
      requires Shaped(s) && CountInv(s) && 2 * s.count < |s.slots| && |key1| > 0
    {
      TopProbeStops(s, key1);
      var p := Locate1(s, key1).pos;
      if isInsert && s.slots[p].None? then s.slots[p := Some((key1, EmptySub(s.innerCap)))] else s.slots
    }

    /** What `_linear_probe` returns or raises. */
    static ghost function ProbeAnswer(s: State<V>, key1: string, key2: Option<string>, isInsert: bool): Result<Position>
      requires Shaped(s) && CountInv(s) && 2 * s.count < |s.slots| && |key1| > 0
      requires key2.Some? ==> |key2.value| > 0 && Stops(s, key1, key2.value)
    {
      TopProbeStops(s, key1);
      var p := Locate1(s, key1).pos;
      if s.slots[p].None? && !isInsert then Err(KeyError)
      else if key2.None? then Ok(Top(p))
      else
        var sub := if s.slots[p].None? then EmptySub(s.innerCap) else s.slots[p].value.1;
        var q := Locate2(sub, key2.value).pos;
        if sub[q].None? && !isInsert then Err(KeyError) else Ok(Both(p, q))
    }

    /**
     * Where an insert probe stops is where `Put` writes: the nested slot it
     * found takes the pair, and the top-level counter goes up when that
     * nested table was empty.
     */
    static lemma ProbedPut(s: State<V>, key1: string, key2: string, value: V, slots: Slots<V>, r: Result<Position>)
      requires Shaped(s) && CountInv(s) && 2 * s.count < |s.slots| && |key1| > 0 && |key2| > 0
      requires Stops(s, key1, key2)
      requires slots == Probed(s, key1, true) && r == ProbeAnswer(s, key1, Some(key2), true)
      ensures r.Ok? && r.value.Both? && |slots| == |s.slots|
      ensures var p, q := r.value.p1, r.value.p2;
        && p < |slots| && slots[p].Some? && q < |slots[p].value.1|
        && Put(s, key1, key2, value) == Done(s.(slots := slots[p := Some((key1, slots[p].value.1[q := Some((key2, value))]))],
                                                count := if AllNone(slots[p].value.1) then s.count + 1 else s.count))
    {
      TopProbeStops(s, key1);
      var p := Locate1(s, key1).pos;
      var sub := if s.slots[p].None? then EmptySub(s.innerCap) else s.slots[p].value.1;
      assert slots[p] == Some((key1, sub));
      assert Locate2(sub, key2).Found?;
      var x := Some((key1, sub[Locate2(sub, key2).pos := Some((key2, value))]));
      assert slots[p := x] == s.slots[p := x];
    }

    /**
     * `_linear_probe`: the top-level probe for `key1`, which on an insert
     * gives a free slot a new empty nested table, then the nested probe for
     * `key2` when there is one. KeyError when either probe stops at a free
     * slot outside an insert.
     */
    method LinearProbe(key1: string, key2: Option<string>, isInsert: bool) returns (r: Result<Position>)
      requires Valid() && |key1| > 0
      requires key2.Some? ==> |key2.value| > 0 && Stops(Abs(), key1, key2.value)
      modifies if isInsert then {cells} else {}
      ensures cells[..] == Probed(old(Abs()), key1, isInsert)
      ensures r == ProbeAnswer(old(Abs()), key1, key2, isInsert)
    {
      TopProbeStops(Abs(), key1);
      var p := FindSlot(cells[..], key1, Hash1(key1, cells.Length));
      if cells[p].None? {
        if isInsert {
          cells[p] := Some((key1, EmptySub(innerCap)));
        } else {
          return Err(KeyError);
        }
      }
      if key2.None? {
        return Ok(Top(p));
      }
      var sub := cells[p].value.1;
      var q := FindSlot(sub, key2.value, Hash2(key2.value, |sub|));
      if sub[q].None? && !isInsert {
        return Err(KeyError);
      }
      return Ok(Both(p, q));
    }

    /** `__getitem__`: the value under `(key1, key2)`, or KeyError. */
    method GetItem(key1: string, key2: string) returns (r: Result<V>)
      requires Valid() && |key1| > 0 && |key2| > 0
      requires Get(Abs(), key1, key2).Done?
      ensures r == Get(Abs(), key1, key2).value
    {
      GetStops(Abs(), key1, key2);
      var pos := LinearProbe(key1, Some(key2), false);
      if pos.Err? {
        return Err(KeyError);
      }
      var p, q := pos.value.p1, pos.value.p2;
      r := Ok(cells[p].value.1[q].value.1);
    }

    /** `__contains__`: whether `__getitem__` returns rather than raising. */
    method Contains(key1: string, key2: string) returns (b: bool)
      requires Valid() && |key1| > 0 && |key2| > 0
      requires Get(Abs(), key1, key2).Done?
      ensures b == DoubleKeySpec.Contains(Abs(), key1, key2).value
    {
      var r := GetItem(key1, key2);
      b := r.Ok?;
    }

    /**
     * `t[key1, key2] = value` from outside the table: `__setitem__` with
     * the pairs held and the new one as the pairs in play.
     */
    method SetItem(key1: string, key2: string, value: V)
      requires Valid() && |key1| > 0 && |key2| > 0
      requires DoubleKeySpec.SetItem(Abs(), key1, key2, value).Done?
      modifies this, cells
      ensures Valid() && (cells == old(cells) || fresh(cells))
      ensures Abs() == DoubleKeySpec.SetItem(old(Abs()), key1, key2, value).value
    {
      ghost var s := Abs();
      assert DoubleKeySpec.SetItem(s, key1, key2, value) == Set(s, key1, key2, value, Pairs(s) + 1);
      SetWithin(key1, key2, value, Pairs(s) + 1);
    }

    /**
     * `__setitem__`: the insert probe, `count` up when the nested table it
     * reaches is empty, the pair written where the nested probe stopped,
     * and `_rehash` when `count` has reached half the table size. `bound`
     * bounds the pairs in play and only shows that resizing stops.
     */
    method SetWithin(key1: string, key2: string, value: V, ghost bound: nat)
      requires Valid() && |key1| > 0 && |key2| > 0 && Pairs(Abs()) < bound
      requires Set(Abs(), key1, key2, value, bound).Done?
      modifies this, cells
      ensures Valid() && (cells == old(cells) || fresh(cells))
      ensures Abs() == Set(old(Abs()), key1, key2, value, bound).value
      decreases Stage(Abs()), Slack(Abs(), bound), 1
    {
      PutStops(Abs(), key1, key2, value);
      Write(key1, key2, value);
      if 2 * count >= cells.Length {
        Rehash(bound);
      }
    }

    /**
     * `__setitem__` up to the resize check: the insert probe, `count` up
     * when the nested table it reaches is empty, and the pair written where
     * the nested probe stopped.
     */
    method Write(key1: string, key2: string, value: V)
      requires Valid() && |key1| > 0 && |key2| > 0 && Stops(Abs(), key1, key2)
      modifies this, cells
      ensures cells == old(cells) && Put(old(Abs()), key1, key2, value) == Done(Abs())
    {
      ghost var s := Abs();
      var pos := LinearProbe(key1, Some(key2), true);
      ProbedPut(s, key1, key2, value, cells[..], pos);
      var p, q := pos.value.p1, pos.value.p2;
      var sub := cells[p].value.1;
      var empty := AllFree(sub);
      if empty {
        count := count + 1;
      }
      cells[p] := Some((key1, sub[q := Some((key2, value))]));
      assert Abs() == Put(s, key1, key2, value).value;
    }

    /**
     * `_rehash`: the next size of the schedule, a new top-level array, and
     * every pair of the old array set again in slot order.
     */
    method Rehash(ghost bound: nat)
      requires Shaped(Abs()) && CountInv(Abs())
      requires Pairs(Abs()) <= bound && 2 * count >= cells.Length
      requires DoubleKeySpec.Rehash(Abs(), bound).Done?
      modifies this
      ensures Valid() && fresh(cells)
      ensures Abs() == DoubleKeySpec.Rehash(old(Abs()), bound).value
      decreases Stage(Abs()), Slack(Abs(), bound), 0
    {
      ghost var s := Abs();
      CountBelowPairs(s.slots);
      FlattenOk(s.slots);
      AdvanceEarlier(s, bound);
      var oldCells := Grow();
      ReinsertCells(oldCells, Advance(s), bound);
    }

    /**
     * The second half of `_rehash`: every pair of the old array `oldCells`
     * set again, top-level slot by slot, into the table `a` that `Grow` left.
     */
    method ReinsertCells(oldCells: array<Option<(string, Sub<V>)>>, ghost a: State<V>, ghost bound: nat)
      requires oldCells != cells && Reinserted(a, Flatten(oldCells[..]), 0, bound) == Done(Abs())
      modifies this, cells
      ensures cells == old(cells) || fresh(cells)
      ensures Reinserted(a, Flatten(oldCells[..]), |Flatten(oldCells[..])|, bound) == Done(Abs())
      decreases Stage(a), Slack(a, bound), 4
    {
      ghost var slots := oldCells[..];
      ghost var all := Flatten(slots);
      assert Flatten(slots[..0]) == [];
      ghost var n := 0;
      for i := 0 to oldCells.Length
        invariant cells == old(cells) || fresh(cells)
        invariant oldCells[..] == slots
        invariant n == |Flatten(slots[..i])|
        invariant Reinserted(a, all, n, bound) == Done(Abs())
      {
        SlotStep(slots, i, n);
        if oldCells[i].Some? {
          n := ReinsertNested(oldCells[i].value.0, oldCells[i].value.1, a, all, n, bound);
        }
      }
      assert slots[..oldCells.Length] == slots;
    }

    /**
     * The first half of `_rehash`: the size index moves on, the schedule is
     * extended by its last size plus one when exhausted, and the table
     * starts over with a new empty array of the next size. The old array
     * is returned.
     */
    method Grow() returns (oldCells: array<Option<(string, Sub<V>)>>)
      requires Shaped(Abs())
      modifies this
      ensures Valid() && fresh(cells) && Abs() == Advance(old(Abs()))
      ensures oldCells == old(cells)
    {
      ghost var a := Advance(Abs());
      oldCells := cells;
      sizeIndex := sizeIndex + 1;
      if sizeIndex >= |sizes| {
        sizes := sizes + [sizes[|sizes| - 1] + 1];
      }
      cells := new Option<(string, Sub<V>)>[sizes[sizeIndex]](_ => None);
      count := 0;
      assert cells[..] == a.slots;
    }

    /**
     * The inner loop of `_rehash` for one taken top-level slot of the old
     * table: every pair of its nested table `sub` set again, in slot order.
     */
    method ReinsertNested(key1: string, sub: Sub<V>, ghost a: State<V>, ghost all: seq<(string, string, V)>,
                          ghost n0: nat, ghost bound: nat) returns (ghost n: nat)
      requires Placed(key1, sub, all, n0) && Reinserted(a, all, n0, bound) == Done(Abs())
      modifies this, cells
      ensures cells == old(cells) || fresh(cells)
      ensures n == n0 + SomeCount(sub) && Reinserted(a, all, n, bound) == Done(Abs())
      decreases Stage(a), Slack(a, bound), 3
    {
      assert sub[..0] == [];
      n := n0;
      for j := 0 to |sub|
        invariant cells == old(cells) || fresh(cells)
        invariant n == n0 + SomeCount(sub[..j]) && Reinserted(a, all, n, bound) == Done(Abs())
      {
        n := ReinsertAt(key1, sub, j, a, all, n0, n, bound);
      }
      WholePrefix(sub);
    }

    /**
     * One step of that inner loop: when slot `j` of `sub` holds a pair,
     * `self[key1, key2] = value` for it, which sets the next triple of `all`.
     */
    method ReinsertAt(key1: string, sub: Sub<V>, j: nat, ghost a: State<V>, ghost all: seq<(string, string, V)>,
                      ghost n0: nat, ghost n: nat, ghost bound: nat) returns (ghost n': nat)
      requires Placed(key1, sub, all, n0) && j < |sub| && n == n0 + SomeCount(sub[..j])
      requires Reinserted(a, all, n, bound) == Done(Abs())
      modifies this, cells
      ensures cells == old(cells) || fresh(cells)
      ensures n' == n0 + SomeCount(sub[..j + 1]) && Reinserted(a, all, n', bound) == Done(Abs())
      decreases Stage(a), Slack(a, bound), 2
    {
      NestedStep(key1, sub, j, all, n0, n);
      n' := n;
      if sub[j].Some? {
        PrefixStep(a, all, n, bound);
        SetWithin(key1, sub[j].value.0, sub[j].value.1, bound);
        n' := n + 1;
      }
    }

    /**
     * `__delitem__`: KeyError when the pair is not found; otherwise its
     * nested slot is freed, and when that leaves the nested table all free
     * the top-level slot is freed and `count` goes down.
     */
    method DelItem(key1: string, key2: string) returns (r: Result<()>)
      requires Valid() && |key1| > 0 && |key2| > 0
      requires Delete(Abs(), key1, key2).Done?
      modifies this, cells
      ensures Valid() && cells == old(cells)
      ensures Delete(old(Abs()), key1, key2).value.Err? ==> r == Err(KeyError) && Abs() == old(Abs())
      ensures Delete(old(Abs()), key1, key2).value.Ok? ==> r == Ok(()) && Abs() == Delete(old(Abs()), key1, key2).value.value
    {
      ghost var s := Abs();
      GetStops(s, key1, key2);
      DeleteCorrect(s, key1, key2);
      var pos := LinearProbe(key1, Some(key2), false);
      if pos.Err? {
        return Err(KeyError);
      }
      var p, q := pos.value.p1, pos.value.p2;
      var sub := cells[p].value.1[q := None];
      var empty := AllFree(sub);
      if empty {
        cells[p] := None;
        count := count - 1;
      } else {
        cells[p] := Some((key1, sub));
      }
      r := Ok(());
    }

    /**
     * `keys(key)`: with no key, the first key of every taken top-level slot
     * in slot order; with `key`, the second keys under it, or KeyError.
     */
    method Keys(key: Option<string>) returns (r: Result<seq<string>>)
      requires Valid() && (key.Some? ==> |key.value| > 0)
      ensures DoubleKeySpec.Keys(Abs(), key).Done? && r == DoubleKeySpec.Keys(Abs(), key).value
    {
      if key.None? {
        var ks := [];
        for i := 0 to cells.Length
          invariant ks == FirstKeys(cells[..i])
        {
          assert cells[..i + 1][..i] == cells[..i];
          if cells[i].Some? {
            ks := ks + [cells[i].value.0];
          }
        }
        assert cells[..cells.Length] == cells[..];
        return Ok(ks);
      }
      KeysOf(Abs(), key.value);
      var pos := LinearProbe(key.value, None, false);
      if pos.Err? {
        return Err(KeyError);
      }
      var sub := cells[pos.value.p1].value.1;
      var ks := [];
      for j := 0 to |sub|
        invariant ks == SubKeys(sub[..j])
      {
        assert sub[..j + 1][..j] == sub[..j];
        if sub[j].Some? {
          ks := ks + [sub[j].value.0];
        }
      }
      WholePrefix(sub);
      return Ok(ks);
    }

    /**
     * `values(key)`: with no key, every value, nested table by nested table
     * in top-level slot order; with `key`, the values under it, or KeyError.
     */
    method Values(key: Option<string>) returns (r: Result<seq<V>>)
      requires Valid() && (key.Some? ==> |key.value| > 0)
      ensures DoubleKeySpec.Values(Abs(), key).Done? && r == DoubleKeySpec.Values(Abs(), key).value
    {
      if key.None? {
        var vs := [];
        for i := 0 to cells.Length
          invariant vs == AllValues(cells[..i])
        {
          assert cells[..i + 1][..i] == cells[..i];
          if cells[i].Some? {
            var sv := SubValuesOf(cells[i].value.1);
            vs := vs + sv;
          }
        }
        assert cells[..cells.Length] == cells[..];
        return Ok(vs);
      }
      KeysOf(Abs(), key.value);
      var pos := LinearProbe(key.value, None, false);
      if pos.Err? {
        return Err(KeyError);
      }
      var vs := SubValuesOf(cells[pos.value.p1].value.1);
      return Ok(vs);
    }
  }

  /**
   * What `_rehash` sets out from: the resized empty table `a`, the triples
   * `all` of the old table, and `bound` pairs in play; setting all of `all`
   * stops.
   */
  ghost predicate RehashPlan<V>(a: State<V>, all: seq<(string, string, V)>, bound: nat) {
    && Shaped(a) && CountInv(a) && 2 * a.count < |a.slots| && Pairs(a) == 0
    && EntriesOk(all) && |all| <= bound && ReinsertAll(a, all, |all|, bound).Done?
  }

  /** Part way through `_rehash`: `a` with the first `n` triples of `all` set. */
  ghost function Reinserted<V>(a: State<V>, all: seq<(string, string, V)>, n: nat, bound: nat): Outcome<State<V>> {
    if RehashPlan(a, all, bound) && n <= |all| then ReinsertAll(a, all, n, bound) else Diverges
  }

  /** A resize starts the table at a later stage or with less slack. */
  lemma AdvanceEarlier<V>(s: State<V>, bound: nat)
    requires Shaped(s) && CountInv(s) && Pairs(s) <= bound && 2 * s.count >= |s.slots|
    ensures var a := Advance(s);
      Stage(a) < Stage(s) || (Stage(a) == Stage(s) && Slack(a, bound) < Slack(s, bound))
  {
    CountBelowPairs(s.slots);
  }

  /** The triples of `y` sit in `all` right after those of `x`. */
  lemma SliceOfPrefix<T>(x: seq<T>, y: seq<T>, all: seq<T>)
    requires x + y <= all
    ensures |x| + |y| <= |all| && all[|x|..|x| + |y|] == y && all[..|x|] == x
  {
    assert all[..|x| + |y|] == x + y;
  }

  /**
   * The pairs of nested array `sub` are the triples of `all` from index
   * `n0` on: the pair at nested slot `j` is triple `n0 + SomeCount(sub[..j])`.
   */
  ghost predicate Placed<V>(key1: string, sub: Sub<V>, all: seq<(string, string, V)>, n0: nat)
    decreases |sub|
  {
    && n0 + SomeCount(sub) <= |all|
    && (sub != [] ==>
          && Placed(key1, sub[..|sub| - 1], all, n0)
          && match sub[|sub| - 1]
             case None => true
             case Some(e) => all[n0 + SomeCount(sub) - 1] == (key1, e.0, e.1))
  }

  lemma {:induction false} PlacedOf<V>(key1: string, sub: Sub<V>, all: seq<(string, string, V)>, n0: nat)
    requires n0 + |SubEntries(key1, sub)| <= |all| && all[n0..n0 + |SubEntries(key1, sub)|] == SubEntries(key1, sub)
    ensures Placed(key1, sub, all, n0)
    decreases |sub|
  {
    SubEntriesCount(key1, sub);
    if sub != [] {
      var pre := sub[..|sub| - 1];
      var x := SubEntries(key1, pre);
      var y := SubEntries(key1, sub);
      assert y[..|x|] == x;
      assert all[n0..n0 + |x|] == all[n0..n0 + |y|][..|x|];
      PlacedOf(key1, pre, all, n0);
      if sub[|sub| - 1].Some? {
        assert all[n0 + |y| - 1] == all[n0..n0 + |y|][|y| - 1];
      }
    }
  }

  lemma {:induction false} PlacedPrefix<V>(key1: string, sub: Sub<V>, all: seq<(string, string, V)>, n0: nat, j: nat)
    requires Placed(key1, sub, all, n0) && j <= |sub|
    ensures Placed(key1, sub[..j], all, n0)
    decreases |sub|
  {
    if j < |sub| {
      var pre := sub[..|sub| - 1];
      assert pre[..j] == sub[..j];
      PlacedPrefix(key1, pre, all, n0, j);
    } else {
      assert sub[..j] == sub;
    }
  }

  /**
   * Top-level slot `i` of `slots`: its pairs are the triples of `Flatten`
   * from index `n` on, and they are as many as its nested array holds.
   */
  lemma SlotStep<V>(slots: Slots<V>, i: nat, n: nat)
    requires i < |slots| && n == |Flatten(slots[..i])|
    ensures slots[i].Some? ==> Placed(slots[i].value.0, slots[i].value.1, Flatten(slots), n)
    ensures |Flatten(slots[..i + 1])| == n + match slots[i] case None => 0 case Some(e) => SomeCount(e.1)
  {
    FlattenStep(slots, i);
    match slots[i]
    case None =>
    case Some((key1, sub)) =>
      SubEntriesCount(key1, sub);
      SlotPlaced(slots, i, n);
  }

  lemma SlotPlaced<V>(slots: Slots<V>, i: nat, n: nat)
    requires i < |slots| && n == |Flatten(slots[..i])| && slots[i].Some?
    ensures Placed(slots[i].value.0, slots[i].value.1, Flatten(slots), n)
  {
    var key1, sub := slots[i].value.0, slots[i].value.1;
    var all, e := Flatten(slots), SubEntries(key1, sub);
    assert SlotEntries(slots[i]) == e;
    FlattenStep(slots, i);
    FlattenPrefix(slots, i + 1);
    SliceOfPrefix(Flatten(slots[..i]), e, all);
    PlacedOf(key1, sub, all, n);
  }

  /**
   * Slot `j` of nested array `sub`: a pair there is the next triple of
   * `all` after the pairs of the slots before it.
   */
  lemma NestedStep<V>(key1: string, sub: Sub<V>, j: nat, all: seq<(string, string, V)>, n0: nat, n: nat)
    requires Placed(key1, sub, all, n0) && j < |sub| && n == n0 + SomeCount(sub[..j])
    ensures sub[j].Some? ==> n < |all| && all[n] == (key1, sub[j].value.0, sub[j].value.1)
    ensures n + (if sub[j].Some? then 1 else 0) == n0 + SomeCount(sub[..j + 1])
  {
    assert sub[..j + 1][..j] == sub[..j];
    PlacedPrefix(key1, sub, all, n0, j + 1);
  }

  lemma WholePrefix<T>(s: seq<T>)
    ensures s[..|s|] == s
  {
  }

  /** One more triple of `all` is one more `Set`. */
  lemma PrefixStep<V>(a: State<V>, all: seq<(string, string, V)>, n: nat, bound: nat)
    requires Reinserted(a, all, n, bound).Done? && n < |all|
    ensures var t := Reinserted(a, all, n, bound).value;
      && Shaped(t) && CountInv(t) && 2 * t.count < |t.slots| && NoLater(t, a, bound)
      && |all[n].0| > 0 && |all[n].1| > 0 && Pairs(t) < bound
      && Reinserted(a, all, n + 1, bound) == Set(t, all[n].0, all[n].1, all[n].2, bound)
      && Reinserted(a, all, n + 1, bound).Done?
  {
    ReinsertPrefix(a, all, n + 1, |all|, bound);
  }

  /** The values of a nested table, in slot order. */
  method SubValuesOf<V>(sub: Sub<V>) returns (vs: seq<V>)
    ensures vs == SubValues(sub)
  {
    vs := [];
    for j := 0 to |sub|
      invariant vs == SubValues(sub[..j])
    {
      assert sub[..j + 1][..j] == sub[..j];
      if sub[j].Some? {
        vs := vs + [sub[j].value.1];
      }
    }
    WholePrefix(sub);
  }
}
