/**
 * The table object of infinite_hash_table.py: 27 cells written in place,
 * each free, holding a pair, or holding a child table object one level
 * down. `Tree` is the value this object and its children stand for.
 */
module InfiniteHashTables {
  import opened Wrappers
  import opened InfiniteHashSpec
  import Sorting
  import StringOrder

  datatype Cell<V> = Free | Pair(key: string, value: V) | Child(table: InfiniteHashTable<V>)

  class InfiniteHashTable<V> {
    const level: nat
    var cells: array<Cell<V>>
    /** The source's own running counter; `Len` does not read it. */
    var count: int
    ghost var Tree: Node<V>
    ghost var Repr: set<object>

    ghost predicate Valid()
      reads this, Repr
      decreases Repr
    {
      && this in Repr && cells in Repr
      && cells.Length == TableSize
      && Tree.level == level && |Tree.slots| == TableSize
      && (forall i | 0 <= i < TableSize ::
            match cells[i]
            case Free => Tree.slots[i] == Empty
            case Pair(k, v) => Tree.slots[i] == Leaf(k, v)
            case Child(t) =>
              && t in Repr && t.Repr <= Repr && this !in t.Repr && cells !in t.Repr
              && t.Valid() && Tree.slots[i] == Nested(t.Tree))
      && (forall i, j | 0 <= i < j < TableSize && cells[i].Child? && cells[j].Child? ::
            cells[i].table.Repr !! cells[j].table.Repr)
      && WF(Tree)
    }

    /**
     * Everything `Valid` says except that `Tree` is well formed: the state
     * between deleting in a child and collapsing that child.
     */
    ghost predicate ValidCells()
      reads this, Repr
      decreases Repr
    {
      && this in Repr && cells in Repr
      && cells.Length == TableSize
      && Tree.level == level && |Tree.slots| == TableSize
      && (forall i | 0 <= i < TableSize ::
            match cells[i]
            case Free => Tree.slots[i] == Empty
            case Pair(k, v) => Tree.slots[i] == Leaf(k, v)
            case Child(t) =>
              && t in Repr && t.Repr <= Repr && this !in t.Repr && cells !in t.Repr
              && t.Valid() && Tree.slots[i] == Nested(t.Tree))
      && (forall i, j | 0 <= i < j < TableSize && cells[i].Child? && cells[j].Child? ::
            cells[i].table.Repr !! cells[j].table.Repr)
    }

    lemma ValidFromCells()
      requires ValidCells() && WF(Tree)
      ensures Valid()
    {
    }

    /** `InfiniteHashTable(level)`: an empty table. */
    constructor (level: nat)
      ensures Valid() && fresh(Repr)
      ensures this.level == level && Tree == EmptyNode(level) && count == 0
    {
      this.level := level;
      cells := new Cell<V>[TableSize](_ => Free);
      count := 0;
      Tree := EmptyNode(level);
      Repr := {this, cells};
      new;
      EmptyNodeFacts<V>(level);
    }

    lemma ChildFacts(i: nat)
      requires Valid() && i < TableSize && cells[i].Child?
      ensures var t := cells[i].table;
        && t in Repr && t.Repr < Repr && this !in t.Repr && cells !in t.Repr
        && t.Valid() && Tree.slots[i] == Nested(t.Tree) && t.level == level + 1
    {
      assert SlotWF(Tree, i);
    }

    /** `__getitem__`. */
    function Get(key: string): (r: Result<V>)
      requires Valid()
      reads this, Repr
      ensures r == InfiniteHashSpec.Get(Tree, key)
      decreases Repr
    {
      var i := Hash(key, level);
      assert SlotWF(Tree, i);
      match cells[i]
      case Free => Err(KeyError)
      case Pair(k, v) => if k == key then Ok(v) else Err(KeyError)
      case Child(t) =>
        ChildFacts(i);
        t.Get(key)
    }

    /** `__contains__`: whether `key` is one of the keys held. */
    function Contains(key: string): (b: bool)
      requires Valid()
      reads this, Repr
      ensures b <==> key in Keys(Tree)
    {
      KeysFacts(Tree);
      Get(key).Ok?
    }

    /** `__len__`: counts the pairs cell by cell, descending into child tables. */
    method Len() returns (n: nat)
      requires Valid()
      ensures n == InfiniteHashSpec.Len(Tree)
      decreases Repr
    {
      n := 0;
      for j := 0 to TableSize
        invariant n == |LeavesUpTo(Tree, j)|
      {
        match cells[j] {
          case Free =>
          case Pair(_, _) =>
            n := n + 1;
          case Child(t) =>
            ChildFacts(j);
            var m := t.Len();
            n := n + m;
        }
      }
    }

    /** `count_active_entries`: the pairs, cell by cell, child tables expanded. */
    method ActiveEntries() returns (active: seq<(string, V)>)
      requires Valid()
      ensures active == Leaves(Tree)
      decreases Repr
    {
      active := [];
      for j := 0 to TableSize
        invariant active == LeavesUpTo(Tree, j)
      {
        match cells[j] {
          case Free =>
          case Pair(k, v) =>
            active := active + [(k, v)];
          case Child(t) =>
            ChildFacts(j);
            var below := t.ActiveEntries();
            active := active + below;
        }
      }
    }

    /** The `traverse` of `sort_keys`: every key, cell by cell, child tables expanded. */
    method Traverse() returns (keys: seq<string>)
      requires Valid()
      ensures keys == Keys(Tree)
      decreases Repr
    {
      keys := [];
      for j := 0 to TableSize
        invariant keys == Firsts(LeavesUpTo(Tree, j))
      {
        FirstsAppend(LeavesUpTo(Tree, j), SlotLeaves(Tree.slots[j]));
        match cells[j] {
          case Free =>
          case Pair(k, _) =>
            keys := keys + [k];
          case Child(t) =>
            ChildFacts(j);
            var below := t.Traverse();
            keys := keys + below;
        }
      }
    }

    /**
     * `sort_keys`: every key held, once each, in strictly ascending string
     * order.
     */
    method SortKeys() returns (r: seq<string>)
      requires Valid()
      ensures |r| == InfiniteHashSpec.Len(Tree)
      ensures forall a, b :: 0 <= a < b < |r| ==> StringOrder.Less(r[a], r[b])
      ensures forall k :: k in r <==> InfiniteHashSpec.Get(Tree, k).Ok?
    {
      var keys := Traverse();
      r := Sorting.Sort(keys, StringOrder.Less);
      SortKeysCorrect(Tree);
    }

    /**
     * `__setitem__`. The counter goes up by one unless the slot held `key`
     * itself, whether or not a pair is added further down.
     */
    method SetItem(key: string, value: V)
      requires Valid() && SetTerminates(Tree, key)
      modifies Repr
      ensures Valid() && fresh(Repr - old(Repr))
      ensures Tree == Set(old(Tree), key, value)
      ensures var s := old(Tree).slots[Hash(key, level)];
        count == old(count) + if s.Leaf? && s.key == key then 0 else 1
      decreases SetCost(Tree, key), 1
    {
      var i := Hash(key, level);
      assert SlotWF(Tree, i);
      var same := cells[i].Pair? && cells[i].key == key;
      if cells[i].Child? {
        SetInChild(i, key, value);
      } else if cells[i].Pair? && !same {
        NestCollision(i, cells[i].key, cells[i].value, key, value);
      } else {
        PutPair(i, key, value);
      }
      label Written:
      if !same {
        count := count + 1;
        CountOnly@Written(this);
      }
    }

    /** Writes the pair into cell `i`, which is free or holds the same key. */
    method PutPair(i: nat, key: string, value: V)
      requires Valid() && SetTerminates(Tree, key) && i == Hash(key, level)
      requires cells[i].Free? || (cells[i].Pair? && cells[i].key == key)
      modifies this, cells
      ensures Valid() && Repr == old(Repr) && count == old(count)
      ensures Tree == Set(old(Tree), key, value)
    {
      cells[i] := Pair(key, value);
      Tree := Node(level, Tree.slots[i := Leaf(key, value)]);
      SetCorrect(old(Tree), key, value);
    }

    /** Replaces the pair `(k, v)` in cell `i` by a child table holding it and the new pair. */
    method NestCollision(i: nat, k: string, v: V, key: string, value: V)
      requires Valid() && SetTerminates(Tree, key) && i == Hash(key, level)
      requires cells[i] == Pair(k, v) && k != key
      modifies this, cells
      ensures Valid() && fresh(Repr - old(Repr)) && count == old(count)
      ensures Tree == Set(old(Tree), key, value)
      decreases SetCost(Tree, key), 0
    {
      var t := MakeSplit(level + 1, k, v, key, value);
      SetCorrect(Tree, key, value);
      InstallChild(i, t);
    }

    /** Puts table `t`, which shares no object with this one, in cell `i`. */
    method InstallChild(i: nat, t: InfiniteHashTable<V>)
      requires Valid() && i < TableSize && t.Valid() && t.Repr !! Repr
      requires WF(Node(level, Tree.slots[i := Nested(t.Tree)]))
      modifies this, cells
      ensures Valid() && Repr == old(Repr) + t.Repr && count == old(count)
      ensures Tree == Node(level, old(Tree).slots[i := Nested(t.Tree)])
    {
      cells[i] := Child(t);
      Tree := Node(level, Tree.slots[i := Nested(t.Tree)]);
      Repr := Repr + t.Repr;
    }

    /** A fresh table at `level` given the pair `(a, va)` and then `(b, vb)`. */
    static method MakeSplit(level: nat, a: string, va: V, b: string, vb: V)
      returns (t: InfiniteHashTable<V>)
      requires SeparableFrom(a, b, level)
      ensures fresh(t.Repr) && t.Valid() && t.level == level
      ensures t.Tree == Split(level, a, va, b, vb)
      decreases SplitCost(level, a, b), 2
    {
      OneLeafCost(level, a, va, b);
      SplitIsTwoSets(level, a, va, b, vb);
      t := new InfiniteHashTable(level);
      t.SetItem(a, va);
      t.SetItem(b, vb);
    }

    /** Sets the pair in the child table of cell `i`. */
    method SetInChild(i: nat, key: string, value: V)
      requires Valid() && SetTerminates(Tree, key) && i == Hash(key, level)
      requires cells[i].Child?
      modifies Repr
      ensures Valid() && fresh(Repr - old(Repr)) && count == old(count)
      ensures Tree == Set(old(Tree), key, value)
      decreases SetCost(Tree, key), 0
    {
      var t := cells[i].table;
      ChildFacts(i);
      t.SetItem(key, value);
      Tree := Node(level, Tree.slots[i := Nested(t.Tree)]);
      Repr := Repr + t.Repr;
      forall j | 0 <= j < TableSize && j != i && cells[j].Child?
        ensures cells[j].table.Valid() && Tree.slots[j] == Nested(cells[j].table.Tree)
        ensures cells[j].table.Repr !! t.Repr
      {
        assert old(cells[j].table.Valid()) && old(cells[j].table.Repr) !! old(t.Repr);
        Untouched(cells[j].table);
      }
      SetCorrect(old(Tree), key, value);
    }

    /**
     * `__delitem__`: KeyError, with the table unchanged, when `key` is
     * absent. The counter drops by one when this table's own cell changes
     * kind: its pair removed, or a child left with one pair lifted into it.
     */
    method DelItem(key: string) returns (r: Result<()>)
      requires Valid()
      modifies Repr
      ensures Valid() && Repr == old(Repr)
      ensures Delete(old(Tree), key).Err? ==> r == Err(KeyError) && unchanged(Repr)
      ensures Delete(old(Tree), key).Ok? ==> r.Ok? && Tree == Delete(old(Tree), key).value
      ensures var i := Hash(key, level);
        count == old(count) - if r.Ok? && (old(Tree).slots[i].Leaf? || Tree.slots[i].Leaf?) then 1 else 0
      decreases Repr, 2
    {
      var i := Hash(key, level);
      assert SlotWF(Tree, i);
      DeleteFailsWithKeyError(Tree, key);
      match cells[i] {
        case Free =>
          r := Err(KeyError);
        case Pair(k, _) =>
          if k == key {
            ClearPair(i, key);
            r := Ok(());
          } else {
            r := Err(KeyError);
          }
        case Child(_) =>
          r := DelInChild(i, key);
      }
    }

    /** Frees cell `i`, which holds the pair of `key`. */
    method ClearPair(i: nat, key: string)
      requires Valid() && i == Hash(key, level) && cells[i].Pair? && cells[i].key == key
      modifies this, cells
      ensures Valid() && Repr == old(Repr) && count == old(count) - 1
      ensures Delete(old(Tree), key) == Ok(Tree) && Tree.slots[i] == Empty
    {
      cells[i] := Free;
      Tree := Node(level, Tree.slots[i := Empty]);
      count := count - 1;
      DeleteCorrect(old(Tree), key);
    }

    /** Deletes `key` from the child table of cell `i`, collapsing that child if one pair is left. */
    method DelInChild(i: nat, key: string) returns (r: Result<()>)
      requires Valid() && i == Hash(key, level) && cells[i].Child?
      modifies Repr
      ensures Valid() && Repr == old(Repr)
      ensures Delete(old(Tree), key).Err? ==> r == Err(KeyError) && unchanged(Repr)
      ensures Delete(old(Tree), key).Ok? ==> r.Ok? && Tree == Delete(old(Tree), key).value
      ensures count == old(count) - if r.Ok? && Tree.slots[i].Leaf? then 1 else 0
      decreases Repr, 1
    {
      r := DelBelow(i, key);
      if r.Ok? {
        var t := cells[i].table;
        var active := t.ActiveEntries();
        if |active| == 1 {
          LiftPair(i, active[0].0, active[0].1);
        }
        assert Tree == Delete(old(Tree), key).value;
        DeleteKeepsShape(old(Tree), key);
        ValidFromCells();
      }
    }

    /**
     * Deletes `key` in the child table of cell `i` and nothing more: on
     * success `Tree` holds the child's new tree, well formed or not.
     */
    method DelBelow(i: nat, key: string) returns (r: Result<()>)
      requires Valid() && i == Hash(key, level) && cells[i].Child?
      modifies Repr
      ensures Repr == old(Repr) && count == old(count) && cells == old(cells) && cells[i] == old(cells[i])
      ensures Delete(old(Tree), key).Err? ==> r == Err(KeyError) && unchanged(Repr)
      ensures Delete(old(Tree), key).Ok? ==> r.Ok? && ValidCells()
      ensures r.Ok? ==> Tree == Node(level, old(Tree).slots[i := Nested(cells[i].table.Tree)])
      ensures r.Ok? ==> var t := cells[i].table;
        Delete(old(Tree), key) == Ok(Node(level, old(Tree).slots[i := if |Leaves(t.Tree)| == 1 then Leaf(Leaves(t.Tree)[0].0, Leaves(t.Tree)[0].1) else Nested(t.Tree)]))
      decreases Repr, 0
    {
      var t := cells[i].table;
      ChildFacts(i);
      DeleteFailsWithKeyError(Tree, key);
      r := t.DelItem(key);
      if r.Ok? {
        DeleteKeepsShape(old(Tree), key);
        Tree := Node(level, Tree.slots[i := Nested(t.Tree)]);
        forall j | 0 <= j < TableSize && j != i && cells[j].Child?
          ensures cells[j].table.Valid() && Tree.slots[j] == Nested(cells[j].table.Tree)
        {
          assert old(cells[j].table.Valid()) && old(cells[j].table.Repr) !! t.Repr;
          Untouched(cells[j].table);
        }
      }
    }

    /** Changing only the counter keeps a table valid. */
    static twostate lemma CountOnly(u: InfiniteHashTable<V>)
      requires old(u.Valid()) && unchanged(old(u.Repr) - {u})
      requires u.cells == old(u.cells) && u.Tree == old(u.Tree) && u.Repr == old(u.Repr)
      ensures u.Valid()
    {
    }

    /** A table none of whose objects changed is still valid and stands for the same tree. */
    static twostate lemma Untouched(u: InfiniteHashTable<V>)
      requires old(u.Valid()) && unchanged(old(u.Repr))
      ensures u.Valid() && u.Tree == old(u.Tree) && u.Repr == old(u.Repr)
    {
    }

    /** Puts the pair `(k, v)` in cell `i` in place of the child table there. */
    method LiftPair(i: nat, k: string, v: V)
      requires ValidCells() && i < TableSize && cells[i].Child?
      modifies this, cells
      ensures ValidCells() && Repr == old(Repr) && count == old(count) - 1
      ensures cells[i] == Pair(k, v) && Tree == Node(level, old(Tree).slots[i := Leaf(k, v)])
    {
      cells[i] := Pair(k, v);
      count := count - 1;
      Tree := Node(level, Tree.slots[i := Leaf(k, v)]);
    }

    /**
     * `get_location`: walks down from this table along `key`'s hashes,
     * recording each slot index, until it reaches `key`'s pair.
     */
    method GetLocation(key: string) returns (r: Result<seq<nat>>)
      requires Valid()
      ensures r == Location(Tree, key)
    {
      var path: seq<nat> := [];
      var cur := this;
      assert Extend(path, Location(Tree, key)) == Location(Tree, key) by {
        if Location(Tree, key).Ok? {
          assert path + Location(Tree, key).value == Location(Tree, key).value;
        }
      }
      while true
        invariant cur.Valid() && cur.Repr <= Repr
        invariant Location(Tree, key) == Extend(path, Location(cur.Tree, key))
        decreases cur.Repr
      {
        var i := Hash(key, cur.level);
        assert SlotWF(cur.Tree, i);
        ghost var rest := Location(cur.Tree, key);
        path := path + [i];
        match cur.cells[i] {
          case Child(t) =>
            cur.ChildFacts(i);
            ExtendTwice(path[..|path| - 1], i, Location(t.Tree, key));
            assert path[..|path| - 1] + [i] == path;
            cur := t;
          case Pair(k, _) =>
            if k == key {
              return Ok(path);
            }
            return Err(KeyError);
          case Free =>
            return Err(KeyError);
        }
      }
    }
  }

  /** `path` put in front of a location found further down. */
  function Extend(path: seq<nat>, r: Result<seq<nat>>): Result<seq<nat>> {
    match r
    case Ok(rest) => Ok(path + rest)
    case Err(e) => Err(e)
  }

  lemma ExtendTwice(path: seq<nat>, i: nat, r: Result<seq<nat>>)
    ensures Extend(path, Extend([i], r)) == Extend(path + [i], r)
  {
    if r.Ok? {
      assert path + ([i] + r.value) == path + [i] + r.value;
    }
  }
}
