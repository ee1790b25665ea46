/**
 * The infinite hash table of infinite_hash_table.py as a value: a node at
 * some level has 27 slots, each empty, holding one key-value pair, or holding
 * a child node one level down. A key goes to slot `key[level] % 26` while it
 * has a character at that level, and to slot 26 once it is exhausted.
 */
module InfiniteHashSpec {
  import opened Wrappers
  import Sorting
  import StringOrder

  /** Slots per node (`TABLE_SIZE`). */
  const TableSize: nat := 27

  datatype Slot<V> = Empty | Leaf(key: string, value: V) | Nested(node: Node<V>)

  datatype Node<V> = Node(level: nat, slots: seq<Slot<V>>)

  function Max(a: nat, b: nat): nat {
    if a < b then b else a
  }

  /** The slot of `key` in a node at `level`. */
  function Hash(key: string, level: nat): (h: nat)
    ensures h < TableSize
    ensures h == TableSize - 1 <==> level >= |key|
  {
    if level < |key| then (key[level] as int) % (TableSize - 1) else TableSize - 1
  }

  function EmptySlots<V>(): seq<Slot<V>> {
    seq(TableSize, _ => Empty)
  }

  /** A fresh table at `level`: all slots empty. */
  function EmptyNode<V>(level: nat): Node<V> {
    Node(level, EmptySlots())
  }

  /** The pairs held in a node, slot by slot, child nodes expanded in place. */
  function Leaves<V>(n: Node<V>): seq<(string, V)>
    decreases n, 1
  {
    LeavesUpTo(n, |n.slots|)
  }

  /** The pairs held in the first `j` slots of a node. */
  function LeavesUpTo<V>(n: Node<V>, j: nat): seq<(string, V)>
    requires j <= |n.slots|
    decreases n, 0, j
  {
    if j == 0 then [] else LeavesUpTo(n, j - 1) + SlotLeaves(n.slots[j - 1])
  }

  function SlotLeaves<V>(s: Slot<V>): seq<(string, V)>
    decreases s
  {
    match s
    case Empty => []
    case Leaf(k, v) => [(k, v)]
    case Nested(c) => Leaves(c)
  }

  /**
   * The shape every table keeps: 27 slots; a pair sits in the slot its key
   * hashes to; a child node is one level down, holds only keys hashing to
   * its slot, and holds at least two pairs (a child left with one pair is
   * collapsed into its parent's slot).
   */
  ghost predicate WF<V>(n: Node<V>)
    decreases n, 1
  {
    |n.slots| == TableSize && forall i | 0 <= i < TableSize :: SlotWF(n, i)
  }

  ghost predicate SlotWF<V>(n: Node<V>, i: nat)
    requires i < |n.slots|
    decreases n, 0
  {
    match n.slots[i]
    case Empty => true
    case Leaf(k, _) => Hash(k, n.level) == i
    case Nested(c) =>
      && c.level == n.level + 1
      && WF(c)
      && |Leaves(c)| >= 2
      && forall p | p in Leaves(c) :: Hash(p.0, n.level) == i
  }

  /** `__getitem__`: the value stored under `key`, or KeyError. */
  function Get<V>(n: Node<V>, key: string): Result<V>
    requires WF(n)
    decreases n
  {
    var i := Hash(key, n.level);
    assert SlotWF(n, i);
    match n.slots[i]
    case Empty => Err(KeyError)
    case Leaf(k, v) => if k == key then Ok(v) else Err(KeyError)
    case Nested(c) => Get(c, key)
  }

  /**
   * Two keys are told apart by the hash at `level` or at some deeper level
   * where one of them still has characters.
   */
  predicate SeparableFrom(a: string, b: string, level: nat)
    decreases Max(|a|, |b|) - level
  {
    level < Max(|a|, |b|) && (Hash(a, level) != Hash(b, level) || SeparableFrom(a, b, level + 1))
  }

  /**
   * From a level both keys reach, two keys can never be told apart exactly
   * when they have the same length and agree modulo 26 at every position
   * from that level on.
   */
  lemma {:induction false} InseparableIff(a: string, b: string, level: nat)
    requires level <= |a| && level <= |b|
    ensures !SeparableFrom(a, b, level) <==>
      && |a| == |b|
      && forall j :: level <= j < |a| ==> (a[j] as int) % (TableSize - 1) == (b[j] as int) % (TableSize - 1)
    decreases Max(|a|, |b|) - level
  {
    if level < |a| && level < |b| {
      InseparableIff(a, b, level + 1);
    }
  }

  /**
   * Setting `key` terminates: the pair it collides with, if any, can be told
   * apart from it further down.
   */
  ghost predicate SetTerminates<V>(n: Node<V>, key: string)
    requires WF(n)
    decreases n
  {
    var i := Hash(key, n.level);
    assert SlotWF(n, i);
    match n.slots[i]
    case Empty => true
    case Leaf(k, _) => k == key || SeparableFrom(k, key, n.level + 1)
    case Nested(c) => SetTerminates(c, key)
  }

  /** Levels a set of `key` descends below `n`, counting the nested tables it creates. */
  ghost function SetCost<V>(n: Node<V>, key: string): nat
    requires WF(n) && SetTerminates(n, key)
    decreases n
  {
    var i := Hash(key, n.level);
    assert SlotWF(n, i);
    match n.slots[i]
    case Empty => 0
    case Leaf(k, _) => if k == key then 0 else 1 + SplitCost(n.level + 1, k, key)
    case Nested(c) => 1 + SetCost(c, key)
  }

  /** Levels below `level` at which `a` and `b` still collide. */
  ghost function SplitCost(level: nat, a: string, b: string): nat
    requires SeparableFrom(a, b, level)
    decreases Max(|a|, |b|) - level
  {
    if Hash(a, level) != Hash(b, level) then 0 else 1 + SplitCost(level + 1, a, b)
  }

  /** The child table built when `b` collides with the pair `(a, va)`. */
  function Split<V>(level: nat, a: string, va: V, b: string, vb: V): Node<V>
    requires SeparableFrom(a, b, level)
    decreases Max(|a|, |b|) - level
  {
    var ha, hb := Hash(a, level), Hash(b, level);
    if ha != hb then Node(level, EmptySlots()[ha := Leaf(a, va)][hb := Leaf(b, vb)])
    else Node(level, EmptySlots()[ha := Nested(Split(level + 1, a, va, b, vb))])
  }

  /** `__setitem__`. */
  function Set<V>(n: Node<V>, key: string, value: V): Node<V>
    requires WF(n) && SetTerminates(n, key)
    decreases n
  {
    var i := Hash(key, n.level);
    assert SlotWF(n, i);
    match n.slots[i]
    case Empty => Node(n.level, n.slots[i := Leaf(key, value)])
    case Leaf(k, v) =>
      if k == key then Node(n.level, n.slots[i := Leaf(key, value)])
      else Node(n.level, n.slots[i := Nested(Split(n.level + 1, k, v, key, value))])
    case Nested(c) => Node(n.level, n.slots[i := Nested(Set(c, key, value))])
  }

  /**
   * `__delitem__`: KeyError when `key` is absent; otherwise the pair is
   * removed, and a child left holding a single pair is replaced by that pair.
   */
  function Delete<V>(n: Node<V>, key: string): Result<Node<V>>
    requires WF(n)
    decreases n
  {
    var i := Hash(key, n.level);
    assert SlotWF(n, i);
    match n.slots[i]
    case Empty => Err(KeyError)
    case Leaf(k, _) => if k == key then Ok(Node(n.level, n.slots[i := Empty])) else Err(KeyError)
    case Nested(c) =>
      match Delete(c, key)
      case Err(e) => Err(e)
      case Ok(c') =>
        var active := Leaves(c');
        if |active| == 1 then Ok(Node(n.level, n.slots[i := Leaf(active[0].0, active[0].1)]))
        else Ok(Node(n.level, n.slots[i := Nested(c')]))
  }

  /** `__len__`: the number of pairs. */
  function Len<V>(n: Node<V>): nat {
    |Leaves(n)|
  }

  /** `get_location`: the slot indices along the descent to `key`'s pair. */
  function Location<V>(n: Node<V>, key: string): Result<seq<nat>>
    requires WF(n)
    decreases n
  {
    var i := Hash(key, n.level);
    assert SlotWF(n, i);
    match n.slots[i]
    case Empty => Err(KeyError)
    case Leaf(k, _) => if k == key then Ok([i]) else Err(KeyError)
    case Nested(c) =>
      match Location(c, key)
      case Err(e) => Err(e)
      case Ok(path) => Ok([i] + path)
  }

  /** The slot reached by following `path` down from `n`, if the path exists. */
  function SlotAt<V>(n: Node<V>, path: seq<nat>): Option<Slot<V>>
    decreases n
  {
    if path == [] || path[0] >= |n.slots| then None
    else if |path| == 1 then Some(n.slots[path[0]])
    else match n.slots[path[0]]
      case Nested(c) => SlotAt(c, path[1..])
      case _ => None
  }

  /** The keys of the pairs, slot by slot. */
  function Keys<V>(n: Node<V>): seq<string> {
    Firsts(Leaves(n))
  }

  /** The key of each pair, in order. */
  function Firsts<V>(ls: seq<(string, V)>): (ks: seq<string>)
    ensures |ks| == |ls| && forall j :: 0 <= j < |ls| ==> ks[j] == ls[j].0
  {
    seq(|ls|, j requires 0 <= j < |ls| => ls[j].0)
  }

  lemma FirstsAppend<V>(a: seq<(string, V)>, b: seq<(string, V)>)
    ensures Firsts(a + b) == Firsts(a) + Firsts(b)
  {
  }

  /** `sort_keys`: every key, in ascending string order. */
  function SortKeys<V>(n: Node<V>): seq<string> {
    Sorting.Sort(Keys(n), StringOrder.Less)
  }

  // ---------------------------------------------------------------------
  // Where pairs sit

  lemma {:induction false} LeavesUpToMembers<V>(n: Node<V>, j: nat, p: (string, V))
    requires j <= |n.slots|
    ensures p in LeavesUpTo(n, j) <==> exists i :: 0 <= i < j && p in SlotLeaves(n.slots[i])
    decreases j
  {
    if j > 0 {
      LeavesUpToMembers(n, j - 1, p);
    }
  }

  /** A pair is held in the slot its key hashes to and nowhere else. */
  lemma LeafInItsSlot<V>(n: Node<V>, p: (string, V))
    requires WF(n)
    ensures p in Leaves(n) <==> p in SlotLeaves(n.slots[Hash(p.0, n.level)])
  {
    LeavesUpToMembers(n, |n.slots|, p);
    if p in Leaves(n) {
      var i :| 0 <= i < |n.slots| && p in SlotLeaves(n.slots[i]);
      assert SlotWF(n, i);
    }
  }

  /** `Get` finds exactly the pairs the table holds. */
  lemma {:induction false} LeafIffGet<V>(n: Node<V>, k: string, v: V)
    requires WF(n)
    ensures (k, v) in Leaves(n) <==> Get(n, k) == Ok(v)
    decreases n
  {
    var i := Hash(k, n.level);
    assert SlotWF(n, i);
    LeafInItsSlot(n, (k, v));
    match n.slots[i]
    case Empty =>
    case Leaf(_, _) =>
    case Nested(c) => LeafIffGet(c, k, v);
  }

  predicate DistinctKeys<V>(ls: seq<(string, V)>) {
    forall a, b :: 0 <= a < b < |ls| ==> ls[a].0 != ls[b].0
  }

  /** No key is held twice. */
  lemma {:induction false} LeavesDistinct<V>(n: Node<V>)
    requires WF(n)
    ensures DistinctKeys(Leaves(n))
    decreases n, 1
  {
    LeavesUpToDistinct(n, |n.slots|);
  }

  lemma {:induction false} LeavesUpToDistinct<V>(n: Node<V>, j: nat)
    requires WF(n) && j <= |n.slots|
    ensures DistinctKeys(LeavesUpTo(n, j))
    ensures forall p | p in LeavesUpTo(n, j) :: Hash(p.0, n.level) < j
    decreases n, 0, j
  {
    if j > 0 {
      LeavesUpToDistinct(n, j - 1);
      var s := n.slots[j - 1];
      assert SlotWF(n, j - 1);
      var front, back := LeavesUpTo(n, j - 1), SlotLeaves(s);
      assert forall p | p in back :: Hash(p.0, n.level) == j - 1 by {
        forall p | p in back ensures Hash(p.0, n.level) == j - 1 {
          LeafInItsSlot(n, p);
        }
      }
      match s {
        case Empty =>
        case Leaf(_, _) =>
        case Nested(c) => LeavesDistinct(c);
      }
      var all := front + back;
      forall a, b | 0 <= a < b < |all| ensures all[a].0 != all[b].0 {
        if b >= |front| && a < |front| {
          assert all[a] in front && all[b] in back;
        } else if a >= |front| {
          assert all[a] == back[a - |front|] && all[b] == back[b - |front|];
        }
      }
    }
  }

  /** The number of pairs after one slot is replaced. */
  lemma {:induction false} ReplaceSlotCount<V>(n: Node<V>, i: nat, s: Slot<V>, j: nat)
    requires i < |n.slots| && j <= |n.slots|
    ensures var n' := Node(n.level, n.slots[i := s]);
      if j <= i then LeavesUpTo(n', j) == LeavesUpTo(n, j)
      else |LeavesUpTo(n', j)| + |SlotLeaves(n.slots[i])| == |LeavesUpTo(n, j)| + |SlotLeaves(s)|
    decreases j
  {
    if j > 0 {
      ReplaceSlotCount(n, i, s, j - 1);
    }
  }

  lemma ReplaceSlotLen<V>(n: Node<V>, i: nat, s: Slot<V>)
    requires i < |n.slots|
    ensures |Leaves(Node(n.level, n.slots[i := s]))| + |SlotLeaves(n.slots[i])| == |Leaves(n)| + |SlotLeaves(s)|
  {
    ReplaceSlotCount(n, i, s, |n.slots|);
  }

  /** Replacing one slot of a well-formed node by a slot well placed there keeps it well formed. */
  lemma ReplaceSlotWF<V>(n: Node<V>, i: nat, s: Slot<V>)
    requires WF(n) && i < TableSize && SlotWF(Node(n.level, n.slots[i := s]), i)
    ensures WF(Node(n.level, n.slots[i := s]))
  {
    var r := Node(n.level, n.slots[i := s]);
    forall j | 0 <= j < TableSize ensures SlotWF(r, j) {
      assert SlotWF(n, j);
      if j != i {
        assert r.slots[j] == n.slots[j];
      }
    }
    assert WF(r);
  }

  lemma {:induction false} EmptyUpTo<V>(level: nat, j: nat)
    requires j <= TableSize
    ensures LeavesUpTo(EmptyNode<V>(level), j) == []
  {
    if j > 0 {
      EmptyUpTo<V>(level, j - 1);
    }
  }

  /** A fresh table is well formed and holds nothing. */
  lemma EmptyNodeFacts<V>(level: nat)
    ensures WF(EmptyNode<V>(level)) && Leaves(EmptyNode<V>(level)) == []
  {
    EmptyUpTo<V>(level, TableSize);
    var n := EmptyNode<V>(level);
    forall i | 0 <= i < TableSize ensures SlotWF(n, i) {
    }
  }

  // ---------------------------------------------------------------------
  // Collisions

  /**
   * The child built for a collision is well formed, one level down from
   * where it is placed, and holds exactly the two colliding pairs.
   */
  lemma {:induction false} SplitCorrect<V>(level: nat, a: string, va: V, b: string, vb: V)
    requires SeparableFrom(a, b, level)
    ensures var r := Split(level, a, va, b, vb);
      && r.level == level && WF(r) && |Leaves(r)| == 2
      && forall x :: Get(r, x) == if x == a then Ok(va) else if x == b then Ok(vb) else Err(KeyError)
    decreases Max(|a|, |b|) - level
  {
    var r := Split(level, a, va, b, vb);
    var ha, hb := Hash(a, level), Hash(b, level);
    var e := EmptyNode<V>(level);
    EmptyNodeFacts<V>(level);
    if ha != hb {
      var m := Node(level, e.slots[ha := Leaf(a, va)]);
      ReplaceSlotLen(e, ha, Leaf(a, va));
      ReplaceSlotLen(m, hb, Leaf(b, vb));
      assert r == Node(level, m.slots[hb := Leaf(b, vb)]);
      forall i | 0 <= i < TableSize ensures SlotWF(r, i) {
      }
    } else {
      var c := Split(level + 1, a, va, b, vb);
      SplitCorrect(level + 1, a, va, b, vb);
      ReplaceSlotLen(e, ha, Nested(c));
      forall p | p in Leaves(c) ensures Hash(p.0, level) == ha {
        LeafIffGet(c, p.0, p.1);
      }
      forall i | 0 <= i < TableSize ensures SlotWF(r, i) {
      }
    }
  }

  /**
   * The collision child is what the source builds: a fresh table one level
   * down, given the resident pair and then the new one.
   */
  lemma SplitIsTwoSets<V>(level: nat, a: string, va: V, b: string, vb: V)
    requires SeparableFrom(a, b, level)
    ensures WF(EmptyNode<V>(level))
    ensures var one := Set(EmptyNode<V>(level), a, va);
      && WF(one) && SetTerminates(one, b)
      && Split(level, a, va, b, vb) == Set(one, b, vb)
  {
    var e := EmptyNode<V>(level);
    EmptyNodeFacts<V>(level);
    var ha := Hash(a, level);
    var one := Set(e, a, va);
    assert one == Node(level, EmptySlots()[ha := Leaf(a, va)]);
    ReplaceSlotLen(e, ha, Leaf(a, va));
    forall i | 0 <= i < TableSize ensures SlotWF(one, i) {
    }
    SeparableDistinct(a, b, level);
    if Hash(b, level) == ha {
      SeparableDeeper(a, b, level);
    }
  }

  /** Setting `b` into a table holding only `a` costs what separating them costs. */
  lemma OneLeafCost<V>(level: nat, a: string, va: V, b: string)
    requires SeparableFrom(a, b, level)
    ensures WF(EmptyNode<V>(level))
    ensures var one := Set(EmptyNode<V>(level), a, va);
      && WF(one) && SetTerminates(one, b) && SetCost(one, b) == SplitCost(level, a, b)
  {
    SplitIsTwoSets(level, a, va, b, va);
    var one := Set(EmptyNode<V>(level), a, va);
    assert one == Node(level, EmptySlots()[Hash(a, level) := Leaf(a, va)]);
    assert SlotWF(one, Hash(b, level));
    SeparableDistinct(a, b, level);
    if Hash(a, level) == Hash(b, level) {
      assert one.slots[Hash(b, level)] == Leaf(a, va);
    } else {
      assert one.slots[Hash(b, level)] == Empty;
    }
  }

  /** Keys that can be told apart are different keys. */
  lemma {:induction false} SeparableDistinct(a: string, b: string, level: nat)
    requires SeparableFrom(a, b, level)
    ensures a != b
    decreases Max(|a|, |b|) - level
  {
    if Hash(a, level) == Hash(b, level) {
      SeparableDistinct(a, b, level + 1);
    }
  }

  lemma SeparableDeeper(a: string, b: string, level: nat)
    requires SeparableFrom(a, b, level) && Hash(a, level) == Hash(b, level)
    ensures SeparableFrom(a, b, level + 1)
  {
  }

  // ---------------------------------------------------------------------
  // Set

  /**
   * After `t[key] = value`: the table stays well formed, `key` maps to
   * `value`, every other key keeps its lookup, and the number of pairs grows
   * by one exactly when `key` was absent.
   */
  lemma {:induction false} SetCorrect<V>(n: Node<V>, key: string, value: V)
    requires WF(n) && SetTerminates(n, key)
    ensures var r := Set(n, key, value);
      && WF(r) && r.level == n.level
      && (forall x :: Get(r, x) == if x == key then Ok(value) else Get(n, x))
      && Len(r) == Len(n) + if Get(n, key).Ok? then 0 else 1
    decreases n
  {
    var r := Set(n, key, value);
    var i := Hash(key, n.level);
    assert SlotWF(n, i);
    var s := r.slots[i];
    ReplaceSlotLen(n, i, s);
    assert r == Node(n.level, n.slots[i := s]);
    match n.slots[i] {
      case Empty =>
      case Leaf(k, v) =>
        if k != key {
          SplitCorrect(n.level + 1, k, v, key, value);
          var c := Split(n.level + 1, k, v, key, value);
          forall p | p in Leaves(c) ensures Hash(p.0, n.level) == i {
            LeafIffGet(c, p.0, p.1);
          }
        }
      case Nested(c) =>
        SetCorrect(c, key, value);
        var c' := Set(c, key, value);
        forall p | p in Leaves(c') ensures Hash(p.0, n.level) == i {
          LeafIffGet(c', p.0, p.1);
          if p.0 != key {
            LeafIffGet(c, p.0, p.1);
          }
        }
    }
    ReplaceSlotWF(n, i, s);
    forall x ensures Get(r, x) == if x == key then Ok(value) else Get(n, x) {
      assert SlotWF(n, Hash(x, n.level));
    }
  }

  /** A key collision nests a child one level down holding both pairs. */
  lemma SetCollision<V>(n: Node<V>, key: string, value: V)
    requires WF(n) && SetTerminates(n, key)
    requires var s := n.slots[Hash(key, n.level)]; s.Leaf? && s.key != key
    ensures var i := Hash(key, n.level);
      var resident := n.slots[i];
      var s := Set(n, key, value).slots[i];
      && s.Nested? && s.node.level == n.level + 1 && WF(s.node) && Len(s.node) == 2
      && Get(s.node, resident.key) == Ok(resident.value) && Get(s.node, key) == Ok(value)
  {
    var i := Hash(key, n.level);
    assert SlotWF(n, i);
    SplitCorrect(n.level + 1, n.slots[i].key, n.slots[i].value, key, value);
  }

  // ---------------------------------------------------------------------
  // Delete

  /**
   * `del t[key]` fails exactly when `key` is absent. When it succeeds the
   * table stays well formed (no child is left with a single pair), `key` is
   * gone, every other key keeps its lookup, and one pair fewer is held.
   */
  lemma {:induction false} DeleteCorrect<V>(n: Node<V>, key: string)
    requires WF(n)
    ensures Delete(n, key).Err? <==> Get(n, key).Err?
    ensures Delete(n, key).Ok? ==>
      var r := Delete(n, key).value;
      && WF(r) && r.level == n.level
      && (forall x :: Get(r, x) == if x == key then Err(KeyError) else Get(n, x))
      && Len(r) + 1 == Len(n)
    decreases n
  {
    var i := Hash(key, n.level);
    assert SlotWF(n, i);
    match n.slots[i] {
      case Empty =>
      case Leaf(k, _) =>
        if k == key {
          var r := Delete(n, key).value;
          assert r == Node(n.level, n.slots[i := Empty]);
          assert |SlotLeaves(n.slots[i])| == 1;
          assert SlotLeaves<V>(Empty) == [];
          ReplaceSlotLen(n, i, Empty);
          assert Len(r) + 1 == Len(n);
          ReplaceSlotWF(n, i, Empty);
          forall x ensures Get(r, x) == if x == key then Err(KeyError) else Get(n, x) {
            assert SlotWF(n, Hash(x, n.level));
          }
        }
      case Nested(c) =>
        DeleteCorrect(c, key);
        if Delete(c, key).Ok? {
          var c' := Delete(c, key).value;
          var r := Delete(n, key).value;
          var active := Leaves(c');
          forall p | p in active ensures Hash(p.0, n.level) == i && p in Leaves(c) {
            LeafIffGet(c', p.0, p.1);
            LeafIffGet(c, p.0, p.1);
          }
          var s := r.slots[i];
          ReplaceSlotLen(n, i, s);
          assert r == Node(n.level, n.slots[i := s]);
          assert |SlotLeaves(s)| == |active| && SlotLeaves(n.slots[i]) == Leaves(c);
          assert Len(r) + 1 == Len(n);
          assert SlotWF(r, i);
          ReplaceSlotWF(n, i, s);
          if |active| == 1 {
            assert active[0] in active;
            forall x | Hash(x, n.level) == i ensures Get(r, x) == Get(c', x) {
              if Get(c', x).Ok? {
                LeafIffGet(c', x, Get(c', x).value);
              }
              if x == active[0].0 {
                LeafIffGet(c', x, active[0].1);
              }
            }
          }
          forall x ensures Get(r, x) == if x == key then Err(KeyError) else Get(n, x) {
            assert SlotWF(n, Hash(x, n.level));
          }
        }
    }
  }

  /** What a successful delete leaves: a well-formed table at the same level. */
  lemma DeleteKeepsShape<V>(n: Node<V>, key: string)
    requires WF(n) && Delete(n, key).Ok?
    ensures WF(Delete(n, key).value) && Delete(n, key).value.level == n.level
  {
    DeleteCorrect(n, key);
  }

  /** Deleting an absent key fails, and the table is unchanged by it. */
  lemma DeleteAbsent<V>(n: Node<V>, key: string)
    requires WF(n) && Get(n, key).Err?
    ensures Delete(n, key) == Err(KeyError)
  {
    DeleteCorrect(n, key);
    DeleteFailsWithKeyError(n, key);
  }

  lemma {:induction false} DeleteFailsWithKeyError<V>(n: Node<V>, key: string)
    requires WF(n)
    ensures Delete(n, key).Err? ==> Delete(n, key) == Err(KeyError)
    decreases n
  {
    var i := Hash(key, n.level);
    assert SlotWF(n, i);
    if n.slots[i].Nested? {
      DeleteFailsWithKeyError(n.slots[i].node, key);
    }
  }

  // ---------------------------------------------------------------------
  // Location

  /**
   * `get_location` fails exactly when `key` is absent; otherwise the path
   * lists `key`'s hash at each level from this node down, and leads to the
   * slot holding `key`'s pair.
   */
  lemma {:induction false} LocationCorrect<V>(n: Node<V>, key: string)
    requires WF(n)
    ensures Location(n, key).Ok? <==> Get(n, key).Ok?
    ensures Location(n, key).Ok? ==>
      var path := Location(n, key).value;
      && |path| >= 1
      && (forall j | 0 <= j < |path| :: path[j] == Hash(key, n.level + j))
      && SlotAt(n, path) == Some(Leaf(key, Get(n, key).value))
    decreases n
  {
    var i := Hash(key, n.level);
    assert SlotWF(n, i);
    match n.slots[i] {
      case Empty =>
      case Leaf(_, _) =>
      case Nested(c) =>
        LocationCorrect(c, key);
        if Location(c, key).Ok? {
          var path := Location(n, key).value;
          var sub := Location(c, key).value;
          assert path == [i] + sub && path[1..] == sub;
          forall j | 0 <= j < |path| ensures path[j] == Hash(key, n.level + j) {
            if j > 0 {
              assert path[j] == sub[j - 1];
            }
          }
        }
    }
  }

  // ---------------------------------------------------------------------
  // Keys

  lemma LessIsStrictTotalOrder()
    ensures Sorting.StrictTotalOrder(StringOrder.Less)
  {
    forall x ensures !StringOrder.Less(x, x) {
      StringOrder.LessIrreflexive(x);
    }
    forall x, y, z | StringOrder.Less(x, y) && StringOrder.Less(y, z) ensures StringOrder.Less(x, z) {
      StringOrder.LessTransitive(x, y, z);
    }
    forall x, y | x != y ensures StringOrder.Less(x, y) || StringOrder.Less(y, x) {
      StringOrder.LessTotal(x, y);
    }
  }

  /** The listed keys are the held keys, each once. */
  lemma KeysFacts<V>(n: Node<V>)
    requires WF(n)
    ensures var ks := Keys(n);
      && |ks| == Len(n)
      && (forall a, b :: 0 <= a < b < |ks| ==> ks[a] != ks[b])
      && (forall k :: k in ks <==> Get(n, k).Ok?)
  {
    var ks := Keys(n);
    var ls := Leaves(n);
    LeavesDistinct(n);
    forall a, b | 0 <= a < b < |ks| ensures ks[a] != ks[b] {
      assert ks[a] == ls[a].0 && ks[b] == ls[b].0;
    }
    forall k ensures k in ks <==> Get(n, k).Ok? {
      if k in ks {
        var j :| 0 <= j < |ks| && ks[j] == k;
        assert ls[j] in ls;
        LeafIffGet(n, k, ls[j].1);
      }
      if Get(n, k).Ok? {
        LeafIffGet(n, k, Get(n, k).value);
        var j :| 0 <= j < |ls| && ls[j] == (k, Get(n, k).value);
        assert ks[j] == k;
      }
    }
  }

  /**
   * `sort_keys` lists every held key exactly once, in strictly ascending
   * order, and nothing else.
   */
  lemma SortKeysCorrect<V>(n: Node<V>)
    requires WF(n)
    ensures var r := SortKeys(n);
      && |r| == Len(n)
      && (forall a, b :: 0 <= a < b < |r| ==> StringOrder.Less(r[a], r[b]))
      && (forall k :: k in r <==> Get(n, k).Ok?)
  {
    KeysFacts(n);
    LessIsStrictTotalOrder();
    Sorting.SortDistinct(Keys(n), StringOrder.Less);
  }
}
