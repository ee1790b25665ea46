/**
 * A run of the double key table, on the default schedule with nested arrays
 * of size 5, in which a set reads back a stale value. `"F"` and `"A"` both
 * hash to top-level slot 0, so `"A"` lands in slot 1. Deleting `("F", "x")`
 * frees slot 0 with no tombstone, so the next set of `("A", "x")` stops at
 * slot 0 and starts a second nested array for `"A"`. That set reaches half
 * the size and resizes. Slot 0 is re-inserted before slot 1, so the old
 * value 2 overwrites the new value 3.
 */
module DoubleKeyStale {
  import opened Wrappers
  import opened DoubleKeySpec
  import opened DoubleKeyClean

  const E: Option<(string, int)> := None
  const N: Option<(string, Sub<int>)> := None

  function X(v: int): Sub<int> {
    [Some(("x", v)), E, E, E, E]
  }

  /** The hashes of the run: `"F"` and `"A"` to 0 and `"C"` to 2, at sizes 5 and 13. */
  lemma Hashes()
    ensures Hash1("F", 5) == 0 && Hash1("A", 5) == 0 && Hash1("C", 5) == 2
    ensures Hash1("A", 13) == 0 && Hash1("C", 13) == 2 && Hash2("x", 5) == 0
  {
  }

  /** The shape of a table of this run: its slots hold nested arrays `X(_)`. */
  lemma ShapedRun(s: State<int>)
    requires s.sizes == DefaultSizes && s.sizeIndex < 2 && |s.slots| == DefaultSizes[s.sizeIndex] && s.innerCap == 5
    requires forall i :: 0 <= i < |s.slots| && s.slots[i].Some? ==>
      s.slots[i].value.0 in ["F", "A", "C"] && s.slots[i].value.1 in [X(0), X(1), X(2), X(3)]
    ensures Shaped(s)
    ensures forall i :: 0 <= i < |s.slots| && s.slots[i].Some? ==> !AllNone(s.slots[i].value.1)
  {
    DefaultSizesPositive();
    forall i | 0 <= i < |s.slots| && s.slots[i].Some?
      ensures |s.slots[i].value.1| == 5 && KeysNonEmpty(s.slots[i].value.1) && s.slots[i].value.1[0].Some?
    {
    }
  }

  /** After `t["F", "x"] = 1`. */
  function S1(): State<int> { State([Some(("F", X(1))), N, N, N, N], 1, DefaultSizes, 0, 5) }
  /** After `t["A", "x"] = 2`: `"A"` probed past slot 0 into slot 1. */
  function S2(): State<int> { State([Some(("F", X(1))), Some(("A", X(2))), N, N, N], 2, DefaultSizes, 0, 5) }
  /** After `del t["F", "x"]`: slot 0 free again, `"A"` still in slot 1. */
  function S3(): State<int> { State([N, Some(("A", X(2))), N, N, N], 1, DefaultSizes, 0, 5) }
  /** After `t["C", "x"] = 0`. */
  function S4(): State<int> { State([N, Some(("A", X(2))), Some(("C", X(0))), N, N], 2, DefaultSizes, 0, 5) }
  /** `t["A", "x"] = 3` before its resize: `"A"` in slots 0 and 1. */
  function T5(): State<int> { State([Some(("A", X(3))), Some(("A", X(2))), Some(("C", X(0))), N, N], 3, DefaultSizes, 0, 5) }
  /** The resized table after each re-inserted pair. */
  function R1(): State<int> { State([Some(("A", X(3))), N, N, N, N, N, N, N, N, N, N, N, N], 1, DefaultSizes, 1, 5) }
  function R2(): State<int> { State([Some(("A", X(2))), N, N, N, N, N, N, N, N, N, N, N, N], 1, DefaultSizes, 1, 5) }
  function R3(): State<int> { State([Some(("A", X(2))), N, Some(("C", X(0))), N, N, N, N, N, N, N, N, N, N], 2, DefaultSizes, 1, 5) }

  lemma Step1()
    ensures SetItem(Init<int>(DefaultSizes, 5), "F", "x", 1) == Done(S1())
  {
    var s := Init<int>(DefaultSizes, 5);
    assert s.slots == [N, N, N, N, N];
    Hashes();
    assert Locate1(s, "F") == Found(0);
    var sub := EmptySub<int>(5);
    assert sub == [E, E, E, E, E];
    assert Locate2(sub, "x") == Found(0);
    assert sub[0 := Some(("x", 1))] == X(1);
    assert s.slots[0 := Some(("F", X(1)))] == S1().slots;
    assert Put(s, "F", "x", 1) == Done(S1());
  }

  lemma XEntries(k: string, v: int)
    ensures SubEntries(k, X(v)) == [(k, "x", v)] && SomeCount(X(v)) == 1
  {
    SubEntriesCount(k, X(v));
    var x := X(v);
    assert x[..1][..0] == [];
    assert SubEntries(k, x[..1]) == [(k, "x", v)];
    assert x[..2][..1] == x[..1];
    assert SubEntries(k, x[..2]) == [(k, "x", v)];
    assert x[..3][..2] == x[..2];
    assert SubEntries(k, x[..3]) == [(k, "x", v)];
    assert x[..4][..3] == x[..3];
    assert SubEntries(k, x[..4]) == [(k, "x", v)];
    assert x[..4] == x[..|x| - 1];
  }

  /** One slot more at the end adds its pairs. */
  lemma FlattenSnoc(xs: Slots<int>, x: Option<(string, Sub<int>)>)
    ensures Flatten(xs + [x]) == Flatten(xs) + SlotEntries(x)
  {
    assert (xs + [x])[..|xs|] == xs;
  }

  /** One slot more at the end adds its taken-ness. */
  lemma CountSnoc(xs: Slots<int>, x: Option<(string, Sub<int>)>)
    ensures SomeCount(xs + [x]) == SomeCount(xs) + Cnt(x)
  {
    assert (xs + [x])[..|xs|] == xs;
  }

  /** Free slots after `pre` add no pairs and no taken slots. */
  lemma {:induction false} FreeTail<V>(pre: Slots<V>, rest: Slots<V>)
    requires AllNone(rest)
    ensures Flatten(pre + rest) == Flatten(pre) && SomeCount(pre + rest) == SomeCount(pre)
    ensures PairCount(pre + rest) == PairCount(pre)
    decreases |rest|
  {
    if rest != [] {
      var n := |rest| - 1;
      assert (pre + rest)[..|pre + rest| - 1] == pre + rest[..n];
      assert (pre + rest)[|pre + rest| - 1] == rest[n];
      FreeTail(pre, rest[..n]);
    } else {
      assert pre + rest == pre;
    }
  }

  lemma FlattenOne<V>(x: Option<(string, Sub<V>)>)
    ensures Flatten([x]) == SlotEntries(x)
  {
    assert [x][..0] == [];
  }

  lemma S1Facts()
    ensures Shaped(S1()) && CountInv(S1()) && Pairs(S1()) == 1
  {
    ShapedRun(S1());
    var s := S1();
    XEntries("F", 1);
    assert s.slots == [Some(("F", X(1)))] + [N, N, N, N];
    FreeTail([Some(("F", X(1)))], [N, N, N, N]);
    FlattenOne(Some(("F", X(1))));
    assert [Some(("F", X(1)))][..0] == [];
    assert SomeCount([Some(("F", X(1)))]) == 1 && PairCount([Some(("F", X(1)))]) == 1;
    assert X(1)[0].Some?;
  }

  lemma Step2()
    ensures Shaped(S1()) && CountInv(S1()) && Pairs(S1()) == 1
    ensures SetItem(S1(), "A", "x", 2) == Done(S2())
  {
    S1Facts();
    var s := S1();
    Hashes();
    assert Locate1(s, "A") == Found(1);
    var sub := EmptySub<int>(5);
    assert sub == [E, E, E, E, E];
    assert Locate2(sub, "x") == Found(0);
    assert sub[0 := Some(("x", 2))] == X(2);
    assert s.slots[1 := Some(("A", X(2)))] == S2().slots;
    assert Put(s, "A", "x", 2) == Done(S2());
  }

  function Cnt(x: Option<(string, Sub<int>)>): nat { if x.Some? then 1 else 0 }

  lemma Five(a: Option<(string, Sub<int>)>, b: Option<(string, Sub<int>)>, c: Option<(string, Sub<int>)>,
             d: Option<(string, Sub<int>)>, e: Option<(string, Sub<int>)>)
    ensures Flatten([a, b, c, d, e]) == SlotEntries(a) + SlotEntries(b) + SlotEntries(c) + SlotEntries(d) + SlotEntries(e)
    ensures SomeCount([a, b, c, d, e]) == Cnt(a) + Cnt(b) + Cnt(c) + Cnt(d) + Cnt(e)
    ensures PairCount([a, b, c, d, e]) == |Flatten([a, b, c, d, e])|
  {
    FiveFlatten(a, b, c, d, e);
    FiveCount(a, b, c, d, e);
    PairCountFlatten([a, b, c, d, e]);
  }

  /** The five-slot list built one slot at a time. */
  lemma Snoc5<T>(a: T, b: T, c: T, d: T, e: T)
    ensures [] + [a] == [a] && [a] + [b] == [a, b] && [a, b] + [c] == [a, b, c]
    ensures [a, b, c] + [d] == [a, b, c, d] && [a, b, c, d] + [e] == [a, b, c, d, e]
  {
  }

  lemma FiveFlatten(a: Option<(string, Sub<int>)>, b: Option<(string, Sub<int>)>, c: Option<(string, Sub<int>)>,
                    d: Option<(string, Sub<int>)>, e: Option<(string, Sub<int>)>)
    ensures Flatten([a, b, c, d, e]) == SlotEntries(a) + SlotEntries(b) + SlotEntries(c) + SlotEntries(d) + SlotEntries(e)
  {
    Snoc5(a, b, c, d, e);
    FlattenSnoc([], a);
    assert Flatten([a]) == SlotEntries(a);
    FlattenSnoc([a], b);
    FlattenSnoc([a, b], c);
    FlattenSnoc([a, b, c], d);
    FlattenSnoc([a, b, c, d], e);
  }

  lemma FiveCount(a: Option<(string, Sub<int>)>, b: Option<(string, Sub<int>)>, c: Option<(string, Sub<int>)>,
                  d: Option<(string, Sub<int>)>, e: Option<(string, Sub<int>)>)
    ensures SomeCount([a, b, c, d, e]) == Cnt(a) + Cnt(b) + Cnt(c) + Cnt(d) + Cnt(e)
  {
    Snoc5(a, b, c, d, e);
    CountSnoc([], a);
    CountSnoc([a], b);
    CountSnoc([a, b], c);
    CountSnoc([a, b, c], d);
    CountSnoc([a, b, c, d], e);
  }

  lemma S2Facts()
    ensures Shaped(S2()) && CountInv(S2()) && Pairs(S2()) == 2
  {
    ShapedRun(S2());
    XEntries("F", 1);
    XEntries("A", 2);
    Five(Some(("F", X(1))), Some(("A", X(2))), N, N, N);
    assert X(1)[0].Some? && X(2)[0].Some?;
  }

  lemma Step3()
    ensures Shaped(S2()) && Delete(S2(), "F", "x") == Done(Ok(S3()))
  {
    S2Facts();
    var s := S2();
    Hashes();
    assert Locate1(s, "F") == Found(0);
    assert Locate2(X(1), "x") == Found(0);
    assert AllNone(X(1)[0 := None]);
    assert s.slots[0 := None] == S3().slots;
  }

  lemma S3Facts()
    ensures Shaped(S3()) && CountInv(S3()) && Pairs(S3()) == 1
  {
    ShapedRun(S3());
    XEntries("A", 2);
    Five(N, Some(("A", X(2))), N, N, N);
    assert X(2)[0].Some?;
  }

  lemma Step4()
    ensures Shaped(S3()) && CountInv(S3()) && Pairs(S3()) == 1
    ensures SetItem(S3(), "C", "x", 0) == Done(S4())
  {
    S3Facts();
    var s := S3();
    Hashes();
    assert Locate1(s, "C") == Found(2);
    var sub := EmptySub<int>(5);
    assert sub == [E, E, E, E, E];
    assert Locate2(sub, "x") == Found(0);
    assert sub[0 := Some(("x", 0))] == X(0);
    assert s.slots[2 := Some(("C", X(0)))] == S4().slots;
    assert Put(s, "C", "x", 0) == Done(S4());
  }

  lemma S4Facts()
    ensures Shaped(S4()) && CountInv(S4()) && Pairs(S4()) == 2
  {
    ShapedRun(S4());
    XEntries("A", 2);
    XEntries("C", 0);
    Five(N, Some(("A", X(2))), Some(("C", X(0))), N, N);
    assert X(2)[0].Some? && X(0)[0].Some?;
  }

  lemma T5Facts()
    ensures Shaped(T5()) && CountInv(T5()) && Pairs(T5()) == 3
  {
    ShapedRun(T5());
    XEntries("A", 3);
    XEntries("A", 2);
    XEntries("C", 0);
    Five(Some(("A", X(3))), Some(("A", X(2))), Some(("C", X(0))), N, N);
  }

  lemma T5Flatten()
    ensures Flatten(T5().slots) == T5Pairs()
  {
    XEntries("A", 3);
    XEntries("A", 2);
    XEntries("C", 0);
    Five(Some(("A", X(3))), Some(("A", X(2))), Some(("C", X(0))), N, N);
  }

  lemma Put5()
    ensures Shaped(S4()) && CountInv(S4()) && Put(S4(), "A", "x", 3) == Done(T5())
  {
    S4Facts();
    var s := S4();
    Hashes();
    assert Locate1(s, "A") == Found(0);
    var sub := EmptySub<int>(5);
    assert sub == [E, E, E, E, E];
    assert Locate2(sub, "x") == Found(0);
    assert sub[0 := Some(("x", 3))] == X(3);
    assert s.slots[0 := Some(("A", X(3)))] == T5().slots;
  }

  /** The fresh table of size 13 that `_rehash` starts from. */
  function A0(): State<int> { State([N, N, N, N, N, N, N, N, N, N, N, N, N], 0, DefaultSizes, 1, 5) }

  lemma Three(a: Option<(string, Sub<int>)>, c: Option<(string, Sub<int>)>)
    ensures Flatten([a, N, c]) == SlotEntries(a) + SlotEntries(c)
    ensures SomeCount([a, N, c]) == Cnt(a) + Cnt(c)
  {
    ThreeFlatten(a, c);
    ThreeCount(a, c);
  }

  lemma Snoc3<T>(a: T, b: T, c: T)
    ensures [] + [a] == [a] && [a] + [b] == [a, b] && [a, b] + [c] == [a, b, c]
  {
  }

  lemma ThreeFlatten(a: Option<(string, Sub<int>)>, c: Option<(string, Sub<int>)>)
    ensures Flatten([a, N, c]) == SlotEntries(a) + SlotEntries(c)
  {
    assert [a, N, c][..2] == [a, N] && [a, N][..1] == [a] && [a][..0] == [];
    assert Flatten([a]) == SlotEntries(a);
    assert Flatten([a, N]) == SlotEntries(a);
  }

  lemma ThreeCount(a: Option<(string, Sub<int>)>, c: Option<(string, Sub<int>)>)
    ensures SomeCount([a, N, c]) == Cnt(a) + Cnt(c)
  {
    Snoc3(a, N, c);
    CountSnoc([], a);
    CountSnoc([a], N);
    CountSnoc([a, N], c);
  }

  lemma Thirteen(a: Option<(string, Sub<int>)>, c: Option<(string, Sub<int>)>)
    ensures var s := [a, N, c, N, N, N, N, N, N, N, N, N, N];
      && Flatten(s) == SlotEntries(a) + SlotEntries(c)
      && SomeCount(s) == Cnt(a) + Cnt(c)
      && PairCount(s) == |SlotEntries(a)| + |SlotEntries(c)|
  {
    var rest := [N, N, N, N, N, N, N, N, N, N];
    assert [a, N, c, N, N, N, N, N, N, N, N, N, N] == [a, N, c] + rest;
    FreeTail([a, N, c], rest);
    Three(a, c);
    PairCountFlatten([a, N, c] + rest);
  }

  lemma R1Facts()
    ensures Shaped(R1()) && CountInv(R1()) && Pairs(R1()) == 1
  {
    ShapedRun(R1());
    XEntries("A", 3);
    Thirteen(Some(("A", X(3))), N);
    assert X(3)[0].Some?;
  }

  lemma R2Facts()
    ensures Shaped(R2()) && CountInv(R2()) && Pairs(R2()) == 1
  {
    ShapedRun(R2());
    XEntries("A", 2);
    Thirteen(Some(("A", X(2))), N);
    assert X(2)[0].Some?;
  }

  lemma A0Facts()
    ensures Shaped(A0()) && CountInv(A0()) && Pairs(A0()) == 0 && 2 * A0().count < |A0().slots|
  {
    ShapedRun(A0());
    Thirteen(N, N);
  }

  lemma Put1()
    ensures Shaped(A0()) && CountInv(A0()) && Put(A0(), "A", "x", 3) == Done(R1())
  {
    A0Facts();
    var s := A0();
    Hashes();
    assert Locate1(s, "A") == Found(0);
    var sub := EmptySub<int>(5);
    assert sub == [E, E, E, E, E];
    assert Locate2(sub, "x") == Found(0);
    assert sub[0 := Some(("x", 3))] == X(3);
    assert s.slots[0 := Some(("A", X(3)))] == R1().slots;
  }

  lemma Re1()
    ensures Shaped(A0()) && CountInv(A0()) && Pairs(A0()) == 0
    ensures Set(A0(), "A", "x", 3, 3) == Done(R1())
  {
    A0Facts();
    Put1();
  }

  lemma Re2()
    ensures Shaped(R1()) && CountInv(R1()) && Pairs(R1()) == 1
    ensures Set(R1(), "A", "x", 2, 3) == Done(R2())
  {
    R1Facts();
    var s := R1();
    Hashes();
    assert Locate1(s, "A") == Found(0);
    assert Locate2(X(3), "x") == Found(0);
    assert X(3)[0 := Some(("x", 2))] == X(2);
    assert !AllNone(X(3));
    assert s.slots[0 := Some(("A", X(2)))] == R2().slots;
    assert Put(s, "A", "x", 2) == Done(R2());
  }

  lemma Re3()
    ensures Shaped(R2()) && CountInv(R2()) && Pairs(R2()) == 1
    ensures Set(R2(), "C", "x", 0, 3) == Done(R3())
  {
    R2Facts();
    var s := R2();
    Hashes();
    assert Locate1(s, "C") == Found(2);
    var sub := EmptySub<int>(5);
    assert sub == [E, E, E, E, E];
    assert Locate2(sub, "x") == Found(0);
    assert sub[0 := Some(("x", 0))] == X(0);
    assert s.slots[2 := Some(("C", X(0)))] == R3().slots;
    assert Put(s, "C", "x", 0) == Done(R3());
  }

  lemma AdvanceT5()
    ensures Shaped(T5()) && Advance(T5()) == A0()
  {
    T5Facts();
    assert Advance(T5()).slots == A0().slots;
  }

  /** The pairs of `T5()` in the order `_rehash` re-inserts them. */
  function T5Pairs(): seq<(string, string, int)> {
    [("A", "x", 3), ("A", "x", 2), ("C", "x", 0)]
  }

  lemma Reinsert1()
    ensures Shaped(A0()) && CountInv(A0()) && Pairs(A0()) == 0 && 2 * A0().count < |A0().slots|
    ensures ReinsertAll(A0(), T5Pairs(), 1, 3) == Done(R1())
  {
    A0Facts();
    Re1();
  }

  lemma Reinsert2()
    ensures Shaped(A0()) && CountInv(A0()) && Pairs(A0()) == 0 && 2 * A0().count < |A0().slots|
    ensures ReinsertAll(A0(), T5Pairs(), 2, 3) == Done(R2())
  {
    Reinsert1();
    Re2();
  }

  lemma Reinserts()
    ensures Shaped(A0()) && CountInv(A0()) && Pairs(A0()) == 0 && 2 * A0().count < |A0().slots|
    ensures ReinsertAll(A0(), T5Pairs(), 3, 3) == Done(R3())
  {
    Reinsert2();
    Re3();
  }

  lemma Step5()
    ensures Shaped(S4()) && CountInv(S4()) && Pairs(S4()) == 2
    ensures SetItem(S4(), "A", "x", 3) == Done(R3())
  {
    S4Facts();
    Put5();
    RehashT5();
  }

  /** The resize that the set of `("A", "x", 3)` runs into. */
  lemma RehashT5()
    ensures Shaped(T5()) && CountInv(T5()) && Pairs(T5()) <= 3 && 2 * T5().count >= |T5().slots|
    ensures Rehash(T5(), 3) == Done(R3())
  {
    T5Facts();
    T5Flatten();
    AdvanceT5();
    Reinserts();
  }

  lemma R3Shaped()
    ensures Shaped(R3())
  {
    ShapedRun(R3());
  }

  lemma GetR3()
    ensures Shaped(R3()) && Get(R3(), "A", "x") == Done(Ok(2))
  {
    R3Shaped();
    Hashes();
    assert Locate1(R3(), "A") == Found(0);
    assert Locate2(X(2), "x") == Found(0);
  }

  lemma GetT5()
    ensures Shaped(T5()) && Get(T5(), "A", "x") == Done(Ok(3))
  {
    T5Facts();
    Hashes();
    assert Locate1(T5(), "A") == Found(0);
    assert Locate2(X(3), "x") == Found(0);
  }

  lemma R3Entries()
    ensures Flatten(R3().slots) == [("A", "x", 2), ("C", "x", 0)] && SomeCount(R3().slots) == 2
  {
    XEntries("A", 2);
    XEntries("C", 0);
    Thirteen(Some(("A", X(2))), Some(("C", X(0))));
  }

  /**
   * From a new table, five operations: the last set, of value 3, reads back
   * the stale value 2.
   */
  lemma StaleValueAfterResize()
    ensures SetItem(Init<int>(DefaultSizes, 5), "F", "x", 1) == Done(S1())
    ensures Shaped(S1()) && CountInv(S1()) && SetItem(S1(), "A", "x", 2) == Done(S2())
    ensures Shaped(S2()) && Delete(S2(), "F", "x") == Done(Ok(S3()))
    ensures Shaped(S3()) && CountInv(S3()) && SetItem(S3(), "C", "x", 0) == Done(S4())
    ensures Shaped(S4()) && CountInv(S4()) && SetItem(S4(), "A", "x", 3) == Done(R3())
    ensures Shaped(R3()) && Get(R3(), "A", "x") == Done(Ok(2))
  {
    Step1();
    Step2();
    Step3();
    Step4();
    Step5();
    GetR3();
  }

  /**
   * Right before the resize the new value reads back; the resize drops the
   * pair `("A", "x", 3)` and takes `count` from 3 to 2.
   */
  lemma ResizeLosesPair()
    ensures Shaped(S4()) && CountInv(S4()) && Put(S4(), "A", "x", 3) == Done(T5())
    ensures Shaped(T5()) && Get(T5(), "A", "x") == Done(Ok(3))
    ensures CountInv(T5()) && Pairs(T5()) <= 3 && 2 * T5().count >= |T5().slots|
    ensures Rehash(T5(), 3) == Done(R3())
    ensures ("A", "x", 3) in Flatten(T5().slots) && ("A", "x", 3) !in Flatten(R3().slots)
    ensures T5().count == 3 && R3().count == 2
  {
    Put5();
    GetT5();
    RehashT5();
    LostPair();
  }

  lemma LostPair()
    ensures ("A", "x", 3) in Flatten(T5().slots) && ("A", "x", 3) !in Flatten(R3().slots)
  {
    T5Flatten();
    R3Entries();
  }

  /**
   * The first symptom, before any resize: right after the delete, `"A"`
   * no longer reads back although its pair is still stored, because its
   * probe now stops at the freed slot 0.
   */
  lemma DeleteHidesPair()
    ensures Shaped(S3()) && Get(S3(), "A", "x") == Done(Err(KeyError))
    ensures ("A", "x", 2) in Flatten(S3().slots)
  {
    S3Facts();
    XEntries("A", 2);
    Five(N, Some(("A", X(2))), N, N, N);
    Hashes();
  }

  /** The nested arrays of the run are clean. */
  lemma XClean(v: int)
    ensures SubClean(X(v))
  {
    Hashes();
    assert Locate2(X(v), "x") == Found(0);
  }

  /** Before the delete, `"F"` probes to slot 0 and `"A"` past it to slot 1. */
  lemma S2Probes()
    ensures Shaped(S2()) && Locate1(S2(), "F") == Found(0) && Locate1(S2(), "A") == Found(1)
  {
    ShapedRun(S2());
    Hashes();
  }

  /** The table is clean before the delete. */
  lemma CleanBeforeDelete()
    ensures Shaped(S2()) && Clean(S2())
  {
    S2Probes();
    XClean(1);
    XClean(2);
    var s := S2();
    forall i | 0 <= i < |s.slots| && s.slots[i].Some?
      ensures Locate1(s, s.slots[i].value.0) == Found(i) && SubClean(s.slots[i].value.1)
    {
      assert i == 0 || i == 1;
    }
  }

  /** After the delete the table is no longer clean: `"A"` sits in slot 1 but its probe stops at 0. */
  lemma NotCleanAfterDelete()
    ensures Shaped(S3()) && !Clean(S3())
  {
    ShapedRun(S3());
    Hashes();
    assert S3().slots[1] == Some(("A", X(2)));
    assert Locate1(S3(), "A") == Found(0);
  }
}
