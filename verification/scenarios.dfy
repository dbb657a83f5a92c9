/** The cases of the repository's test suites, as statements about the
    model: each lemma gives the exact result the diff reports for one input
    pair, and the record count the test checks. For the hash diff the count
    is that of the sets and moves, which the list-producing method reports
    as `allChanges.count` by its contract. */

/** The record type both test suites diff. */
module TestObjects {

  /** A record with an identity and a mutable name. */
  datatype Object = Object(objId: int, name: string)

  /** The comparator the tests pass: same identity. */
  predicate SameId(a: Object, b: Object)
  {
    a.objId == b.objId
  }

  /** Objects `A` to `D` with identities 0 to 3. */
  function Objects(): seq<Object>
  {
    [Object(0, "A"), Object(1, "B")] + [Object(2, "C"), Object(3, "D")]
  }

  /** `Objects()` with objects 1 and 3 renamed. */
  function Renamed(): seq<Object>
  {
    [Object(0, "A"), Object(1, "New name")] + [Object(2, "C"), Object(3, "New name")]
  }

  /** `Objects()` with `E` inserted at 1 and `F` appended. */
  function WithInserts(): seq<Object>
  {
    [Object(0, "A"), Object(4, "E"), Object(1, "B")] + [Object(2, "C"), Object(3, "D"), Object(5, "F")]
  }

  /** `[A, B, C]`, the old collection of the multiple-operations case. */
  function MultiOld(): seq<Object>
  {
    [Object(0, "A")] + [Object(1, "B"), Object(2, "C")]
  }

  /** `[B', D, E, C, F]`, its new collection: `B` renamed, `A` gone, `D`
      and `E` inserted before `C`, `F` appended. */
  function MultiNew(): seq<Object>
  {
    [Object(1, "New name"), Object(3, "D")] + [Object(4, "E"), Object(2, "C"), Object(5, "F")]
  }

  /** `Objects()` with the objects at 1 and 2 removed. */
  function WithRemovals(): seq<Object>
  {
    [Object(0, "A")] + [Object(3, "D")]
  }
}

module ComparatorScenarios {
  import opened Changes
  import opened ComparatorDiff
  import opened TestObjects
  import opened DiffAgreement
  import HashScenarios

  /** The comparator `$0 == $1` on numbers. */
  predicate IntEq(a: int, b: int)
  {
    a == b
  }

  /** No old elements: every new one is inserted. */
  lemma EmptyOld()
    ensures Diff([], [1, 2, 3], IntEq) == CollectionChanges(inserted := [0, 1, 2])
    ensures Diff([], [1, 2, 3], IntEq).Count() == 3
  {
    EmptySideReportsEverything([1, 2, 3], IntEq);
    assert Range(3) == [0, 1, 2];
    DefaultedInit([0, 1, 2]);
  }

  /** No new elements: every old one is removed. */
  lemma EmptyNew()
    ensures Diff([1, 2, 3], [], IntEq) == CollectionChanges(removed := [0, 1, 2])
    ensures Diff([1, 2, 3], [], IntEq).Count() == 3
  {
    EmptySideReportsEverything([1, 2, 3], IntEq);
    assert Range(3) == [0, 1, 2];
    DefaultedInit([0, 1, 2]);
  }

  /** Both empty: nothing to report. */
  lemma EmptyBoth()
    ensures Diff([], [], IntEq).Count() == 0
  {
    EmptySideReportsEverything([], IntEq);
    DefaultedInit([]);
  }

  /** No old objects: all four objects are inserted. */
  lemma EmptyOldObjects()
    ensures Diff([], Objects(), SameId) == CollectionChanges(inserted := [0, 1, 2, 3])
    ensures Diff([], Objects(), SameId).Count() == 4
  {
    EmptySideReportsEverything(Objects(), SameId);
    assert Range(4) == [0, 1, 2, 3];
    DefaultedInit([0, 1, 2, 3]);
  }

  /** No new objects: all four objects are removed. */
  lemma EmptyNewObjects()
    ensures Diff(Objects(), [], SameId) == CollectionChanges(removed := [0, 1, 2, 3])
    ensures Diff(Objects(), [], SameId).Count() == 4
  {
    EmptySideReportsEverything(Objects(), SameId);
    assert Range(4) == [0, 1, 2, 3];
    DefaultedInit([0, 1, 2, 3]);
  }

  /** Equal collections: nothing changed. */
  lemma EqualCollections()
    ensures Diff(Objects(), Objects(), SameId).Count() == 0
  {
    IdenticalInputsHaveNoChanges(Objects(), SameId);
  }

  lemma RenameMatchesAll()
    ensures forall i: nat :: !(i < |Objects()| && OldUnmatched(Objects(), Renamed(), SameId, i))
    ensures forall j: nat :: !(j < |Renamed()| && NewUnmatched(Objects(), Renamed(), SameId, j))
  {
    var o, n := Objects(), Renamed();
    forall i: nat | i < 4
      ensures !OldUnmatched(o, n, SameId, i) && !NewUnmatched(o, n, SameId, i)
    {
      assert SameId(n[i], o[i]) && SameId(o[i], n[i]);
    }
  }

  lemma RenameMovesNothing()
    ensures forall m: IndexMove :: !(m.from < |Objects()| && m.to < |Renamed()| && MoveSource(Objects(), Renamed(), SameId, m.from, m.to))
  {
    var o, n := Objects(), Renamed();
    forall m: IndexMove | m.from < 4 && m.to < 4
      ensures !MoveSource(o, n, SameId, m.from, m.to)
    {
      assert o[m.from].objId == m.from && n[m.to].objId == m.to;
    }
  }

  lemma RenameUpdates()
    ensures forall j: nat :: j in [1, 3] <==> j < |Renamed()| && ContentChanged(Objects(), Renamed(), SameId, j)
  {
    var o, n := Objects(), Renamed();
    forall j: nat | j < 4
      ensures ContentChanged(o, n, SameId, j) <==> j in [1, 3]
    {
      if ContentChanged(o, n, SameId, j) {
        var i :| 0 <= i < 4 && SameId(o[i], n[j]) && o[i] != n[j];
        assert o[i].objId == i && n[j].objId == j;
      }
      if j == 1 || j == 3 {
        assert SameId(o[j], n[j]) && o[j] != n[j];
      }
    }
  }

  /** Objects 1 and 3 renamed: two updates and nothing else. */
  lemma Rename()
    ensures Diff(Objects(), Renamed(), SameId) == CollectionChanges([], [], [], [1, 3])
  {
    RenameMatchesAll();
    RenameMovesNothing();
    RenameUpdates();
    DiffIsDetermined(Objects(), Renamed(), SameId, CollectionChanges([], [], [], [1, 3]));
  }

  // With distinct values and a comparator that is equality on them, the
  // result follows from the hash diff's result on the same inputs.

  /** `4` inserted at 1 and `5` appended: two inserts, and `2` and `3`
      pushed one place on. Four records. */
  lemma InsertPrimitives()
    ensures Diff(HashScenarios.InsOld(), HashScenarios.InsNew(), IntEq)
         == CollectionChanges([1, 4], [], [IndexMove(1, 2), IndexMove(2, 3)], [])
  {
    var o, n := HashScenarios.InsOld(), HashScenarios.InsNew();
    HashScenarios.InsertMoves();
    HashScenarios.InsertSets();
    assert Elems([1, 4]) == {1, 4};
    ComparatorFromClassification(o, n, IntEq, [1, 4], [], [IndexMove(1, 2), IndexMove(2, 3)]);
  }

  /** `2` and `4` removed: `3` and `5` pulled back. Four records. */
  lemma RemovePrimitives()
    ensures Diff(HashScenarios.OneToFive(), HashScenarios.RemNew(), IntEq)
         == CollectionChanges([], [1, 3], [IndexMove(2, 1), IndexMove(4, 2)], [])
  {
    var o, n := HashScenarios.OneToFive(), HashScenarios.RemNew();
    HashScenarios.RemoveMoves();
    HashScenarios.RemoveSets();
    assert Elems([1, 3]) == {1, 3};
    ComparatorFromClassification(o, n, IntEq, [], [1, 3], [IndexMove(2, 1), IndexMove(4, 2)]);
  }

  /** Every value but `3` changed place: four moves and nothing else. */
  lemma MovePrimitives()
    ensures Diff(HashScenarios.OneToFive(), HashScenarios.MovNew(), IntEq)
         == CollectionChanges([], [], [IndexMove(4, 0), IndexMove(0, 1), IndexMove(1, 3), IndexMove(3, 4)], [])
  {
    var o, n := HashScenarios.OneToFive(), HashScenarios.MovNew();
    HashScenarios.MoveMoves();
    HashScenarios.MoveSets();
    ComparatorFromClassification(o, n, IntEq, [], [],
                                 [IndexMove(4, 0), IndexMove(0, 1), IndexMove(1, 3), IndexMove(3, 4)]);
  }

  /** On the unrenamed objects, the same identity is the same value. */
  lemma SameIdIsEquality(n: seq<Object>)
    requires forall j | 0 <= j < |n| :: n[j].objId !in {0, 1, 2, 3} || n[j] == Objects()[n[j].objId]
    ensures MatchesEquality(Objects(), n, SameId)
  {
    var o := Objects();
    forall i, j | 0 <= i < |o| && 0 <= j < |n|
      ensures SameId(o[i], n[j]) <==> o[i] == n[j]
    {
      assert o[i].objId == i;
    }
  }

  lemma InsertedObjectsKeepIdentity()
    ensures MatchesEquality(Objects(), WithInserts(), SameId)
  {
    var n := WithInserts();
    assert n == [Object(0, "A"), Object(4, "E"), Object(1, "B"), Object(2, "C"), Object(3, "D"), Object(5, "F")];
    SameIdIsEquality(n);
  }

  /** `E` inserted at 1 and `F` appended: `B`, `C` and `D` pushed on. Five
      records. */
  lemma InsertObjects()
    ensures Diff(Objects(), WithInserts(), SameId)
         == CollectionChanges([1, 5], [], [IndexMove(1, 2), IndexMove(2, 3), IndexMove(3, 4)], [])
  {
    var o, n := Objects(), WithInserts();
    HashScenarios.InsertObjectsMoves();
    HashScenarios.InsertObjectsSets();
    InsertedObjectsKeepIdentity();
    assert Elems([1, 5]) == {1, 5};
    ComparatorFromClassification(o, n, SameId, [1, 5], [],
                                 [IndexMove(1, 2), IndexMove(2, 3), IndexMove(3, 4)]);
  }

  /** `B` and `C` removed: `D` pulled back. Three records. */
  lemma RemoveObjects()
    ensures Diff(Objects(), WithRemovals(), SameId)
         == CollectionChanges([], [1, 2], [IndexMove(3, 1)], [])
  {
    var o, n := Objects(), WithRemovals();
    HashScenarios.RemoveObjectsMoves();
    HashScenarios.RemoveObjectsSets();
    SameIdIsEquality(n);
    assert Elems([1, 2]) == {1, 2};
    ComparatorFromClassification(o, n, SameId, [], [1, 2], [IndexMove(3, 1)]);
  }

  // The multiple-operations case, one loop at a time.

  /** `B` and `C` both have counterparts among the new objects. */
  lemma MultiKept()
    ensures RemovedFrom(MultiOld(), MultiNew(), SameId, 1) == []
  {
    var o, n := MultiOld(), MultiNew();
    assert (y => SameId(y, o[2]))(n[3]);
    assert (y => SameId(y, o[1]))(n[0]);
    assert RemovedFrom(o, n, SameId, 3) == [];
    assert RemovedFrom(o, n, SameId, 2) == [];
  }

  /** Only `A` has no counterpart among the new objects. */
  lemma MultiRemoved()
    ensures RemovedFrom(MultiOld(), MultiNew(), SameId, 0) == [0]
  {
    var o, n := MultiOld(), MultiNew();
    MultiKept();
    assert !ContainsWhere(n, y => SameId(y, o[0]));
  }

  /** `C`, now at 3, is found at old offset 2, unchanged. */
  lemma MultiScanC()
    ensures ScanOld(MultiOld(), MultiNew()[3], 3, SameId, 0, Scan(false, 0, false)) == Scan(true, 2, false)
  {
    var o, y := MultiOld(), MultiNew()[3];
    assert ScanOld(o, y, 3, SameId, 3, Scan(true, 2, false)) == Scan(true, 2, false);
    assert ScanOld(o, y, 3, SameId, 2, Scan(false, 0, false)) == Scan(true, 2, false);
    assert ScanOld(o, y, 3, SameId, 1, Scan(false, 0, false)) == Scan(true, 2, false);
  }

  /** The renamed `B`, now at 0, is found at old offset 1 and differs; the
      scan stops there. */
  lemma MultiScanB()
    ensures ScanOld(MultiOld(), MultiNew()[0], 0, SameId, 0, Scan(false, 0, false)) == Scan(true, 1, true)
  {
    var o, y := MultiOld(), MultiNew()[0];
    assert ScanOld(o, y, 0, SameId, 2, Scan(true, 1, true)) == Scan(true, 1, true);
    assert ScanOld(o, y, 0, SameId, 1, Scan(false, 0, false)) == Scan(true, 1, true);
  }

  /** From new offset 3 on: `C` moves and `F` is inserted. */
  lemma MultiEnd()
    ensures NewFrom(MultiOld(), MultiNew(), SameId, 3) == NewScan([4], [IndexMove(2, 3)], [])
  {
    var o, n := MultiOld(), MultiNew();
    MultiScanC();
    assert (x => SameId(x, n[3]))(o[2]);
    assert NewFrom(o, n, SameId, 5) == NewScan([], [], []);
    assert NewFrom(o, n, SameId, 4) == NewScan([4], [], []);
  }

  /** From new offset 2 on: `E` is inserted as well. */
  lemma MultiFromE()
    ensures NewFrom(MultiOld(), MultiNew(), SameId, 2) == NewScan([2, 4], [IndexMove(2, 3)], [])
  {
    MultiEnd();
    var o, n := MultiOld(), MultiNew();
    assert forall i | 0 <= i < |o| :: !SameId(o[i], n[2]);
    assert !ContainsWhere(o, x => SameId(x, n[2]));
  }

  /** From new offset 1 on: `D`, `E` and `F` are inserted and `C` moves. */
  lemma MultiTail()
    ensures NewFrom(MultiOld(), MultiNew(), SameId, 1) == NewScan([1, 2, 4], [IndexMove(2, 3)], [])
  {
    MultiFromE();
  }

  /** The whole scan of the new objects: the renamed `B` adds a move and
      an update. */
  lemma MultiFromStart()
    ensures NewFrom(MultiOld(), MultiNew(), SameId, 0)
         == NewScan([1, 2, 4], [IndexMove(1, 0), IndexMove(2, 3)], [0])
  {
    var o, n := MultiOld(), MultiNew();
    MultiTail();
    MultiScanB();
    assert (x => SameId(x, n[0]))(o[1]);
  }

  /** `A` removed, `B` renamed and pulled to 0, `D` and `E` inserted before
      `C`, which is pushed to 3, and `F` appended: seven records, split
      3, 1, 2 and 1. */
  lemma MultipleOperations()
    ensures Diff(MultiOld(), MultiNew(), SameId)
         == CollectionChanges([1, 2, 4], [0], [IndexMove(1, 0), IndexMove(2, 3)], [0])
  {
    MultiRemoved();
    MultiFromStart();
  }
}

module HashScenarios {
  import opened Changes
  import opened HashDiff
  import opened TestObjects

  /** The scenario's result once its sets and moves are known. */
  lemma FromClassification<T>(oldItems: seq<T>, newItems: seq<T>,
                              inserted: set<nat>, removed: set<nat>, moved: seq<IndexMove>, updated: set<nat>)
    requires Distinct(oldItems) && Distinct(newItems)
    requires inserted == Pending(oldItems, newItems) - Unclaimed(oldItems, newItems)
    requires removed == Unclaimed(oldItems, newItems) - Pending(oldItems, newItems)
    requires updated == Unclaimed(oldItems, newItems) * Pending(oldItems, newItems)
    requires IncreasingTargets(moved)
    requires MovesAre(oldItems, newItems, moved)
    ensures Diff(oldItems, newItems) == HashChanges(inserted, removed, moved, updated)
  {
    DiffClassifies(oldItems, newItems);
    IncreasingTargetsUnique(Diff(oldItems, newItems).moved, moved);
  }

  // The inputs are written as concatenations so that the verifier reasons
  // about the diff's characterization instead of unfolding its loops on a
  // literal.

  /** `[1, 2, 3, 4, 5]`. */
  function OneToFive(): seq<int> { [1, 2] + [3, 4, 5] }

  // Insert: [1, 2, 3] to [1, 4, 2, 3, 5].

  function InsOld(): seq<int> { [1] + [2, 3] }
  function InsNew(): seq<int> { [1, 4] + [2, 3, 5] }

  lemma InsertMoves()
    ensures MovesAre(InsOld(), InsNew(), [IndexMove(1, 2), IndexMove(2, 3)])
  {
    var o, n := InsOld(), InsNew();
    forall m | IsMove(o, n, m)
      ensures m in [IndexMove(1, 2), IndexMove(2, 3)]
    {
      assert o[m.from] == m.from + 1;
      assert m.to == 0 || m.to == 1 || m.to == 2 || m.to == 3 || m.to == 4;
    }
  }

  lemma InsertSets()
    ensures Pending(InsOld(), InsNew()) == {1, 4}
    ensures Unclaimed(InsOld(), InsNew()) == {}
  {
    var o, n := InsOld(), InsNew();
    assert o == [1, 2, 3] && n == [1, 4, 2, 3, 5];
  }

  /** `4` inserted at 1 and `5` appended: `2` and `3` pushed on. Four
      records. */
  lemma Insert()
    ensures Diff(InsOld(), InsNew())
         == HashChanges({1, 4}, {}, [IndexMove(1, 2), IndexMove(2, 3)], {})
    ensures Diff(InsOld(), InsNew()).Count() == 4
  {
    InsertMoves();
    InsertSets();
    FromClassification(InsOld(), InsNew(), {1, 4}, {}, [IndexMove(1, 2), IndexMove(2, 3)], {});
  }

  // Remove: [1, 2, 3, 4, 5] to [1, 3, 5].

  function RemNew(): seq<int> { [1] + [3, 5] }

  lemma RemoveMoves()
    ensures MovesAre(OneToFive(), RemNew(), [IndexMove(2, 1), IndexMove(4, 2)])
  {
    var o, n := OneToFive(), RemNew();
    forall m | IsMove(o, n, m)
      ensures m in [IndexMove(2, 1), IndexMove(4, 2)]
    {
      assert o[m.from] == m.from + 1;
      assert m.to == 0 || m.to == 1 || m.to == 2;
    }
  }

  lemma RemoveSets()
    ensures Pending(OneToFive(), RemNew()) == {}
    ensures Unclaimed(OneToFive(), RemNew()) == {1, 3}
  {
    var o, n := OneToFive(), RemNew();
    assert o == [1, 2, 3, 4, 5] && n == [1, 3, 5];
  }

  /** `2` and `4` removed: `3` and `5` pulled back. Four records. */
  lemma Remove()
    ensures Diff(OneToFive(), RemNew())
         == HashChanges({}, {1, 3}, [IndexMove(2, 1), IndexMove(4, 2)], {})
    ensures Diff(OneToFive(), RemNew()).Count() == 4
  {
    RemoveMoves();
    RemoveSets();
    FromClassification(OneToFive(), RemNew(), {}, {1, 3}, [IndexMove(2, 1), IndexMove(4, 2)], {});
  }

  // Move: [1, 2, 3, 4, 5] to [5, 1, 3, 2, 4].

  function MovNew(): seq<int> { [5, 1] + [3, 2, 4] }

  lemma MoveMoves()
    ensures MovesAre(OneToFive(), MovNew(),
                     [IndexMove(4, 0), IndexMove(0, 1), IndexMove(1, 3), IndexMove(3, 4)])
  {
    var o, n := OneToFive(), MovNew();
    forall m | IsMove(o, n, m)
      ensures m in [IndexMove(4, 0), IndexMove(0, 1), IndexMove(1, 3), IndexMove(3, 4)]
    {
      assert o[m.from] == m.from + 1;
      assert m.to == 0 || m.to == 1 || m.to == 2 || m.to == 3 || m.to == 4;
    }
  }

  lemma MoveSets()
    ensures Pending(OneToFive(), MovNew()) == {}
    ensures Unclaimed(OneToFive(), MovNew()) == {}
  {
    var o, n := OneToFive(), MovNew();
    assert o == [1, 2, 3, 4, 5] && n == [5, 1, 3, 2, 4];
  }

  /** Every value but `3` changed place: four moves and nothing else. */
  lemma Move()
    ensures Diff(OneToFive(), MovNew())
         == HashChanges({}, {}, [IndexMove(4, 0), IndexMove(0, 1), IndexMove(1, 3), IndexMove(3, 4)], {})
    ensures Diff(OneToFive(), MovNew()).Count() == 4
  {
    MoveMoves();
    MoveSets();
    FromClassification(OneToFive(), MovNew(), {}, {},
                       [IndexMove(4, 0), IndexMove(0, 1), IndexMove(1, 3), IndexMove(3, 4)], {});
  }

  // Update: [1, 2, 3, 4, 5] to [1, 2, 3, 6, 5].

  function UpdNew(): seq<int> { [1, 2] + [3, 6, 5] }

  lemma UpdateMoves()
    ensures MovesAre(OneToFive(), UpdNew(), [])
  {
    var o, n := OneToFive(), UpdNew();
    forall m: IndexMove | m.from < 5 && m.to < 5
      ensures !IsMove(o, n, m)
    {
      assert o[m.from] == m.from + 1;
      assert m.to == 0 || m.to == 1 || m.to == 2 || m.to == 3 || m.to == 4;
    }
  }

  lemma UpdateSets()
    ensures Pending(OneToFive(), UpdNew()) == {3}
    ensures Unclaimed(OneToFive(), UpdNew()) == {3}
  {
    var o, n := OneToFive(), UpdNew();
    assert o == [1, 2, 3, 4, 5] && n == [1, 2, 3, 6, 5];
  }

  /** `4` replaced by `6` in place: one update. */
  lemma Update()
    ensures Diff(OneToFive(), UpdNew()) == HashChanges({}, {}, [], {3})
    ensures Diff(OneToFive(), UpdNew()).Count() == 1
  {
    UpdateMoves();
    UpdateSets();
    FromClassification(OneToFive(), UpdNew(), {}, {}, [], {3});
  }

  // Multiple operations on records compared by whole value.

  lemma MultiMoves()
    ensures MovesAre(MultiOld(), MultiNew(), [IndexMove(2, 3)])
  {
    var o, n := MultiOld(), MultiNew();
    forall m | IsMove(o, n, m)
      ensures m == IndexMove(2, 3)
    {
      assert o[m.from].objId == m.from;
      assert m.to == 0 || m.to == 1 || m.to == 2 || m.to == 3 || m.to == 4;
    }
  }

  lemma MultiSets()
    ensures Pending(MultiOld(), MultiNew()) == {0, 1, 2, 4}
    ensures Unclaimed(MultiOld(), MultiNew()) == {0, 1}
  {
    var o, n := MultiOld(), MultiNew();
    assert o == [Object(0, "A"), Object(1, "B"), Object(2, "C")];
    assert n == [Object(1, "New name"), Object(3, "D"), Object(4, "E"), Object(2, "C"), Object(5, "F")];
  }

  /** With equality as identity, the renamed `B` is a new value: old
      offsets 0 and 1 are updated in place, `C` moves, `E` and `F` are
      inserted. Five records. */
  lemma MultipleOperations()
    ensures Diff(MultiOld(), MultiNew()) == HashChanges({2, 4}, {}, [IndexMove(2, 3)], {0, 1})
    ensures Diff(MultiOld(), MultiNew()).Count() == 5
  {
    MultiMoves();
    MultiSets();
    FromClassification(MultiOld(), MultiNew(), {2, 4}, {}, [IndexMove(2, 3)], {0, 1});
  }

  // Records compared by whole value.

  lemma InsertObjectsMoves()
    ensures MovesAre(Objects(), WithInserts(), [IndexMove(1, 2), IndexMove(2, 3), IndexMove(3, 4)])
  {
    var o, n := Objects(), WithInserts();
    forall m | IsMove(o, n, m)
      ensures m in [IndexMove(1, 2), IndexMove(2, 3), IndexMove(3, 4)]
    {
      assert o[m.from].objId == m.from;
      assert m.to == 0 || m.to == 1 || m.to == 2 || m.to == 3 || m.to == 4 || m.to == 5;
    }
  }

  lemma InsertObjectsSets()
    ensures Pending(Objects(), WithInserts()) == {1, 5}
    ensures Unclaimed(Objects(), WithInserts()) == {}
  {
    var o, n := Objects(), WithInserts();
    assert o == [Object(0, "A"), Object(1, "B"), Object(2, "C"), Object(3, "D")];
    assert n == [Object(0, "A"), Object(4, "E"), Object(1, "B"), Object(2, "C"), Object(3, "D"), Object(5, "F")];
  }

  /** `E` inserted at 1 and `F` appended: `B`, `C` and `D` pushed on. Five
      records. */
  lemma InsertObjects()
    ensures Diff(Objects(), WithInserts())
         == HashChanges({1, 5}, {}, [IndexMove(1, 2), IndexMove(2, 3), IndexMove(3, 4)], {})
    ensures Diff(Objects(), WithInserts()).Count() == 5
  {
    InsertObjectsMoves();
    InsertObjectsSets();
    FromClassification(Objects(), WithInserts(), {1, 5}, {},
                       [IndexMove(1, 2), IndexMove(2, 3), IndexMove(3, 4)], {});
  }

  lemma RemoveObjectsMoves()
    ensures MovesAre(Objects(), WithRemovals(), [IndexMove(3, 1)])
  {
    var o, n := Objects(), WithRemovals();
    forall m | IsMove(o, n, m)
      ensures m == IndexMove(3, 1)
    {
      assert o[m.from].objId == m.from;
      assert m.to == 0 || m.to == 1;
    }
  }

  lemma RemoveObjectsSets()
    ensures Pending(Objects(), WithRemovals()) == {}
    ensures Unclaimed(Objects(), WithRemovals()) == {1, 2}
  {
    var o, n := Objects(), WithRemovals();
    assert o == [Object(0, "A"), Object(1, "B"), Object(2, "C"), Object(3, "D")];
    assert n == [Object(0, "A"), Object(3, "D")];
  }

  /** `B` and `C` removed: `D` pulled back. Three records. */
  lemma RemoveObjects()
    ensures Diff(Objects(), WithRemovals()) == HashChanges({}, {1, 2}, [IndexMove(3, 1)], {})
    ensures Diff(Objects(), WithRemovals()).Count() == 3
  {
    RemoveObjectsMoves();
    RemoveObjectsSets();
    FromClassification(Objects(), WithRemovals(), {}, {1, 2}, [IndexMove(3, 1)], {});
  }

  lemma RenameMoves()
    ensures MovesAre(Objects(), Renamed(), [])
  {
    var o, n := Objects(), Renamed();
    forall m: IndexMove | m.from < 4 && m.to < 4
      ensures !IsMove(o, n, m)
    {
      assert o[m.from].objId == m.from && n[m.to].objId == m.to;
    }
  }

  lemma RenameSets()
    ensures Pending(Objects(), Renamed()) == {1, 3}
    ensures Unclaimed(Objects(), Renamed()) == {1, 3}
  {
    var o, n := Objects(), Renamed();
    assert o == [Object(0, "A"), Object(1, "B"), Object(2, "C"), Object(3, "D")];
    assert n == [Object(0, "A"), Object(1, "New name"), Object(2, "C"), Object(3, "New name")];
  }

  /** Objects 1 and 3 renamed in place: each is a different value at the same
      index, so two updates. */
  lemma Rename()
    ensures Diff(Objects(), Renamed()) == HashChanges({}, {}, [], {1, 3})
    ensures Diff(Objects(), Renamed()).Count() == 2
  {
    RenameMoves();
    RenameSets();
    FromClassification(Objects(), Renamed(), {}, {}, [], {1, 3});
  }
}
