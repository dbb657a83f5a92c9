/** How the two diffs relate. When the comparator matches exactly the equal
    elements and no value repeats, both diffs see the same identities, and
    their results differ only in how they report a value that vanished and a
    value that appeared at one index: the comparator diff lists the pair as a
    removal and an insert, the hash diff merges it into one update. */
module DiffAgreement {
  import opened Changes
  import ComparatorDiff
  import HashDiff

  /** On the given inputs the comparator, asked either way round, matches
      exactly the equal elements. */
  predicate MatchesEquality<T(==)>(oldItems: seq<T>, newItems: seq<T>, cmp: (T, T) -> bool)
  {
    forall i, j | 0 <= i < |oldItems| && 0 <= j < |newItems| ::
      && (cmp(oldItems[i], newItems[j]) <==> oldItems[i] == newItems[j])
      && (cmp(newItems[j], oldItems[i]) <==> oldItems[i] == newItems[j])
  }

  /** For distinct values and a comparator that is equality on the inputs,
      the comparator diff inserts what the hash diff inserts or updates,
      removes what it removes or updates, reports the same moves in the same
      order, and reports no update of its own. */
  lemma ComparatorAgreesWithHashDiff<T>(oldItems: seq<T>, newItems: seq<T>, cmp: (T, T) -> bool)
    requires HashDiff.Distinct(oldItems) && HashDiff.Distinct(newItems)
    requires MatchesEquality(oldItems, newItems, cmp)
    ensures var c, h := ComparatorDiff.Diff(oldItems, newItems, cmp), HashDiff.Diff(oldItems, newItems);
      && Elems(c.inserted) == h.inserted + h.updated
      && Elems(c.removed) == h.removed + h.updated
      && c.moved == h.moved
      && c.updated == []
  {
    var c, h := ComparatorDiff.Diff(oldItems, newItems, cmp), HashDiff.Diff(oldItems, newItems);
    HashDiff.DiffClassifies(oldItems, newItems);
    var pending := HashDiff.Pending(oldItems, newItems);
    var unclaimed := HashDiff.Unclaimed(oldItems, newItems);
    assert h.inserted + h.updated == pending;
    assert h.removed + h.updated == unclaimed;
    forall j: nat | j < |newItems|
      ensures ComparatorDiff.NewUnmatched(oldItems, newItems, cmp, j) <==> j in pending
    {
      if newItems[j] in oldItems {
        var i :| 0 <= i < |oldItems| && oldItems[i] == newItems[j];
      }
    }
    forall i: nat | i < |oldItems|
      ensures ComparatorDiff.OldUnmatched(oldItems, newItems, cmp, i) <==> i in unclaimed
    {
      if oldItems[i] in newItems {
        var j :| 0 <= j < |newItems| && newItems[j] == oldItems[i];
      }
    }
    // With distinct old values, the lowest matching old offset is the only
    // one, so the comparator diff's moves are the index changes of values.
    forall m: IndexMove
      ensures m in c.moved <==> HashDiff.IsMove(oldItems, newItems, m)
    {
      if HashDiff.IsMove(oldItems, newItems, m) {
        forall k | 0 <= k < m.from
          ensures !ComparatorDiff.MovedMatch(oldItems, newItems, cmp, k, m.to)
        {
          assert oldItems[k] != oldItems[m.from];
        }
      }
    }
    IncreasingTargetsUnique(c.moved, h.moved);
    forall j | 0 <= j < |newItems|
      ensures !ComparatorDiff.ContentChanged(oldItems, newItems, cmp, j)
    {
    }
    NoMembersMeansEmpty(c.updated);
  }

  /** An ascending list is determined by its members. */
  lemma AscendingFromElems(xs: seq<nat>, ys: seq<nat>)
    requires Increasing(xs) && Increasing(ys)
    requires Elems(xs) == Elems(ys)
    ensures xs == ys
  {
    forall x
      ensures x in xs <==> x in ys
    {
      if x in xs {
        assert x in Elems(xs);
      }
      if x in ys {
        assert x in Elems(ys);
      }
    }
    IncreasingUnique(xs, ys);
  }

  /** The comparator diff's result from the reference classification of the
      same inputs: the pending new indices, ascending, are inserted; the
      unclaimed old indices, ascending, are removed; the index changes of
      values are the moves; nothing is updated. */
  lemma ComparatorFromClassification<T>(oldItems: seq<T>, newItems: seq<T>, cmp: (T, T) -> bool,
                                        inserted: seq<nat>, removed: seq<nat>, moved: seq<IndexMove>)
    requires HashDiff.Distinct(oldItems) && HashDiff.Distinct(newItems)
    requires MatchesEquality(oldItems, newItems, cmp)
    requires Increasing(inserted) && Elems(inserted) == HashDiff.Pending(oldItems, newItems)
    requires Increasing(removed) && Elems(removed) == HashDiff.Unclaimed(oldItems, newItems)
    requires IncreasingTargets(moved) && HashDiff.MovesAre(oldItems, newItems, moved)
    ensures ComparatorDiff.Diff(oldItems, newItems, cmp) == CollectionChanges(inserted, removed, moved, [])
  {
    var c := ComparatorDiff.Diff(oldItems, newItems, cmp);
    var h := HashDiff.Diff(oldItems, newItems);
    ComparatorAgreesWithHashDiff(oldItems, newItems, cmp);
    HashDiff.DiffClassifies(oldItems, newItems);
    IncreasingTargetsUnique(h.moved, moved);
    AscendingFromElems(c.inserted, inserted);
    AscendingFromElems(c.removed, removed);
  }
}
