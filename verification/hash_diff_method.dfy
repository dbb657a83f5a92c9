/** The loops of `Diffuse.diff(old:new:)` as they run, producing the lists
    of the result container. Iterating a Swift `Set` visits its members in an
    order the program does not control; each such loop here picks an
    arbitrary remaining member, so what is proved holds for every order. */
module HashDiffLoops {
  import opened Changes
  import opened HashDiff

  /** `Array(set)`: the members of a set, each once, in some order. */
  method SetToSeq(s: set<nat>) returns (xs: seq<nat>)
    ensures Elems(xs) == s
    ensures NoDuplicates(xs)
  {
    xs := [];
    var rest := s;
    while rest != {}
      invariant Elems(xs) + rest == s
      invariant Elems(xs) !! rest
      invariant NoDuplicates(xs)
      decreases |rest|
    {
      var x :| x in rest;
      xs := xs + [x];
      rest := rest - {x};
    }
  }

  /** Removing one entry from a map whose values are distinct old indices
      removes exactly that entry's index. */
  lemma IndicesWithout<T>(oldItems: seq<T>, m: map<T, nat>, v: T)
    requires v in m
    requires forall w | w in m :: m[w] < |oldItems| && oldItems[m[w]] == w
    ensures Indices(m - {v}) == Indices(m) - {m[v]}
  {
    forall x | x in Indices(m) - {m[v]}
      ensures x in Indices(m - {v})
    {
      var w :| w in m && m[w] == x;
      assert w != v;
      assert w in m - {v};
    }
  }

  /** Appending a new index adds it to the members and keeps the list free
      of duplicates. */
  lemma ElemsSnoc(xs: seq<nat>, x: nat)
    requires NoDuplicates(xs)
    requires x !in Elems(xs)
    ensures Elems(xs + [x]) == Elems(xs) + {x}
    ensures NoDuplicates(xs + [x])
  {
    forall a | 0 <= a < |xs|
      ensures (xs + [x])[a] != x
    {
      assert xs[a] in Elems(xs);
    }
  }

  /** Step 2: the prefix loop, which stops at the first mismatch. */
  method SkipPrefix<T(==)>(oldItems: seq<T>, newItems: seq<T>) returns (startIndex: nat)
    ensures startIndex == StartIndex(oldItems, newItems)
  {
    var minSize := Min(|oldItems|, |newItems|);
    startIndex := 0;
    for i := 0 to minSize
      invariant startIndex == 0
      invariant FirstMismatch(oldItems, newItems, i) == FirstMismatch(oldItems, newItems, 0)
    {
      if newItems[i] != oldItems[i] {
        startIndex := i;
        break;
      }
    }
  }

  /** Step 3: insert the old elements from `startIndex` on into the set. */
  method BuildOldSet<T(==)>(oldItems: seq<T>, startIndex: nat) returns (oldSet: map<T, nat>)
    requires startIndex <= |oldItems|
    ensures oldSet == OldIndex(oldItems, startIndex)
  {
    oldSet := map[];
    for i := startIndex to |oldItems|
      invariant IndexFrom(oldItems, i, oldSet) == IndexFrom(oldItems, startIndex, map[])
    {
      if oldItems[i] !in oldSet {
        oldSet := oldSet[oldItems[i] := i];
      }
    }
  }

  /** Step 4: look each new element from `startIndex` on up in the set,
      claiming what is found. */
  method ScanNewItems<T(==)>(newItems: seq<T>, startIndex: nat, oldSet0: map<T, nat>)
    returns (c: Claims<T>)
    requires startIndex <= |newItems|
    ensures c == ScanNew(newItems, startIndex, Claims(oldSet0, {}, []))
  {
    var oldSet := oldSet0;
    var inserted: set<nat> := {};
    var moved: seq<IndexMove> := [];
    for i := startIndex to |newItems|
      invariant ScanNew(newItems, i, Claims(oldSet, inserted, moved))
             == ScanNew(newItems, startIndex, Claims(oldSet0, {}, []))
    {
      if newItems[i] in oldSet {
        var from := oldSet[newItems[i]];
        oldSet := oldSet - {newItems[i]};
        if from != i {
          moved := moved + [IndexMove(from, i)];
        }
      } else {
        inserted := inserted + {i};
      }
    }
    c := Claims(oldSet, inserted, moved);
  }

  /** Step 5: visit the unclaimed old elements in any order; an index that is
      also a pending insert is an update, any other a removal. Whatever the
      order, the lists hold exactly the sets `Leftovers` describes. */
  method SortLeftovers<T>(oldItems: seq<T>, c: Claims<T>)
    returns (inserted: set<nat>, removed: seq<nat>, updated: seq<nat>)
    requires forall v | v in c.oldSet :: c.oldSet[v] < |oldItems| && oldItems[c.oldSet[v]] == v
    ensures inserted == Leftovers(c).inserted
    ensures Elems(removed) == Leftovers(c).removed && NoDuplicates(removed)
    ensures Elems(updated) == Leftovers(c).updated && NoDuplicates(updated)
  {
    var oldSet := c.oldSet;
    inserted, removed, updated := c.pending, [], [];
    ghost var left := Indices(c.oldSet);
    ghost var done: set<nat> := {};
    while oldSet != map[]
      invariant forall v | v in oldSet :: v in c.oldSet && oldSet[v] == c.oldSet[v]
      invariant done == left - Indices(oldSet)
      invariant inserted == c.pending - done
      invariant Elems(updated) == done * c.pending
      invariant Elems(removed) == done - c.pending
      invariant NoDuplicates(updated) && NoDuplicates(removed)
      decreases |oldSet.Keys|
    {
      var v :| v in oldSet;
      var index := oldSet[v];
      assert index !in done;
      if index in inserted {
        inserted := inserted - {index};
        ElemsSnoc(updated, index);
        updated := updated + [index];
      } else {
        ElemsSnoc(removed, index);
        removed := removed + [index];
      }
      IndicesWithout(oldItems, oldSet, v);
      oldSet := oldSet - {v};
      done := done + {index};
    }
  }

  /** `Diffuse.diff(old:new:)`, loop by loop. */
  method Diff<T(==)>(oldItems: seq<T>, newItems: seq<T>) returns (r: CollectionChanges)
    ensures |oldItems| == 0 ==> r == CollectionChanges(inserted := Range(|newItems|))
    ensures |oldItems| != 0 && |newItems| == 0 ==> r == CollectionChanges(removed := Range(|oldItems|))
    ensures Elems(r.inserted) == HashDiff.Diff(oldItems, newItems).inserted
    ensures Elems(r.removed) == HashDiff.Diff(oldItems, newItems).removed
    ensures r.moved == HashDiff.Diff(oldItems, newItems).moved
    ensures Elems(r.updated) == HashDiff.Diff(oldItems, newItems).updated
    ensures NoDuplicates(r.inserted) && NoDuplicates(r.removed) && NoDuplicates(r.updated)
    ensures r.Count() == HashDiff.Diff(oldItems, newItems).Count()
  {
    // 1 - early exits
    if |oldItems| == 0 {
      RangeElems(|newItems|);
      NoDuplicatesSize(Range(|newItems|));
      return CollectionChanges(inserted := Range(|newItems|));
    }
    if |newItems| == 0 {
      RangeElems(|oldItems|);
      NoDuplicatesSize(Range(|oldItems|));
      return CollectionChanges(removed := Range(|oldItems|));
    }
    var startIndex := SkipPrefix(oldItems, newItems);
    var oldSet := BuildOldSet(oldItems, startIndex);
    var c := ScanNewItems(newItems, startIndex, oldSet);
    ScanNewShrinks(newItems, startIndex, Claims(oldSet, {}, []));
    var inserted, removed, updated := SortLeftovers(oldItems, c);
    // 6 - the pending inserts that are left
    var insertedList := SetToSeq(inserted);
    r := CollectionChanges(insertedList, removed, c.moved, updated);
    NoDuplicatesSize(r.inserted);
    NoDuplicatesSize(r.removed);
    NoDuplicatesSize(r.updated);
  }
}
