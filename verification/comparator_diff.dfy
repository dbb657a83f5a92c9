/** `Diffuse.diff(old:new:comparator:)`: the quadratic diff in which a
    caller-supplied predicate decides which old and new elements are the same
    logical entity, and `!=` on the elements decides whether its content
    changed.

    Each loop of the source is a recursive function here. The argument order of
    the comparator is kept: the removal scan asks `cmp(newElem, oldElem)`, the
    other scans ask `cmp(oldElem, newElem)`. */
module ComparatorDiff {
  import opened Changes

  /** `contains(where:)`: some element of `xs` satisfies `p`. */
  function ContainsWhere<T>(xs: seq<T>, p: T -> bool): (r: bool)
    ensures r <==> exists k | 0 <= k < |xs| :: p(xs[k])
  {
    if xs == [] then false
    else p(xs[0]) || ContainsWhere(xs[1..], p)
  }

  // ---------------------------------------------------------------------------
  // What each list means, stated on the inputs alone.

  /** No new element matches old element `i`: it was removed. */
  predicate OldUnmatched<T>(oldItems: seq<T>, newItems: seq<T>, cmp: (T, T) -> bool, i: nat)
    requires i < |oldItems|
  {
    forall j | 0 <= j < |newItems| :: !cmp(newItems[j], oldItems[i])
  }

  /** No old element matches new element `j`: it was inserted. */
  predicate NewUnmatched<T>(oldItems: seq<T>, newItems: seq<T>, cmp: (T, T) -> bool, j: nat)
    requires j < |newItems|
  {
    forall i | 0 <= i < |oldItems| :: !cmp(oldItems[i], newItems[j])
  }

  /** Old offset `i` matches new offset `j` from a different position. */
  predicate MovedMatch<T>(oldItems: seq<T>, newItems: seq<T>, cmp: (T, T) -> bool, i: nat, j: nat)
    requires i < |oldItems| && j < |newItems|
  {
    cmp(oldItems[i], newItems[j]) && i != j
  }

  /** `i` is the lowest old offset that matches new offset `j` from a
      different position: the move reported for `j` comes from there. */
  predicate MoveSource<T>(oldItems: seq<T>, newItems: seq<T>, cmp: (T, T) -> bool, i: nat, j: nat)
    requires i < |oldItems| && j < |newItems|
  {
    && MovedMatch(oldItems, newItems, cmp, i, j)
    && forall k | 0 <= k < i :: !MovedMatch(oldItems, newItems, cmp, k, j)
  }

  /** Some old element matching new element `j` has different content. */
  predicate ContentChanged<T(==)>(oldItems: seq<T>, newItems: seq<T>, cmp: (T, T) -> bool, j: nat)
    requires j < |newItems|
  {
    exists i | 0 <= i < |oldItems| :: cmp(oldItems[i], newItems[j]) && oldItems[i] != newItems[j]
  }

  // ---------------------------------------------------------------------------
  // The removal loop.

  /** The removal loop from old offset `k` on. */
  function RemovedFrom<T>(oldItems: seq<T>, newItems: seq<T>, cmp: (T, T) -> bool, k: nat): seq<nat>
    requires k <= |oldItems|
    decreases |oldItems| - k
  {
    if k == |oldItems| then []
    else if ContainsWhere(newItems, y => cmp(y, oldItems[k])) then RemovedFrom(oldItems, newItems, cmp, k + 1)
    else [k] + RemovedFrom(oldItems, newItems, cmp, k + 1)
  }

  /** The removal loop reports, in ascending order, exactly the old offsets
      from `k` on that no new element matches. */
  lemma {:induction false} RemovedFromSpec<T>(oldItems: seq<T>, newItems: seq<T>, cmp: (T, T) -> bool, k: nat)
    requires k <= |oldItems|
    ensures var r := RemovedFrom(oldItems, newItems, cmp, k);
      && Increasing(r)
      && (forall i | i in r :: k <= i < |oldItems| && OldUnmatched(oldItems, newItems, cmp, i))
      && (forall i | k <= i < |oldItems| && OldUnmatched(oldItems, newItems, cmp, i) :: i in r)
    decreases |oldItems| - k
  {
    if k < |oldItems| {
      RemovedFromSpec(oldItems, newItems, cmp, k + 1);
      var rest := RemovedFrom(oldItems, newItems, cmp, k + 1);
      if !ContainsWhere(newItems, y => cmp(y, oldItems[k])) {
        IncreasingCons(k, rest);
      }
    }
  }

  // ---------------------------------------------------------------------------
  // The inner loop over old for one matched new element.

  /** The flags of the inner loop; `moveFrom` is the old offset of the move
      appended when `foundMoved` was set. */
  datatype Scan = Scan(foundMoved: bool, moveFrom: nat, foundUpdated: bool)

  /** The inner loop over old offsets `i..` for new element `y` at offset `j`,
      including the early `break` once both a move and an update were found. */
  function ScanOld<T(==)>(oldItems: seq<T>, y: T, j: nat, cmp: (T, T) -> bool, i: nat, s: Scan): Scan
    requires i <= |oldItems|
    decreases |oldItems| - i
  {
    if i == |oldItems| then s
    else if s.foundUpdated && s.foundMoved then s
    else if cmp(oldItems[i], y) then
      var moved := !s.foundMoved && i != j;
      var updated := !s.foundUpdated && oldItems[i] != y;
      ScanOld(oldItems, y, j, cmp, i + 1,
              Scan(s.foundMoved || moved,
                   if moved then i else s.moveFrom,
                   s.foundUpdated || updated))
    else ScanOld(oldItems, y, j, cmp, i + 1, s)
  }

  /** The inner loop keeps a move already found; otherwise it finds one
      exactly when some old offset from `i` on matches `y` from a position
      other than `j`, and takes the lowest such offset. It reports an update
      exactly when one was already found or some matching old element from `i`
      on differs from `y`. The early `break` changes none of this. */
  lemma {:induction false} ScanOldSpec<T>(oldItems: seq<T>, y: T, j: nat, cmp: (T, T) -> bool, i: nat, s: Scan)
    requires i <= |oldItems|
    requires s.foundMoved ==> s.moveFrom < |oldItems|
    ensures var r := ScanOld(oldItems, y, j, cmp, i, s);
      && (s.foundMoved ==> r.foundMoved && r.moveFrom == s.moveFrom)
      && (!s.foundMoved ==>
            (r.foundMoved <==> exists k | i <= k < |oldItems| :: cmp(oldItems[k], y) && k != j))
      && (!s.foundMoved && r.foundMoved ==>
            && i <= r.moveFrom < |oldItems| && cmp(oldItems[r.moveFrom], y) && r.moveFrom != j
            && forall k | i <= k < r.moveFrom :: !(cmp(oldItems[k], y) && k != j))
      && (r.foundUpdated <==>
            s.foundUpdated || exists k | i <= k < |oldItems| :: cmp(oldItems[k], y) && oldItems[k] != y)
    decreases |oldItems| - i
  {
    if i < |oldItems| && !(s.foundUpdated && s.foundMoved) {
      if cmp(oldItems[i], y) {
        var moved := !s.foundMoved && i != j;
        var updated := !s.foundUpdated && oldItems[i] != y;
        ScanOldSpec(oldItems, y, j, cmp, i + 1,
                    Scan(s.foundMoved || moved,
                         if moved then i else s.moveFrom,
                         s.foundUpdated || updated));
      } else {
        ScanOldSpec(oldItems, y, j, cmp, i + 1, s);
      }
    }
  }

  // ---------------------------------------------------------------------------
  // The outer loop over new.

  /** What the outer loop collects. */
  datatype NewScan = NewScan(inserted: seq<nat>, moved: seq<IndexMove>, updated: seq<nat>)

  /** The outer loop from new offset `j` on. */
  function NewFrom<T(==)>(oldItems: seq<T>, newItems: seq<T>, cmp: (T, T) -> bool, j: nat): NewScan
    requires j <= |newItems|
    decreases |newItems| - j
  {
    if j == |newItems| then NewScan([], [], [])
    else
      var rest := NewFrom(oldItems, newItems, cmp, j + 1);
      if !ContainsWhere(oldItems, x => cmp(x, newItems[j])) then
        NewScan([j] + rest.inserted, rest.moved, rest.updated)
      else
        var s := ScanOld(oldItems, newItems[j], j, cmp, 0, Scan(false, 0, false));
        NewScan(rest.inserted,
                (if s.foundMoved then [IndexMove(s.moveFrom, j)] else []) + rest.moved,
                (if s.foundUpdated then [j] else []) + rest.updated)
  }

  /** What the outer loop reports from new offset `j` on: as inserted
      exactly the offsets no old element matches; one move for each offset
      some old element matches from elsewhere, taken from the lowest such old
      offset; and as updated exactly the offsets some matching old element
      differs from. Each list is in ascending order of new offset. */
  ghost predicate NewScanned<T>(oldItems: seq<T>, newItems: seq<T>, cmp: (T, T) -> bool, j: nat, r: NewScan)
    requires j <= |newItems|
  {
    && Increasing(r.inserted)
    && (forall x | x in r.inserted :: j <= x < |newItems| && NewUnmatched(oldItems, newItems, cmp, x))
    && (forall x | j <= x < |newItems| && NewUnmatched(oldItems, newItems, cmp, x) :: x in r.inserted)
    && MovesFrom(oldItems, newItems, cmp, j, r.moved)
    && Increasing(r.updated)
    && (forall x | x in r.updated :: j <= x < |newItems| && ContentChanged(oldItems, newItems, cmp, x))
    && (forall x | j <= x < |newItems| && ContentChanged(oldItems, newItems, cmp, x) :: x in r.updated)
  }

  /** A new element no old element matches is prepended to the inserts. */
  lemma NewFromUnmatched<T>(oldItems: seq<T>, newItems: seq<T>, cmp: (T, T) -> bool, j: nat)
    requires j < |newItems|
    requires !ContainsWhere(oldItems, x => cmp(x, newItems[j]))
    requires NewScanned(oldItems, newItems, cmp, j + 1, NewFrom(oldItems, newItems, cmp, j + 1))
    ensures NewScanned(oldItems, newItems, cmp, j, NewFrom(oldItems, newItems, cmp, j))
  {
    var rest := NewFrom(oldItems, newItems, cmp, j + 1);
    IncreasingCons(j, rest.inserted);
  }

  /** The moves reported from new offset `j` on: in ascending order of
      target, one per offset that some other old offset matches, from the
      lowest such old offset. */
  ghost predicate MovesFrom<T>(oldItems: seq<T>, newItems: seq<T>, cmp: (T, T) -> bool, j: nat, ms: seq<IndexMove>)
  {
    && IncreasingTargets(ms)
    && (forall m | m in ms ::
          j <= m.to < |newItems| && m.from < |oldItems| && MoveSource(oldItems, newItems, cmp, m.from, m.to))
    && (forall x, i | j <= x < |newItems| && 0 <= i < |oldItems| && MoveSource(oldItems, newItems, cmp, i, x) ::
          IndexMove(i, x) in ms)
  }

  /** A move into `j` from the lowest matching old offset goes in front. */
  lemma MovesWithHead<T>(oldItems: seq<T>, newItems: seq<T>, cmp: (T, T) -> bool, j: nat, from: nat, rest: seq<IndexMove>)
    requires j < |newItems| && from < |oldItems|
    requires MoveSource(oldItems, newItems, cmp, from, j)
    requires MovesFrom(oldItems, newItems, cmp, j + 1, rest)
    ensures MovesFrom(oldItems, newItems, cmp, j, [IndexMove(from, j)] + rest)
  {
    IncreasingTargetsCons(IndexMove(from, j), rest);
    // The lowest matching old offset is unique.
    forall i | 0 <= i < |oldItems| && MoveSource(oldItems, newItems, cmp, i, j)
      ensures i == from
    {
      assert !(i < from) && !(from < i);
    }
  }

  /** With no old offset matching `j` from elsewhere, nothing moves into
      `j`. */
  lemma MovesWithoutHead<T>(oldItems: seq<T>, newItems: seq<T>, cmp: (T, T) -> bool, j: nat, rest: seq<IndexMove>)
    requires j < |newItems|
    requires forall i | 0 <= i < |oldItems| :: !MovedMatch(oldItems, newItems, cmp, i, j)
    requires MovesFrom(oldItems, newItems, cmp, j + 1, rest)
    ensures MovesFrom(oldItems, newItems, cmp, j, rest)
  {
  }

  /** The move the inner loop reports for a matched new element `j`, put
      in front of the moves of later offsets. */
  lemma MatchedMoves<T>(oldItems: seq<T>, newItems: seq<T>, cmp: (T, T) -> bool, j: nat, rest: seq<IndexMove>)
    requires j < |newItems|
    requires MovesFrom(oldItems, newItems, cmp, j + 1, rest)
    ensures var s := ScanOld(oldItems, newItems[j], j, cmp, 0, Scan(false, 0, false));
      MovesFrom(oldItems, newItems, cmp, j, (if s.foundMoved then [IndexMove(s.moveFrom, j)] else []) + rest)
  {
    var s := ScanOld(oldItems, newItems[j], j, cmp, 0, Scan(false, 0, false));
    ScanOldSpec(oldItems, newItems[j], j, cmp, 0, Scan(false, 0, false));
    if s.foundMoved {
      MovesWithHead(oldItems, newItems, cmp, j, s.moveFrom, rest);
    } else {
      assert [] + rest == rest;
      MovesWithoutHead(oldItems, newItems, cmp, j, rest);
    }
  }

  /** The update the inner loop reports for a matched new element `j`, put
      in front of the updates of later offsets. */
  lemma MatchedUpdates<T>(oldItems: seq<T>, newItems: seq<T>, cmp: (T, T) -> bool, j: nat, rest: seq<nat>)
    requires j < |newItems|
    requires Increasing(rest)
    requires forall x | x in rest :: j + 1 <= x < |newItems| && ContentChanged(oldItems, newItems, cmp, x)
    requires forall x | j + 1 <= x < |newItems| && ContentChanged(oldItems, newItems, cmp, x) :: x in rest
    ensures var s := ScanOld(oldItems, newItems[j], j, cmp, 0, Scan(false, 0, false));
      var updated := (if s.foundUpdated then [j] else []) + rest;
      && Increasing(updated)
      && (forall x | x in updated :: j <= x < |newItems| && ContentChanged(oldItems, newItems, cmp, x))
      && (forall x | j <= x < |newItems| && ContentChanged(oldItems, newItems, cmp, x) :: x in updated)
  {
    ScanOldSpec(oldItems, newItems[j], j, cmp, 0, Scan(false, 0, false));
    IncreasingCons(j, rest);
  }

  /** A matched new element contributes the move and the update the inner
      loop finds, in front of those of later offsets, and is no insert. */
  lemma NewFromMatched<T>(oldItems: seq<T>, newItems: seq<T>, cmp: (T, T) -> bool, j: nat)
    requires j < |newItems|
    requires ContainsWhere(oldItems, x => cmp(x, newItems[j]))
    requires NewScanned(oldItems, newItems, cmp, j + 1, NewFrom(oldItems, newItems, cmp, j + 1))
    ensures NewScanned(oldItems, newItems, cmp, j, NewFrom(oldItems, newItems, cmp, j))
  {
    var rest := NewFrom(oldItems, newItems, cmp, j + 1);
    MatchedMoves(oldItems, newItems, cmp, j, rest.moved);
    MatchedUpdates(oldItems, newItems, cmp, j, rest.updated);
  }

  lemma {:induction false} NewFromSpec<T>(oldItems: seq<T>, newItems: seq<T>, cmp: (T, T) -> bool, j: nat)
    requires j <= |newItems|
    ensures NewScanned(oldItems, newItems, cmp, j, NewFrom(oldItems, newItems, cmp, j))
    decreases |newItems| - j
  {
    if j < |newItems| {
      NewFromSpec(oldItems, newItems, cmp, j + 1);
      if ContainsWhere(oldItems, x => cmp(x, newItems[j])) {
        NewFromMatched(oldItems, newItems, cmp, j);
      } else {
        NewFromUnmatched(oldItems, newItems, cmp, j);
      }
    }
  }

  // ---------------------------------------------------------------------------
  // The whole diff.

  /** `Diffuse.diff(old:new:comparator:)`. */
  function Diff<T(==)>(oldItems: seq<T>, newItems: seq<T>, cmp: (T, T) -> bool): (r: CollectionChanges)
    // removed: exactly the old offsets no new element matches, ascending
    ensures Increasing(r.removed)
    ensures forall i: nat :: i in r.removed <==> i < |oldItems| && OldUnmatched(oldItems, newItems, cmp, i)
    // inserted: exactly the new offsets no old element matches, ascending
    ensures Increasing(r.inserted)
    ensures forall j: nat :: j in r.inserted <==> j < |newItems| && NewUnmatched(oldItems, newItems, cmp, j)
    // moved: one move per new offset that some other old offset matches,
    // from the lowest such old offset, in ascending order of new offset
    ensures IncreasingTargets(r.moved)
    ensures forall m :: m in r.moved <==>
      m.from < |oldItems| && m.to < |newItems| && MoveSource(oldItems, newItems, cmp, m.from, m.to)
    // updated: the new offsets some matching old element differs from
    ensures Increasing(r.updated)
    ensures forall j: nat :: j in r.updated <==> j < |newItems| && ContentChanged(oldItems, newItems, cmp, j)
  {
    RemovedFromSpec(oldItems, newItems, cmp, 0);
    NewFromSpec(oldItems, newItems, cmp, 0);
    var n := NewFrom(oldItems, newItems, cmp, 0);
    CollectionChanges(inserted := n.inserted,
                      removed := RemovedFrom(oldItems, newItems, cmp, 0),
                      moved := n.moved,
                      updated := n.updated)
  }

  // ---------------------------------------------------------------------------
  // Consequences.

  /** An inserted new offset is never the target of a move and never
      updated; and no new offset is the target of two moves. */
  lemma InsertedIsExclusive<T>(oldItems: seq<T>, newItems: seq<T>, cmp: (T, T) -> bool)
    ensures var r := Diff(oldItems, newItems, cmp);
      && (forall j, m | j in r.inserted && m in r.moved :: m.to != j)
      && (forall j | j in r.inserted :: j !in r.updated)
      && (forall a, b | 0 <= a < |r.moved| && 0 <= b < |r.moved| && r.moved[a].to == r.moved[b].to :: a == b)
  {
    var r := Diff(oldItems, newItems, cmp);
    forall m | m in r.moved
      ensures m.to !in r.inserted
    {
      assert cmp(oldItems[m.from], newItems[m.to]);
    }
  }

  /** When the comparator only matches equal elements, as `==` does, no
      element is ever reported as updated. */
  lemma EqualityComparatorNeverUpdates<T>(oldItems: seq<T>, newItems: seq<T>, cmp: (T, T) -> bool)
    requires forall a, b :: cmp(a, b) ==> a == b
    ensures Diff(oldItems, newItems, cmp).updated == []
  {
    var r := Diff(oldItems, newItems, cmp);
    forall j | 0 <= j < |newItems|
      ensures !ContentChanged(oldItems, newItems, cmp, j)
    {
    }
    NoMembersMeansEmpty(r.updated);
  }

  /** Diffing a collection against itself reports no change when the
      comparator matches each element with itself and with nothing else. */
  lemma IdenticalInputsHaveNoChanges<T>(xs: seq<T>, cmp: (T, T) -> bool)
    requires forall i, j | 0 <= i < |xs| && 0 <= j < |xs| :: cmp(xs[i], xs[j]) <==> i == j
    ensures Diff(xs, xs, cmp).AllChanges() == []
  {
    var r := Diff(xs, xs, cmp);
    forall i | 0 <= i < |xs|
      ensures !OldUnmatched(xs, xs, cmp, i) && !NewUnmatched(xs, xs, cmp, i)
      ensures !ContentChanged(xs, xs, cmp, i)
    {
      assert cmp(xs[i], xs[i]);
    }
    NoMembersMeansEmpty(r.removed);
    NoMembersMeansEmpty(r.inserted);
    NoMembersMeansEmpty(r.moved);
    NoMembersMeansEmpty(r.updated);
  }

  /** The contract of `Diff` determines its result: four lists in the
      required order whose members are exactly those the contract describes
      are the lists `Diff` returns. */
  lemma DiffIsDetermined<T>(oldItems: seq<T>, newItems: seq<T>, cmp: (T, T) -> bool, c: CollectionChanges)
    requires Increasing(c.removed)
    requires forall i: nat :: i in c.removed <==> i < |oldItems| && OldUnmatched(oldItems, newItems, cmp, i)
    requires Increasing(c.inserted)
    requires forall j: nat :: j in c.inserted <==> j < |newItems| && NewUnmatched(oldItems, newItems, cmp, j)
    requires IncreasingTargets(c.moved)
    requires forall m :: m in c.moved <==>
      m.from < |oldItems| && m.to < |newItems| && MoveSource(oldItems, newItems, cmp, m.from, m.to)
    requires Increasing(c.updated)
    requires forall j: nat :: j in c.updated <==> j < |newItems| && ContentChanged(oldItems, newItems, cmp, j)
    ensures Diff(oldItems, newItems, cmp) == c
  {
    var r := Diff(oldItems, newItems, cmp);
    IncreasingUnique(r.removed, c.removed);
    IncreasingUnique(r.inserted, c.inserted);
    IncreasingTargetsUnique(r.moved, c.moved);
    IncreasingUnique(r.updated, c.updated);
  }

  /** With no old elements every new offset is inserted, in order, and
      nothing else is reported; with no new elements every old offset is
      removed. */
  lemma EmptySideReportsEverything<T>(xs: seq<T>, cmp: (T, T) -> bool)
    ensures Diff([], xs, cmp) == CollectionChanges(inserted := Range(|xs|))
    ensures Diff(xs, [], cmp) == CollectionChanges(removed := Range(|xs|))
  {
    RangeElems(|xs|);
    var a := Diff([], xs, cmp);
    forall x
      ensures x in a.inserted <==> x in Range(|xs|)
    {
      assert x in Range(|xs|) <==> x in Elems(Range(|xs|));
    }
    IncreasingUnique(a.inserted, Range(|xs|));
    NoMembersMeansEmpty(a.removed);
    NoMembersMeansEmpty(a.moved);
    NoMembersMeansEmpty(a.updated);
    var b := Diff(xs, [], cmp);
    forall x
      ensures x in b.removed <==> x in Range(|xs|)
    {
      assert x in Range(|xs|) <==> x in Elems(Range(|xs|));
    }
    IncreasingUnique(b.removed, Range(|xs|));
    NoMembersMeansEmpty(b.inserted);
    NoMembersMeansEmpty(b.moved);
    NoMembersMeansEmpty(b.updated);
  }
}
