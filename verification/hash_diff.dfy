/** `Diffuse.diff(old:new:)`: the diff for hashable elements, in which
    equality is also identity.

    The set of `Element`s built from the old collection is a map from value to
    old index here (an element is found by value and hands back its index).
    The pending inserts are a set of new indices. Swift hands `inserted`,
    `removed` and `updated` out of `Set` iteration, so their order is not
    fixed: `Diff` reports them as sets, and only `moved` as a sequence. The
    method in hash_diff_method.dfy runs the loops with an arbitrary iteration
    order and produces the lists. */
module HashDiff {
  import opened Changes
  import opened Identity

  /** No value occurs twice: the precondition of the hash path. */
  predicate Distinct<T(==)>(xs: seq<T>)
  {
    forall a, b | 0 <= a < b < |xs| :: xs[a] != xs[b]
  }

  function Min(a: nat, b: nat): nat
  {
    if a < b then a else b
  }

  // ---------------------------------------------------------------------------
  // Step 2: skip the common prefix.

  /** The prefix loop from `i` on: the first index below the shorter length
      where the two collections differ, or 0 when there is none. */
  function FirstMismatch<T(==)>(oldItems: seq<T>, newItems: seq<T>, i: nat): (r: nat)
    requires i <= Min(|oldItems|, |newItems|)
    ensures (exists k | i <= k < Min(|oldItems|, |newItems|) :: oldItems[k] != newItems[k]) ==>
      && i <= r < Min(|oldItems|, |newItems|)
      && oldItems[r] != newItems[r]
      && forall k | i <= k < r :: oldItems[k] == newItems[k]
    ensures (forall k | i <= k < Min(|oldItems|, |newItems|) :: oldItems[k] == newItems[k]) ==> r == 0
    decreases Min(|oldItems|, |newItems|) - i
  {
    if i == Min(|oldItems|, |newItems|) then 0
    else if newItems[i] != oldItems[i] then i
    else FirstMismatch(oldItems, newItems, i + 1)
  }

  /** `startIndex`: the first index where the collections differ, so that
      everything before it is equal in both; 0 when they agree on their whole
      common length. */
  function StartIndex<T(==)>(oldItems: seq<T>, newItems: seq<T>): (s: nat)
    ensures s <= |oldItems| && s <= |newItems|
    ensures forall k | 0 <= k < s :: oldItems[k] == newItems[k]
    ensures (exists k | 0 <= k < Min(|oldItems|, |newItems|) :: oldItems[k] != newItems[k]) ==>
      s < Min(|oldItems|, |newItems|) && oldItems[s] != newItems[s]
    ensures (forall k | 0 <= k < Min(|oldItems|, |newItems|) :: oldItems[k] == newItems[k]) ==> s == 0
  {
    FirstMismatch(oldItems, newItems, 0)
  }

  // ---------------------------------------------------------------------------
  // Step 3: the set of old elements, as a map from value to old index.

  /** The loop inserting `Element(value: old[i], index: i)` for `i` from `i`
      on. Inserting a value already present leaves the set unchanged, so each
      value keeps its first index. */
  function IndexFrom<T(==)>(oldItems: seq<T>, i: nat, m: map<T, nat>): map<T, nat>
    requires i <= |oldItems|
    decreases |oldItems| - i
  {
    if i == |oldItems| then m
    else if oldItems[i] in m then IndexFrom(oldItems, i + 1, m)
    else IndexFrom(oldItems, i + 1, m[oldItems[i] := i])
  }

  /** What the map holds after the values of `old[s..i]` were inserted. */
  ghost predicate IndexOfRange<T>(oldItems: seq<T>, s: nat, i: nat, m: map<T, nat>)
    requires s <= i <= |oldItems|
  {
    && (forall k | s <= k < i :: oldItems[k] in m)
    && (forall v | v in m ::
          && s <= m[v] < i && oldItems[m[v]] == v
          && forall k | s <= k < m[v] :: oldItems[k] != v)
  }

  lemma {:induction false} IndexFromSpec<T>(oldItems: seq<T>, s: nat, i: nat, m: map<T, nat>)
    requires s <= i <= |oldItems|
    requires IndexOfRange(oldItems, s, i, m)
    ensures IndexOfRange(oldItems, s, |oldItems|, IndexFrom(oldItems, i, m))
    decreases |oldItems| - i
  {
    if i < |oldItems| {
      if oldItems[i] in m {
        IndexFromSpec(oldItems, s, i + 1, m);
      } else {
        IndexFromSpec(oldItems, s, i + 1, m[oldItems[i] := i]);
      }
    }
  }

  /** The map of old values from `start` on: every such value is a key, and
      each key maps to the first old index from `start` holding it. */
  function OldIndex<T(==)>(oldItems: seq<T>, start: nat): (m: map<T, nat>)
    requires start <= |oldItems|
    ensures forall k | start <= k < |oldItems| :: oldItems[k] in m
    ensures forall v | v in m ::
      && start <= m[v] < |oldItems| && oldItems[m[v]] == v
      && forall k | start <= k < m[v] :: oldItems[k] != v
  {
    IndexFromSpec(oldItems, start, start, map[]);
    IndexFrom(oldItems, start, map[])
  }

  /** Searching the `Set<Element<T>>` of old elements from `start` by value is
      looking the value up in the map: a member equal to `Element(v, j)`
      exists exactly when `v` is a key, and its index is the mapped one. */
  lemma ElementSetIsIndexMap<T>(oldItems: seq<T>, start: nat, v: T, j: int)
    requires Distinct(oldItems)
    requires start <= |oldItems|
    ensures var elements := set k | start <= k < |oldItems| :: Element(oldItems[k], k);
            var m := OldIndex(oldItems, start);
      && ((exists e | e in elements :: ElementEq(e, Element(v, j))) <==> v in m)
      && (forall e | e in elements && ElementEq(e, Element(v, j)) :: e.index == m[v])
  {
    var elements := set k | start <= k < |oldItems| :: Element(oldItems[k], k);
    var m := OldIndex(oldItems, start);
    if v in m {
      assert Element(oldItems[m[v]], m[v]) in elements;
    }
  }

  // ---------------------------------------------------------------------------
  // Step 4: scan the new collection.

  /** The state of the scan: the unclaimed old entries, the pending inserts
      and the moves so far. */
  datatype Claims<T> = Claims(oldSet: map<T, nat>, pending: set<nat>, moved: seq<IndexMove>)

  /** Looking up new index `i`: a value found in `oldSet` claims its
      entry and, when its old index differs, records a move; a value not
      found becomes a pending insert. */
  function ClaimStep<T(==)>(newItems: seq<T>, i: nat, c: Claims<T>): Claims<T>
    requires i < |newItems|
  {
    if newItems[i] in c.oldSet then
      var from := c.oldSet[newItems[i]];
      Claims(c.oldSet - {newItems[i]}, c.pending,
             if from != i then c.moved + [IndexMove(from, i)] else c.moved)
    else Claims(c.oldSet, c.pending + {i}, c.moved)
  }

  /** The scan of new indices from `i` on. */
  function ScanNew<T(==)>(newItems: seq<T>, i: nat, c: Claims<T>): Claims<T>
    requires i <= |newItems|
    decreases |newItems| - i
  {
    if i == |newItems| then c
    else ScanNew(newItems, i + 1, ClaimStep(newItems, i, c))
  }

  /** No new index in `s..i` holds `v`. */
  ghost predicate Unseen<T>(newItems: seq<T>, s: nat, i: nat, v: T)
    requires i <= |newItems|
  {
    forall k | s <= k < i :: newItems[k] != v
  }

  /** What the scan state holds after new indices `s..i` were looked up in
      the initial map `m0`. */
  ghost predicate ScannedRange<T>(newItems: seq<T>, m0: map<T, nat>, s: nat, i: nat, c: Claims<T>)
    requires s <= i <= |newItems|
  {
    && (forall v | v in c.oldSet :: v in m0 && Unseen(newItems, s, i, v))
    && (forall v | v in m0 && Unseen(newItems, s, i, v) :: v in c.oldSet)
    && (forall v | v in c.oldSet :: c.oldSet[v] == m0[v])
    && (forall j :: j in c.pending <==> s <= j < i && newItems[j] !in m0)
    && IncreasingTargets(c.moved)
    && (forall mv :: mv in c.moved <==>
          && s <= mv.to < i && newItems[mv.to] in m0
          && m0[newItems[mv.to]] == mv.from && mv.from != mv.to)
  }

  /** Claiming the entry of the value found at new index `i` keeps the
      unclaimed entries exactly those no new index up to `i` holds, with
      their old indices. */
  lemma ClaimedEntries<T>(newItems: seq<T>, m0: map<T, nat>, s: nat, i: nat, c: Claims<T>)
    requires s <= i < |newItems|
    requires ScannedRange(newItems, m0, s, i, c)
    requires newItems[i] in c.oldSet
    ensures var rest := c.oldSet - {newItems[i]};
      && (forall v | v in rest :: v in m0 && Unseen(newItems, s, i + 1, v))
      && (forall v | v in m0 && Unseen(newItems, s, i + 1, v) :: v in rest)
      && (forall v | v in rest :: rest[v] == m0[v])
  {
    var rest := c.oldSet - {newItems[i]};
    forall w | w in rest
      ensures w in m0 && Unseen(newItems, s, i + 1, w)
    {
      assert w != newItems[i];
    }
    forall w | w in m0 && Unseen(newItems, s, i + 1, w)
      ensures w in rest
    {
      assert newItems[i] != w;
    }
  }

  /** Appending the move of the value found at new index `i`, when its old
      index differs, keeps the moves exactly the index changes seen so far,
      in ascending target order. */
  lemma ClaimedMoves<T>(newItems: seq<T>, m0: map<T, nat>, s: nat, i: nat, ms: seq<IndexMove>)
    requires s <= i < |newItems|
    requires newItems[i] in m0
    requires IncreasingTargets(ms)
    requires forall mv :: mv in ms <==>
      && s <= mv.to < i && newItems[mv.to] in m0
      && m0[newItems[mv.to]] == mv.from && mv.from != mv.to
    ensures var from := m0[newItems[i]];
      var next := if from != i then ms + [IndexMove(from, i)] else ms;
      && IncreasingTargets(next)
      && forall mv :: mv in next <==>
        && s <= mv.to < i + 1 && newItems[mv.to] in m0
        && m0[newItems[mv.to]] == mv.from && mv.from != mv.to
  {
    var from := m0[newItems[i]];
    forall mv | mv in ms
      ensures mv.to < i
    {
    }
    IncreasingTargetsSnoc(ms, IndexMove(from, i));
  }

  /** The six facts of `ScannedRange`, one by one. */
  lemma ScannedRangeIntro<T>(newItems: seq<T>, m0: map<T, nat>, s: nat, i: nat,
                             entries: map<T, nat>, pending: set<nat>, ms: seq<IndexMove>)
    requires s <= i <= |newItems|
    requires forall v | v in entries :: v in m0 && Unseen(newItems, s, i, v)
    requires forall v | v in m0 && Unseen(newItems, s, i, v) :: v in entries
    requires forall v | v in entries :: entries[v] == m0[v]
    requires forall j :: j in pending <==> s <= j < i && newItems[j] !in m0
    requires IncreasingTargets(ms)
    requires forall mv :: mv in ms <==>
      && s <= mv.to < i && newItems[mv.to] in m0
      && m0[newItems[mv.to]] == mv.from && mv.from != mv.to
    ensures ScannedRange(newItems, m0, s, i, Claims(entries, pending, ms))
  {
  }

  /** A value found claims its entry and adds the move, if any, after all
      earlier ones. */
  lemma ClaimStepFound<T>(newItems: seq<T>, m0: map<T, nat>, s: nat, i: nat, c: Claims<T>)
    requires s <= i < |newItems|
    requires ScannedRange(newItems, m0, s, i, c)
    requires newItems[i] in c.oldSet
    ensures ScannedRange(newItems, m0, s, i + 1, ClaimStep(newItems, i, c))
  {
    var v := newItems[i];
    var from := m0[v];
    var moved := if from != i then c.moved + [IndexMove(from, i)] else c.moved;
    assert ClaimStep(newItems, i, c) == Claims(c.oldSet - {v}, c.pending, moved) by {
      assert c.oldSet[v] == from;
    }
    ClaimedEntries(newItems, m0, s, i, c);
    ClaimedMoves(newItems, m0, s, i, c.moved);
    assert forall j :: j in c.pending <==> s <= j < i + 1 && newItems[j] !in m0;
    ScannedRangeIntro(newItems, m0, s, i + 1, c.oldSet - {v}, c.pending, moved);
  }

  /** A value not found was not in the initial map either: it becomes a
      pending insert. */
  lemma ClaimStepMissing<T>(newItems: seq<T>, m0: map<T, nat>, s: nat, i: nat, c: Claims<T>)
    requires Distinct(newItems)
    requires s <= i < |newItems|
    requires ScannedRange(newItems, m0, s, i, c)
    requires newItems[i] !in c.oldSet
    ensures ScannedRange(newItems, m0, s, i + 1, ClaimStep(newItems, i, c))
  {
    var v := newItems[i];
    assert forall k | s <= k < i :: newItems[k] != v;
    assert v !in m0;
  }

  /** Scanning on from any state `ScannedRange` describes ends in the state
      it describes for the whole new collection. */
  lemma {:induction false} ScanNewSpec<T>(newItems: seq<T>, m0: map<T, nat>, s: nat, i: nat, c: Claims<T>)
    requires Distinct(newItems)
    requires s <= i <= |newItems|
    requires ScannedRange(newItems, m0, s, i, c)
    ensures ScannedRange(newItems, m0, s, |newItems|, ScanNew(newItems, i, c))
    decreases |newItems| - i
  {
    if i < |newItems| {
      if newItems[i] in c.oldSet {
        ClaimStepFound(newItems, m0, s, i, c);
      } else {
        ClaimStepMissing(newItems, m0, s, i, c);
      }
      ScanNewSpec(newItems, m0, s, i + 1, ClaimStep(newItems, i, c));
    }
  }

  /** A scan only claims entries: what is left is part of the map it
      started from. */
  lemma {:induction false} ScanNewShrinks<T>(newItems: seq<T>, i: nat, c: Claims<T>)
    requires i <= |newItems|
    ensures var r := ScanNew(newItems, i, c);
      forall v | v in r.oldSet :: v in c.oldSet && r.oldSet[v] == c.oldSet[v]
    decreases |newItems| - i
  {
    if i < |newItems| {
      ScanNewShrinks(newItems, i + 1, ClaimStep(newItems, i, c));
    }
  }

  // ---------------------------------------------------------------------------
  // Step 5 and the whole diff.

  /** The result with `inserted`, `removed` and `updated` as sets. */
  datatype HashChanges = HashChanges(
    inserted: set<nat>, removed: set<nat>, moved: seq<IndexMove>, updated: set<nat>)
  {
    /** The number of records `allChanges` holds once the sets are listed. */
    function Count(): nat
    {
      |inserted| + |removed| + |moved| + |updated|
    }
  }

  /** The old indices of the entries nobody claimed. */
  function Indices<T>(m: map<T, nat>): set<nat>
  {
    set v | v in m :: m[v]
  }

  /** Step 5 over all unclaimed entries at once: an unclaimed old index that
      is also a pending insert becomes an update and leaves the pending set;
      any other unclaimed index is a removal. The order in which the entries
      are visited does not matter, since each index occurs once. */
  function Leftovers<T>(c: Claims<T>): HashChanges
  {
    var left := Indices(c.oldSet);
    HashChanges(c.pending - left, left - c.pending, c.moved, left * c.pending)
  }

  /** Steps 3 to 6 from a given start index. */
  function DiffFrom<T(==)>(oldItems: seq<T>, newItems: seq<T>, s: nat): HashChanges
    requires s <= |oldItems| && s <= |newItems|
  {
    Leftovers(ScanNew(newItems, s, Claims(OldIndex(oldItems, s), {}, [])))
  }

  /** `Diffuse.diff(old:new:)`. */
  function Diff<T(==)>(oldItems: seq<T>, newItems: seq<T>): HashChanges
  {
    if |oldItems| == 0 then HashChanges(Elems(Range(|newItems|)), {}, [], {})
    else if |newItems| == 0 then HashChanges({}, Elems(Range(|oldItems|)), [], {})
    else DiffFrom(oldItems, newItems, StartIndex(oldItems, newItems))
  }

  // ---------------------------------------------------------------------------
  // What the result means, stated on the inputs alone.

  /** New indices whose value is nowhere in the old collection. */
  function Pending<T(==)>(oldItems: seq<T>, newItems: seq<T>): set<nat>
  {
    set j: nat | j < |newItems| && newItems[j] !in oldItems
  }

  /** Old indices whose value is nowhere in the new collection. */
  function Unclaimed<T(==)>(oldItems: seq<T>, newItems: seq<T>): set<nat>
  {
    set i: nat | i < |oldItems| && oldItems[i] !in newItems
  }

  /** The value at old index `m.from` sits at new index `m.to`, elsewhere. */
  predicate IsMove<T(==)>(oldItems: seq<T>, newItems: seq<T>, m: IndexMove)
  {
    m.from < |oldItems| && m.to < |newItems| && oldItems[m.from] == newItems[m.to] && m.from != m.to
  }

  /** The value-preserving index changes are exactly the listed moves. */
  ghost predicate MovesAre<T>(oldItems: seq<T>, newItems: seq<T>, ms: seq<IndexMove>)
  {
    forall m :: IsMove(oldItems, newItems, m) <==> m in ms
  }

  /** The reference result: a value present in both collections is a move
      when its index changed and nothing otherwise; a new index whose value is
      new is an insert, an old index whose value is gone is a removal, and
      when both happen at one index the pair is reported as one update. */
  ghost predicate Classifies<T>(oldItems: seq<T>, newItems: seq<T>, r: HashChanges)
  {
    && r.inserted == Pending(oldItems, newItems) - Unclaimed(oldItems, newItems)
    && r.removed == Unclaimed(oldItems, newItems) - Pending(oldItems, newItems)
    && r.updated == Unclaimed(oldItems, newItems) * Pending(oldItems, newItems)
    && IncreasingTargets(r.moved)
    && (forall m :: m in r.moved <==> IsMove(oldItems, newItems, m))
  }

  /** Below a start index where both collections agree, each index holds
      one value in both; with distinct values, that value occurs nowhere else
      in either collection. */
  lemma SharedPrefix<T>(oldItems: seq<T>, newItems: seq<T>, s: nat)
    requires Distinct(oldItems) && Distinct(newItems)
    requires s <= |oldItems| && s <= |newItems|
    requires forall k | 0 <= k < s :: oldItems[k] == newItems[k]
    ensures forall k | 0 <= k < s :: oldItems[k] in newItems && newItems[k] in oldItems
    ensures forall a, b | 0 <= a < |oldItems| && 0 <= b < s && oldItems[a] == newItems[b] :: a == b
    ensures forall a, b | 0 <= a < |newItems| && 0 <= b < s && newItems[a] == oldItems[b] :: a == b
  {
    forall k | 0 <= k < s
      ensures oldItems[k] in newItems && newItems[k] in oldItems
    {
      assert oldItems[k] == newItems[k];
    }
    forall a, b | 0 <= a < |oldItems| && 0 <= b < s && oldItems[a] == newItems[b]
      ensures a == b
    {
      assert oldItems[b] == newItems[b];
    }
    forall a, b | 0 <= a < |newItems| && 0 <= b < s && newItems[a] == oldItems[b]
      ensures a == b
    {
      assert oldItems[b] == newItems[b];
    }
  }

  /** From any start index below which both collections agree, steps 3 to 6
      produce the reference result. */
  lemma DiffFromClassifies<T>(oldItems: seq<T>, newItems: seq<T>, s: nat)
    requires Distinct(oldItems) && Distinct(newItems)
    requires s <= |oldItems| && s <= |newItems|
    requires forall k | 0 <= k < s :: oldItems[k] == newItems[k]
    ensures Classifies(oldItems, newItems, DiffFrom(oldItems, newItems, s))
  {
    var m0 := OldIndex(oldItems, s);
    var c0 := Claims(m0, {}, []);
    var c := ScanNew(newItems, s, c0);
    ScanNewSpec(newItems, m0, s, s, c0);
    ScanNewShrinks(newItems, s, c0);
    SharedPrefix(oldItems, newItems, s);
    // A value of either collection from `s` on is never found before `s` in
    // the other one.
    forall j | s <= j < |newItems|
      ensures newItems[j] in m0 <==> newItems[j] in oldItems
      ensures newItems[j] in m0 ==> oldItems[m0[newItems[j]]] == newItems[j]
    {
      if newItems[j] in oldItems {
        var k :| 0 <= k < |oldItems| && oldItems[k] == newItems[j];
      }
    }
    forall i | s <= i < |oldItems|
      ensures m0[oldItems[i]] == i
      ensures oldItems[i] in newItems <==> exists j | s <= j < |newItems| :: newItems[j] == oldItems[i]
    {
      if oldItems[i] in newItems {
        var k :| 0 <= k < |newItems| && newItems[k] == oldItems[i];
      }
    }
    assert Indices(c.oldSet) == Unclaimed(oldItems, newItems) by {
      forall x | x in Indices(c.oldSet)
        ensures x in Unclaimed(oldItems, newItems)
      {
        var v :| v in c.oldSet && c.oldSet[v] == x;
      }
      forall x | x in Unclaimed(oldItems, newItems)
        ensures x in Indices(c.oldSet)
      {
        assert oldItems[x] in c.oldSet;
      }
    }
    assert c.pending == Pending(oldItems, newItems) by {
      forall j | j in Pending(oldItems, newItems)
        ensures j in c.pending
      {
      }
    }
    forall m
      ensures m in c.moved <==> IsMove(oldItems, newItems, m)
    {
      if IsMove(oldItems, newItems, m) {
      }
    }
  }

  /** For distinct values the hash diff reports exactly the reference
      result, the early exits included. */
  lemma DiffClassifies<T>(oldItems: seq<T>, newItems: seq<T>)
    requires Distinct(oldItems) && Distinct(newItems)
    ensures Classifies(oldItems, newItems, Diff(oldItems, newItems))
  {
    if |oldItems| == 0 {
      assert Unclaimed(oldItems, newItems) == {};
      RangeElems(|newItems|);
    } else if |newItems| == 0 {
      assert Pending(oldItems, newItems) == {};
      RangeElems(|oldItems|);
    } else {
      DiffFromClassifies(oldItems, newItems, StartIndex(oldItems, newItems));
    }
  }

  /** A collection of distinct values diffed against itself reports no
      change. */
  lemma IdenticalInputsHaveNoChanges<T>(xs: seq<T>)
    requires Distinct(xs)
    ensures Diff(xs, xs) == HashChanges({}, {}, [], {})
  {
    var r := Diff(xs, xs);
    DiffClassifies(xs, xs);
    forall j: nat | j < |xs|
      ensures xs[j] in xs
    {
    }
    assert Pending(xs, xs) == {};
    assert Unclaimed(xs, xs) == {};
    forall m
      ensures !IsMove(xs, xs, m)
    {
    }
    NoMembersMeansEmpty(r.moved);
  }

  /** Skipping the common prefix changes nothing: starting the scan at any
      index below which the collections agree, `startIndex` included, gives
      the same result as starting at 0, and no record refers to the
      skipped prefix. */
  lemma SkippingPrefixAgrees<T>(oldItems: seq<T>, newItems: seq<T>, s: nat)
    requires Distinct(oldItems) && Distinct(newItems)
    requires s <= |oldItems| && s <= |newItems|
    requires forall k | 0 <= k < s :: oldItems[k] == newItems[k]
    ensures DiffFrom(oldItems, newItems, s) == DiffFrom(oldItems, newItems, 0)
    ensures var r := DiffFrom(oldItems, newItems, s);
      && (forall k | k in r.inserted + r.removed + r.updated :: s <= k)
      && (forall m | m in r.moved :: s <= m.from && s <= m.to)
  {
    var a, b := DiffFrom(oldItems, newItems, s), DiffFrom(oldItems, newItems, 0);
    DiffFromClassifies(oldItems, newItems, s);
    DiffFromClassifies(oldItems, newItems, 0);
    IncreasingTargetsUnique(a.moved, b.moved);
    SharedPrefix(oldItems, newItems, s);
    forall k: nat | k < s
      ensures k !in Pending(oldItems, newItems) && k !in Unclaimed(oldItems, newItems)
    {
      assert oldItems[k] == newItems[k];
    }
    forall m | m in a.moved
      ensures s <= m.from && s <= m.to
    {
    }
  }
}
