/** The change records the diff engine reports, and the result container that
    holds them.

    `Change` is the four-case enum of the repository. `CollectionChanges` is the
    newer container: four stored lists, with `AllChanges()` their concatenation.
    The diff functions hand it plain indices for inserted, removed and updated
    and `(from, to)` pairs for moved, so the lists are typed here and wrapped into
    `Change` records only when `AllChanges()` is read. */
module Changes {

  /** One edit. `Remove.from` and `Move.from` are positions in the old
      collection; `Insert.at`, `Move.to` and `Updated.at` are positions in the
      new one. */
  datatype Change =
    | Insert(at: nat)
    | Remove(from: nat)
    | Move(from: nat, to: nat)
    | Updated(at: nat)

  /** The `Move<Int>` pair the diff functions collect. */
  datatype IndexMove = IndexMove(from: nat, to: nat)

  /** Every argument of the initializer defaults to the empty list. */
  datatype CollectionChanges = CollectionChanges(
    inserted: seq<nat> := [],
    removed: seq<nat> := [],
    moved: seq<IndexMove> := [],
    updated: seq<nat> := [])
  {
    /** `inserted + removed + moved + updated`, as `Change` records. */
    function AllChanges(): (r: seq<Change>)
      ensures |r| == |inserted| + |removed| + |moved| + |updated|
      ensures forall k | 0 <= k < |inserted| :: r[k] == Insert(inserted[k])
      ensures forall k | 0 <= k < |removed| ::
          r[|inserted| + k] == Remove(removed[k])
      ensures forall k | 0 <= k < |moved| ::
          r[|inserted| + |removed| + k] == Move(moved[k].from, moved[k].to)
      ensures forall k | 0 <= k < |updated| ::
          r[|inserted| + |removed| + |moved| + k] == Updated(updated[k])
    {
      Inserts(inserted) + Removes(removed) + Moves(moved) + Updates(updated)
    }

    /** The number of records, `allChanges.count`. */
    function Count(): nat
    {
      |AllChanges()|
    }
  }

  function Inserts(xs: seq<nat>): (r: seq<Change>)
    ensures |r| == |xs|
    ensures forall k | 0 <= k < |xs| :: r[k] == Insert(xs[k])
  {
    seq(|xs|, k requires 0 <= k < |xs| => Insert(xs[k]))
  }

  function Removes(xs: seq<nat>): (r: seq<Change>)
    ensures |r| == |xs|
    ensures forall k | 0 <= k < |xs| :: r[k] == Remove(xs[k])
  {
    seq(|xs|, k requires 0 <= k < |xs| => Remove(xs[k]))
  }

  function Moves(ms: seq<IndexMove>): (r: seq<Change>)
    ensures |r| == |ms|
    ensures forall k | 0 <= k < |ms| :: r[k] == Move(ms[k].from, ms[k].to)
  {
    seq(|ms|, k requires 0 <= k < |ms| => Move(ms[k].from, ms[k].to))
  }

  function Updates(xs: seq<nat>): (r: seq<Change>)
    ensures |r| == |xs|
    ensures forall k | 0 <= k < |xs| :: r[k] == Updated(xs[k])
  {
    seq(|xs|, k requires 0 <= k < |xs| => Updated(xs[k]))
  }

  /** The count of a container is the sum of its four list lengths. */
  lemma CountIsSumOfLists(c: CollectionChanges)
    ensures c.Count() == |c.inserted| + |c.removed| + |c.moved| + |c.updated|
  {
  }

  /** The initializer stores what it is given; a container built from
      `inserted: xs` alone reports exactly those inserts, and one built with
      no arguments reports nothing. */
  lemma DefaultedInit(xs: seq<nat>)
    ensures CollectionChanges(inserted := xs).inserted == xs
    ensures CollectionChanges(inserted := xs).removed == []
    ensures CollectionChanges(inserted := xs).AllChanges() == Inserts(xs)
    ensures CollectionChanges(removed := xs).AllChanges() == Removes(xs)
    ensures CollectionChanges().AllChanges() == []
    ensures CollectionChanges().Count() == 0
  {
    assert CollectionChanges(inserted := xs).AllChanges()
        == Inserts(xs) + [] + [] + [];
    assert CollectionChanges(removed := xs).AllChanges()
        == [] + Removes(xs) + [] + [];
  }

  /** A list with no members is empty. */
  lemma NoMembersMeansEmpty<X>(xs: seq<X>)
    ensures (forall x :: x !in xs) ==> xs == []
  {
    if xs != [] {
      assert xs[0] in xs;
    }
  }

  /** Strictly ascending, hence also free of duplicates. */
  predicate Increasing(xs: seq<nat>)
  {
    forall a, b | 0 <= a < b < |xs| :: xs[a] < xs[b]
  }

  lemma IncreasingCons(x: nat, xs: seq<nat>)
    requires Increasing(xs)
    requires forall y | y in xs :: x < y
    ensures Increasing([x] + xs)
  {
    forall a, b | 0 <= a < b < |[x] + xs|
      ensures ([x] + xs)[a] < ([x] + xs)[b]
    {
      assert ([x] + xs)[b] == xs[b - 1];
      assert xs[b - 1] in xs;
    }
  }

  /** Moves listed in strictly ascending order of their target. */
  predicate IncreasingTargets(ms: seq<IndexMove>)
  {
    forall a, b | 0 <= a < b < |ms| :: ms[a].to < ms[b].to
  }

  lemma IncreasingTargetsCons(m: IndexMove, ms: seq<IndexMove>)
    requires IncreasingTargets(ms)
    requires forall n | n in ms :: m.to < n.to
    ensures IncreasingTargets([m] + ms)
  {
    forall a, b | 0 <= a < b < |[m] + ms|
      ensures ([m] + ms)[a].to < ([m] + ms)[b].to
    {
      assert ([m] + ms)[b] == ms[b - 1];
      assert ms[b - 1] in ms;
    }
  }

  lemma IncreasingTargetsSnoc(ms: seq<IndexMove>, m: IndexMove)
    requires IncreasingTargets(ms)
    requires forall n | n in ms :: n.to < m.to
    ensures IncreasingTargets(ms + [m])
  {
    forall a, b | 0 <= a < b < |ms + [m]|
      ensures (ms + [m])[a].to < (ms + [m])[b].to
    {
      assert (ms + [m])[a] == ms[a];
      assert ms[a] in ms;
    }
  }

  /** Two move lists in ascending order of target with the same members are
      the same list. */
  lemma {:induction false} IncreasingTargetsUnique(a: seq<IndexMove>, b: seq<IndexMove>)
    requires IncreasingTargets(a) && IncreasingTargets(b)
    requires forall m :: m in a <==> m in b
    ensures a == b
    decreases |a|
  {
    NoMembersMeansEmpty(a);
    NoMembersMeansEmpty(b);
    if a != [] && b != [] {
      assert a[0] in b && b[0] in a;
      var i :| 0 <= i < |b| && b[i] == a[0];
      var k :| 0 <= k < |a| && a[k] == b[0];
      assert a[0] == b[0];
      forall m
        ensures m in a[1..] <==> m in b[1..]
      {
        if m in a[1..] {
          var x :| 1 <= x < |a| && a[x] == m;
          assert m in b;
          assert m != b[0];
        }
        if m in b[1..] {
          var y :| 1 <= y < |b| && b[y] == m;
          assert m in a;
          assert m != a[0];
        }
      }
      IncreasingTargetsUnique(a[1..], b[1..]);
    }
  }

  /** Two ascending lists with the same members are the same list. */
  lemma {:induction false} IncreasingUnique(a: seq<nat>, b: seq<nat>)
    requires Increasing(a) && Increasing(b)
    requires forall x :: x in a <==> x in b
    ensures a == b
    decreases |a|
  {
    NoMembersMeansEmpty(a);
    NoMembersMeansEmpty(b);
    if a != [] && b != [] {
      assert a[0] in b && b[0] in a;
      assert a[0] == b[0];
      forall x
        ensures x in a[1..] <==> x in b[1..]
      {
        if x in a[1..] {
          assert x in b;
          assert x != b[0];
        }
        if x in b[1..] {
          assert x in a;
          assert x != a[0];
        }
      }
      IncreasingUnique(a[1..], b[1..]);
    }
  }

  /** No index occurs twice. */
  predicate NoDuplicates(xs: seq<nat>)
  {
    forall a, b | 0 <= a < b < |xs| :: xs[a] != xs[b]
  }

  /** The members of a list, as a set. */
  function Elems(xs: seq<nat>): set<nat>
  {
    set x | x in xs
  }

  /** A list without repeats has as many members as entries. */
  lemma {:induction false} NoDuplicatesSize(xs: seq<nat>)
    requires NoDuplicates(xs)
    ensures |Elems(xs)| == |xs|
  {
    if xs != [] {
      var tail := xs[1..];
      assert NoDuplicates(tail) by {
        forall a, b | 0 <= a < b < |tail|
          ensures tail[a] != tail[b]
        {
          assert tail[a] == xs[a + 1] && tail[b] == xs[b + 1];
        }
      }
      NoDuplicatesSize(tail);
      assert Elems(xs) == Elems(tail) + {xs[0]};
      assert xs[0] !in Elems(tail) by {
        forall k | 0 <= k < |tail|
          ensures tail[k] != xs[0]
        {
          assert tail[k] == xs[k + 1];
        }
      }
    }
  }

  /** `Array(0..<n)`. */
  function Range(n: nat): (r: seq<nat>)
    ensures |r| == n
    ensures forall k | 0 <= k < n :: r[k] == k
  {
    seq(n, k requires 0 <= k < n => k)
  }

  /** `0..<n` holds exactly the indices below `n`, each once. */
  lemma RangeElems(n: nat)
    ensures forall j: nat :: j in Elems(Range(n)) <==> j < n
    ensures Increasing(Range(n))
  {
    forall j: nat | j < n
      ensures j in Elems(Range(n))
    {
      assert Range(n)[j] == j;
    }
  }
}
