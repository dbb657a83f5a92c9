/** The older result container: one flat `allChanges` list, and four views
    that each keep the records of one kind in their original order. */
module ChangeLog {
  import opened Changes

  /** The four kinds a `Change` can have, one per enum case. */
  datatype Kind = InsertKind | RemoveKind | MoveKind | UpdateKind

  function KindOf(c: Change): Kind
  {
    match c
    case Insert(_) => InsertKind
    case Remove(_) => RemoveKind
    case Move(_, _) => MoveKind
    case Updated(_) => UpdateKind
  }

  /** `filter` keeping the records of kind `k`. */
  function OfKind(xs: seq<Change>, k: Kind): (r: seq<Change>)
    ensures |r| <= |xs|
    ensures forall c | c in r :: c in xs && KindOf(c) == k
    ensures forall c | c in xs && KindOf(c) == k :: c in r
  {
    if xs == [] then []
    else (if KindOf(xs[0]) == k then [xs[0]] else []) + OfKind(xs[1..], k)
  }

  datatype ChangeLog = ChangeLog(allChanges: seq<Change>)
  {
    function Inserted(): seq<Change> { OfKind(allChanges, InsertKind) }
    function Removed(): seq<Change> { OfKind(allChanges, RemoveKind) }
    function Moved(): seq<Change> { OfKind(allChanges, MoveKind) }
    function Updated(): seq<Change> { OfKind(allChanges, UpdateKind) }
  }

  /** Filtering commutes with concatenation: the records a view keeps from
      `a + b` are those it keeps from `a`, followed by those it keeps from `b`.
      With the singleton case in the body of `OfKind`, this pins the view down
      as an order-preserving selection. */
  lemma {:induction false} OfKindAppend(a: seq<Change>, b: seq<Change>, k: Kind)
    ensures OfKind(a + b, k) == OfKind(a, k) + OfKind(b, k)
  {
    if a == [] {
      assert a + b == b;
    } else {
      assert (a + b)[1..] == a[1..] + b;
      OfKindAppend(a[1..], b, k);
    }
  }

  /** A list of records all of one kind is kept whole by that kind's view and
      dropped entirely by every other view. */
  lemma {:induction false} OfKindUniform(xs: seq<Change>, k: Kind, j: Kind)
    requires forall c | c in xs :: KindOf(c) == k
    ensures OfKind(xs, j) == if j == k then xs else []
  {
    if xs != [] {
      assert xs[0] in xs;
      assert forall c | c in xs[1..] :: c in xs;
      OfKindUniform(xs[1..], k, j);
      assert xs == [xs[0]] + xs[1..];
    }
  }

  /** The four views partition the log: every record lands in exactly one of
      them, so their sizes add up to the size of the log. */
  lemma {:induction false} ViewsPartition(log: ChangeLog)
    ensures |log.Inserted()| + |log.Removed()| + |log.Moved()| + |log.Updated()|
            == |log.allChanges|
    decreases |log.allChanges|
  {
    if log.allChanges != [] {
      ViewsPartition(ChangeLog(log.allChanges[1..]));
    }
  }

  /** Four lists, each holding only its own kind, concatenated in the order
      inserts, removes, moves, updates: each view returns its list. */
  lemma {:induction false} ViewsOfConcatenation(
    i: seq<Change>, r: seq<Change>, m: seq<Change>, u: seq<Change>)
    requires forall c | c in i :: KindOf(c) == InsertKind
    requires forall c | c in r :: KindOf(c) == RemoveKind
    requires forall c | c in m :: KindOf(c) == MoveKind
    requires forall c | c in u :: KindOf(c) == UpdateKind
    ensures OfKind(i + r + m + u, InsertKind) == i
    ensures OfKind(i + r + m + u, RemoveKind) == r
    ensures OfKind(i + r + m + u, MoveKind) == m
    ensures OfKind(i + r + m + u, UpdateKind) == u
  {
    ViewOfConcatenation(i, r, m, u, InsertKind);
    ViewOfConcatenation(i, r, m, u, RemoveKind);
    ViewOfConcatenation(i, r, m, u, MoveKind);
    ViewOfConcatenation(i, r, m, u, UpdateKind);
  }

  lemma {:induction false} ViewOfConcatenation(
    i: seq<Change>, r: seq<Change>, m: seq<Change>, u: seq<Change>, k: Kind)
    requires forall c | c in i :: KindOf(c) == InsertKind
    requires forall c | c in r :: KindOf(c) == RemoveKind
    requires forall c | c in m :: KindOf(c) == MoveKind
    requires forall c | c in u :: KindOf(c) == UpdateKind
    ensures OfKind(i + r + m + u, k)
         == (if k == InsertKind then i else [])
          + (if k == RemoveKind then r else [])
          + (if k == MoveKind then m else [])
          + (if k == UpdateKind then u else [])
  {
    OfKindAppend(i + r + m, u, k);
    OfKindAppend(i + r, m, k);
    OfKindAppend(i, r, k);
    OfKindUniform(i, InsertKind, k);
    OfKindUniform(r, RemoveKind, k);
    OfKindUniform(m, MoveKind, k);
    OfKindUniform(u, UpdateKind, k);
  }

  /** Reading the four views of the newer container's concatenation gives
      back its four lists, each as records of its own kind. */
  lemma ViewsRecoverLists(c: CollectionChanges)
    ensures ChangeLog(c.AllChanges()).Inserted() == Inserts(c.inserted)
    ensures ChangeLog(c.AllChanges()).Removed() == Removes(c.removed)
    ensures ChangeLog(c.AllChanges()).Moved() == Moves(c.moved)
    ensures ChangeLog(c.AllChanges()).Updated() == Updates(c.updated)
  {
    ViewsOfConcatenation(Inserts(c.inserted), Removes(c.removed),
                         Moves(c.moved), Updates(c.updated));
  }

  /** One insert, two removes, three moves and four updates, in that
      order. */
  function FilteringLog(): ChangeLog
  {
    ChangeLog([Insert(0)] + [Remove(0), Remove(0)]
              + [Move(0, 0), Move(0, 0), Move(0, 0)]
              + [Updated(0), Updated(0), Updated(0), Updated(0)])
  }

  /** The log of one insert, two removes, three moves and four updates has
      ten records; each view keeps the records of its kind, 1, 2, 3 and 4 of
      them. */
  lemma FilteringScenario()
    ensures |FilteringLog().allChanges| == 10
    ensures FilteringLog().Inserted() == [Insert(0)]
    ensures FilteringLog().Removed() == [Remove(0), Remove(0)]
    ensures FilteringLog().Moved() == [Move(0, 0), Move(0, 0), Move(0, 0)]
    ensures FilteringLog().Updated() == [Updated(0), Updated(0), Updated(0), Updated(0)]
  {
    var ins := [Insert(0)];
    var rem := [Remove(0), Remove(0)];
    var mov := [Move(0, 0), Move(0, 0), Move(0, 0)];
    var upd := [Updated(0), Updated(0), Updated(0), Updated(0)];
    ViewsOfConcatenation(ins, rem, mov, upd);
  }
}
