# Diffuse diff engine in Dafny

A model of the diff engine of Diffuse. Given an "old" and a "new" ordered
collection, it reports which indices were inserted, removed, moved or updated.
The model covers:

- **`ComparatorDiff`** — `Diffuse.diff(old:new:comparator:)`, the quadratic diff.
  A caller-supplied predicate decides which elements are the same logical
  entity, and `!=` decides whether that entity's content changed. Each of its
  three loops (the removal loop, the outer loop over new, the inner loop over
  old with its early `break`) is a recursive function. The argument order of the
  comparator is kept: the removal loop asks `cmp(newElem, oldElem)`, the others
  `cmp(oldElem, newElem)`. `Diff` carries the full characterization of the four
  lists as its contract, and `DiffIsDetermined` shows that this contract fixes
  the result.
- **`HashDiff`** — `Diffuse.diff(old:new:)`, the hash diff, in which equality is
  identity. It is modelled step by step:
  - the early exits;
  - the common-prefix skip;
  - the `Set<Element<T>>` of old elements, as a map from value to old index;
  - the scan of new, which claims entries, records moves and collects pending
    inserts;
  - the pass over unclaimed entries, which turns them into updates or removals.

  `Classifies` is an independent reference definition stated on the inputs
  alone, and `DiffClassifies` proves the hash diff meets it.
- **`HashDiffLoops`** — the same hash diff as methods with loops. The Swift
  `Set` iterations pick an arbitrary remaining member, so what is proved holds
  for every iteration order.
- **`DiffAgreement`** — how the two diffs relate. Take distinct values and a
  comparator that is equality on the inputs. Then the comparator diff reports
  exactly the hash diff's moves, in the same order, and no update of its own.
  Where the hash diff merges a vanished old value and a new value at one index
  into an update, the comparator diff reports that pair as a removal and an
  insert.
- **`Changes`** — the `Change` enum and the newer result container (four
  stored lists, `allChanges` their concatenation, an initializer with defaulted
  arguments).
- **`ChangeLog`** — the older container: one `allChanges` list and four views
  that filter it by kind. A bridging lemma connects the two revisions.
- **`Identity`** — the `Element` and `Item` wrappers with their equality and
  hash laws. The hash of the wrapped type is a parameter.
- **`ComparatorScenarios`, `HashScenarios`** — the cases of the repository's
  test suites, each proved as the exact result the model reports.

### Behaviour worth noting

- The comparator diff returns `CollectionChanges(inserted:removed:moved:updated:)`
  (Diffuse/Shared/Diffuse.swift:70), so `allChanges` lists inserts first, then
  removals, moves and updates.
- The inner loop of the comparator diff breaks only once both a move and an
  update were found (Diffuse/Shared/Diffuse.swift:50). It does not stop when
  the new element equals the old candidate, and an update is reported when
  *any* matching old element differs.
- In the prefix skip (Diffuse/Shared/Diffuse.swift:93-100), `startIndex` stays
  0 when the two collections agree on their whole common length. This costs
  nothing in correctness: `SkippingPrefixAgrees` shows that every start index
  below which the inputs agree gives the same result.

### Reconciling the revisions

Diffuse/Shared/Models/CollectionChanges.swift stores four `[Change]` lists.
Diffuse/Shared/Diffuse.swift hands its initializer `[Int]` and `[Move<Int>]`.
The model therefore types the lists:
- indices for inserted, removed and updated;
- `IndexMove(from, to)` pairs for moved.

They are wrapped into `Change` records only when `AllChanges()` is read. The
two `Change.swift` files declare the same four cases under different labels,
and are one datatype here.

## Model

| member | source | states |
|---|---|---|
| `Changes.CollectionChanges.AllChanges` | Diffuse/Shared/Models/CollectionChanges.swift:13-15 | `allChanges` holds every insert, then every removal, every move and every update, each list in its stored order, and nothing else |
| `Changes.CountIsSumOfLists` | Diffuse/Shared/Models/CollectionChanges.swift:13-15 | the record count of a container is the sum of its four list lengths |
| `Changes.DefaultedInit` | Diffuse/Shared/Models/CollectionChanges.swift:17-22 | the initializer stores its arguments and defaults the rest to empty; a container built from `inserted: xs` alone reports exactly those inserts, and one built with no arguments reports nothing |
| `Changes.NoDuplicatesSize` | Diffuse/Shared/Diffuse.swift:128-140 | a list without repeats has as many distinct members as entries, so listing a set gives one record per member |
| `Changes.RangeElems` | Diffuse/Shared/Diffuse.swift:75-76 | `Array(0..<n)` holds each index below `n` exactly once, in ascending order |
| `ChangeLog.OfKind` | Diffuse/Shared/CollectionChanges.swift:10-44 | a view keeps only records of its kind, keeps every record of its kind, and is never longer than the log |
| `ChangeLog.OfKindAppend` | Diffuse/Shared/CollectionChanges.swift:10-44 | a view of two logs joined is the view of the first followed by the view of the second, so the records keep their relative order |
| `ChangeLog.ViewsPartition` | Diffuse/Shared/CollectionChanges.swift:10-44 | every record lands in exactly one view: the four view sizes add up to the log size |
| `ChangeLog.ViewsOfConcatenation` | Diffuse/Shared/CollectionChanges.swift:10-44 | for four lists each holding only its own kind, joined as inserts, removes, moves, updates, each view gives back its list |
| `ChangeLog.ViewsRecoverLists` | Diffuse/Shared/Models/CollectionChanges.swift:13-15 | the older container's views of the newer container's `allChanges` give back the newer container's four lists |
| `ChangeLog.FilteringScenario` | DiffuseTests/Models/CollectionChangesTests.swift:9-24 | the log of 1 insert, 2 removes, 3 moves and 4 updates has 10 records, and each view holds exactly the records of its kind |
| `ComparatorDiff.ContainsWhere` | Diffuse/Shared/Diffuse.swift:32 | `contains(where:)` holds exactly when some element satisfies the predicate |
| `ComparatorDiff.RemovedFromSpec` | Diffuse/Shared/Diffuse.swift:30-34 | the removal loop reports, in ascending order, exactly the old offsets that no new element matches |
| `ComparatorDiff.ScanOldSpec` | Diffuse/Shared/Diffuse.swift:48-67 | the inner loop finds a move exactly when some old offset matches the new element from another position, and takes it from the lowest such offset; it finds an update exactly when some matching old element differs; the early `break` changes neither |
| `ComparatorDiff.NewFromSpec` | Diffuse/Shared/Diffuse.swift:36-68 | the outer loop reports, each in ascending new-offset order: the unmatched new offsets as inserts, one move per offset matched from elsewhere (from the lowest such old offset), and the offsets some matching old element differs from as updates |
| `ComparatorDiff.Diff` | Diffuse/Shared/Diffuse.swift:21-71 | removed, inserted, moved and updated are exactly the unmatched old offsets, the unmatched new offsets, the lowest-source moves and the content-changed new offsets, each in ascending order (iff in both directions) |
| `ComparatorDiff.InsertedIsExclusive` | Diffuse/Shared/Diffuse.swift:40-46 | an inserted offset is never a move target and never updated, and no new offset is the target of two moves |
| `ComparatorDiff.EqualityComparatorNeverUpdates` | Diffuse/Shared/Diffuse.swift:60-65 | with a comparator that only matches equal elements, `updated` is empty |
| `ComparatorDiff.IdenticalInputsHaveNoChanges` | Diffuse/Shared/Diffuse.swift:21-71 | a collection diffed against itself, under a comparator matching each element only with itself, yields no records |
| `ComparatorDiff.DiffIsDetermined` | Diffuse/Shared/Diffuse.swift:21-71 | any four ascending lists with the members `Diff`'s contract describes are the lists `Diff` returns |
| `ComparatorDiff.EmptySideReportsEverything` | Diffuse/Shared/Diffuse.swift:30-46 | with no old elements the result is exactly `inserted: 0..<n`; with no new elements it is exactly `removed: 0..<n` |
| `ComparatorScenarios.EmptyBoth` | DiffuseTests/DiffuseComparatorTests.swift:14-21 | two empty collections give 0 records |
| `ComparatorScenarios.EmptyOld` | DiffuseTests/DiffuseComparatorTests.swift:25-33 | `[]` to `[1, 2, 3]` gives exactly inserts 0, 1, 2 |
| `ComparatorScenarios.EmptyNew` | DiffuseTests/DiffuseComparatorTests.swift:35-43 | `[1, 2, 3]` to `[]` gives exactly removals 0, 1, 2 |
| `ComparatorScenarios.InsertPrimitives` | DiffuseTests/DiffuseComparatorTests.swift:45-55 | `[1, 2, 3]` to `[1, 4, 2, 3, 5]` gives inserts 1 and 4 and moves 1→2 and 2→3, four records |
| `ComparatorScenarios.RemovePrimitives` | DiffuseTests/DiffuseComparatorTests.swift:57-67 | `[1, 2, 3, 4, 5]` to `[1, 3, 5]` gives removals 1 and 3 and moves 2→1 and 4→2, four records |
| `ComparatorScenarios.MovePrimitives` | DiffuseTests/DiffuseComparatorTests.swift:69-77 | `[1, 2, 3, 4, 5]` to `[5, 1, 3, 2, 4]` gives the four moves 4→0, 0→1, 1→3, 3→4 and nothing else |
| `ComparatorScenarios.EmptyOldObjects` | DiffuseTests/DiffuseComparatorTests.swift:81-89 | no objects to objects `A`–`D` by id gives exactly inserts 0, 1, 2, 3: four records |
| `ComparatorScenarios.EmptyNewObjects` | DiffuseTests/DiffuseComparatorTests.swift:91-99 | objects `A`–`D` to no objects by id gives exactly removals 0, 1, 2, 3: four records |
| `ComparatorScenarios.EqualCollections` | DiffuseTests/DiffuseComparatorTests.swift:101-108 | objects `A`–`D` diffed against themselves by id give 0 records |
| `ComparatorScenarios.InsertObjects` | DiffuseTests/DiffuseComparatorTests.swift:110-126 | objects `A`–`D` with `E` inserted at 1 and `F` appended give inserts 1 and 5 and moves 1→2, 2→3, 3→4, five records |
| `ComparatorScenarios.RemoveObjects` | DiffuseTests/DiffuseComparatorTests.swift:128-144 | objects `A`–`D` with `B` and `C` removed give removals 1 and 2 and move 3→1, three records |
| `ComparatorScenarios.Rename` | DiffuseTests/DiffuseComparatorTests.swift:146-159 | renaming the objects at 1 and 3 gives exactly updates 1 and 3 |
| `ComparatorScenarios.MultipleOperations` | DiffuseTests/DiffuseComparatorTests.swift:161-188 | `[A, B, C]` to `[B', D, E, C, F]` gives inserts 1, 2, 4, removal 0, moves 1→0 and 2→3, and update 0: seven records split 3, 1, 2, 1 |
| `HashDiff.FirstMismatch` | Diffuse/Shared/Diffuse.swift:92-100 | the prefix loop stops at the first index below the shorter length where the collections differ, and gives 0 when there is none |
| `HashDiff.StartIndex` | Diffuse/Shared/Diffuse.swift:92-100 | `startIndex` is within both collections and they agree below it; when they differ somewhere below the shorter length it is the first such index, and when they agree on the whole common length it is 0 |
| `HashDiff.OldIndex` | Diffuse/Shared/Diffuse.swift:102-106 | every old value from the start index on is a key, and each key maps to the first old index from there holding it |
| `HashDiff.ElementSetIsIndexMap` | Diffuse/Shared/Diffuse.swift:102-117 | for distinct values, a set member equal to `Element(v, j)` exists exactly when `v` is a key of the map, and its index is the mapped one |
| `HashDiff.ClaimedEntries` | Diffuse/Shared/Diffuse.swift:113-114 | removing the found value's entry leaves exactly the old values no new index up to the current one equals, with their indices unchanged |
| `HashDiff.ClaimedMoves` | Diffuse/Shared/Diffuse.swift:114-120 | appending the move of the found value, when its old index differs, keeps the moves exactly the index changes seen so far, in ascending target order |
| `HashDiff.ClaimStepFound` | Diffuse/Shared/Diffuse.swift:113-120 | a value found claims its entry and, when its old index differs, adds a move after all earlier ones |
| `HashDiff.ClaimStepMissing` | Diffuse/Shared/Diffuse.swift:121-124 | a value not found was in no old entry, and becomes a pending insert |
| `HashDiff.ScanNewSpec` | Diffuse/Shared/Diffuse.swift:108-125 | after the scan, the unclaimed entries are the old values no scanned new value equals; the pending inserts are the scanned new indices whose value is not in the map; the moves are exactly the scanned index changes, in ascending target order |
| `HashDiff.ScanNewShrinks` | Diffuse/Shared/Diffuse.swift:114 | the scan only removes entries from the map and never changes the index of the entries that remain |
| `HashDiff.DiffFromClassifies` | Diffuse/Shared/Diffuse.swift:102-140 | from any start index below which the inputs agree, steps 3 to 6 produce the reference result: updates where a vanished old value and a new value meet at one index, the other such indices as removals or inserts, and every index change of a value as a move |
| `HashDiff.DiffClassifies` | Diffuse/Shared/Diffuse.swift:73-141 | for distinct values the hash diff, early exits included, gives exactly the reference result |
| `HashDiff.IdenticalInputsHaveNoChanges` | Diffuse/Shared/Diffuse.swift:73-141 | a collection of distinct values diffed against itself reports no insert, removal, move or update |
| `HashDiff.SkippingPrefixAgrees` | Diffuse/Shared/Diffuse.swift:92-106 | skipping a common prefix gives the same result as starting at 0, and no record refers to the skipped prefix |
| `HashDiffLoops.SetToSeq` | Diffuse/Shared/Diffuse.swift:140 | `Array(set)` lists every member of the set once, in whatever order |
| `HashDiffLoops.SkipPrefix` | Diffuse/Shared/Diffuse.swift:92-100 | the `for`/`break` loop computes `startIndex` as the prefix function does |
| `HashDiffLoops.BuildOldSet` | Diffuse/Shared/Diffuse.swift:102-106 | the insertion loop builds the map of old values to their first index from the start index on |
| `HashDiffLoops.ScanNewItems` | Diffuse/Shared/Diffuse.swift:108-125 | the loop over new ends in the state the recursive scan describes |
| `HashDiffLoops.SortLeftovers` | Diffuse/Shared/Diffuse.swift:127-137 | whatever order the unclaimed entries are visited in, the updates, removals and remaining pending inserts are the sets the reference step describes, with no index listed twice |
| `HashDiffLoops.Diff` | Diffuse/Shared/Diffuse.swift:73-141 | the early exits return exactly `inserted: 0..<n` or `removed: 0..<n`; otherwise the lists hold exactly the functional model's sets, each index once, and `moved` equals its sequence; so `allChanges.count` is the sum of the set sizes and the number of moves |
| `HashScenarios.Insert` | DiffuseTests/DiffuseHashableTests.swift:16-26 | `[1, 2, 3]` to `[1, 4, 2, 3, 5]` gives inserts {1, 4} and moves 1→2, 2→3; `allChanges.count` is 4 |
| `HashScenarios.Remove` | DiffuseTests/DiffuseHashableTests.swift:28-38 | `[1, 2, 3, 4, 5]` to `[1, 3, 5]` gives removals {1, 3} and moves 2→1, 4→2; `allChanges.count` is 4 |
| `HashScenarios.Move` | DiffuseTests/DiffuseHashableTests.swift:40-48 | `[1, 2, 3, 4, 5]` to `[5, 1, 3, 2, 4]` gives the four moves 4→0, 0→1, 1→3, 3→4 and nothing else; `allChanges.count` is 4 |
| `HashScenarios.Update` | DiffuseTests/DiffuseHashableTests.swift:50-58 | `[1, 2, 3, 4, 5]` to `[1, 2, 3, 6, 5]` gives the single update 3; `allChanges.count` is 1 |
| `HashScenarios.InsertObjects` | DiffuseTests/DiffuseHashableTests.swift:62-78 | objects `A`–`D` with `E` inserted at 1 and `F` appended give inserts {1, 5} and moves 1→2, 2→3, 3→4; `allChanges.count` is 5 |
| `HashScenarios.RemoveObjects` | DiffuseTests/DiffuseHashableTests.swift:80-96 | objects `A`–`D` with `B` and `C` removed give removals {1, 2} and move 3→1; `allChanges.count` is 3 |
| `HashScenarios.Rename` | DiffuseTests/DiffuseHashableTests.swift:98-111 | renaming the objects at 1 and 3 gives exactly updates {1, 3}: each is a different value at the same index; `allChanges.count` is 2 |
| `HashScenarios.MultipleOperations` | DiffuseTests/DiffuseHashableTests.swift:113-137 | `[A, B, C]` to `[B', D, E, C, F]` by whole value gives inserts {2, 4}, move 2→3 and updates {0, 1}: five records |
| `DiffAgreement.ComparatorAgreesWithHashDiff` | Diffuse/Shared/Diffuse.swift:21-141 | for distinct values and a comparator that is equality on the inputs, the comparator diff inserts what the hash diff inserts or updates, removes what it removes or updates, has the same moves in the same order, and updates nothing |
| `DiffAgreement.ComparatorFromClassification` | Diffuse/Shared/Diffuse.swift:21-71 | under the same conditions, the comparator diff's result is the ascending new indices of new values as inserts, the ascending old indices of vanished values as removals, and the index changes of values as moves |
| `Identity.ElementEqIgnoresIndex` | Diffuse/Shared/Models/Element.swift:13-15 | two elements are equal exactly when their values are; the index is ignored |
| `Identity.ElementHashRespectsEq` | Diffuse/Shared/Models/Element.swift:9-15 | equal elements hash alike, and one value hashes alike at any index |
| `Identity.ElementEqIsEquivalence` | Diffuse/Shared/Diffuse.swift:144-155 | element equality, in either declaration of `Element`, is reflexive, symmetric and transitive |
| `Identity.ItemEqIgnoresIsNew` | Diffuse/Shared/Models/Item.swift:16-18 | two items are equal exactly when value and offset agree; `isNew` is ignored |
| `Identity.ItemHashRespectsEq` | Diffuse/Shared/Models/Item.swift:12-18 | equal items hash alike, and flipping `isNew` never changes the hash |
| `Identity.ItemHashRecoversOffset` | Diffuse/Shared/Models/Item.swift:12-14 | XOR with the value's hash gives back the offset's bits, so one value hashes alike at two offsets only when their bits agree |
| `Identity.AdjacentOffsetsHashApart` | Diffuse/Shared/Models/Item.swift:12-14 | one value at offsets 0 and 1 hashes differently |
| `Identity.ItemEqIsEquivalence` | Diffuse/Shared/Models/Item.swift:16-18 | item equality is reflexive, symmetric and transitive |

## Left out

- The UIKit adapters (Diffuse/Extensions/UITableViewExtensions.swift, Diffuse/iOS/UICollectionViewExtensions.swift) and both `IndexPathResult.swift` files. They only map the result onto platform index paths and batch updates.
- The benchmark application. It does wall-clock timing and floating-point averages, and calls third-party libraries.
- Concrete hash values (`Hasher`, `Int.hashValue`). The wrapped type's hash is a parameter. So the test asserting that the elements with values 1 and 2 hash apart, which depends on `Int`'s actual hash, is not modelled.
- The capacity reservations of the hash diff (`minimumCapacity`, `reserveCapacity`, `minSize`). They affect performance only.
- Duplicate values on the hash path. `HashDiff.DiffClassifies` and the lemmas it rests on require distinct values in each input. `HashDiff.Diff` itself is defined for every input, and its map keeps the first index of a repeated value, as `Set.insert` does.
- HashDiff.Diff: reports `inserted`, `removed` and `updated` as sets, because Swift produces them by iterating a `Set` and their order is unspecified. `HashDiffLoops.Diff` produces lists, and states their members and that no index repeats, but not their order.
- HashDiffLoops.SortLeftovers: states the order-independent outcome only, because the visiting order of the unclaimed entries is Swift's `Set` iteration order.
- Identity.ItemHashRecoversOffset: is stated on the 64-bit words of the offsets, not on the offsets themselves. Offsets that differ by a multiple of 2^64 cannot both occur as Swift `Int`s, and unbounded integers are not restricted to that range here.
- Swift's `==` on the element type is Dafny's built-in equality (`T(==)`). This is faithful for `Equatable`/`Hashable` types whose `==` is an equivalence that compares representations. It is not faithful for types such as `String`, whose `==` is Unicode canonical equivalence rather than equality of code units.
- The old API exercised by DiffuseTests/DiffuseTests.swift (`diff(old:updated:)` with a default comparator). It no longer exists in Diffuse.swift.
