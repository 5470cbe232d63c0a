# tc-collection: a verified model

tc-collection gives TinyChain its BTree, Table and Tensor values. This project models the two
parts of it that are hardest to get right, and proves what they are for.

**The multi-version transaction engine behind BTree and Table.** A collection holds canonical rows,
committed deltas ordered by transaction id, one pending delta per open transaction, and a finalize
frontier. What a transaction sees is computed in three ways: by a point lookup, by merging sorted
streams, and by materializing deltas in place. The three apply inserts and deletes in different
orders.

* `Collation`, `Streams`: rows, ranges, collators; the union and the difference of ordered streams.
* `Layers`: what a delta holds, the three evaluation orders, and the plan of native writes that
  materializes a stack of deltas.
* `Versions`: the shared lifecycle state as a value.
* `Persistence`: the same state as classes: native stores, deltas, and the lifecycle owner, updated
  in place, each method tied to a function of `Versions`.
* `Lifecycle`: the collection as a transition system. A finalize is split into the capture of the
  deltas, one native write at a time, and the prune; any other step may come in between, and the
  merge may fail after any write.
* `Serial`: serial equivalence in transaction order.
* `WellFormed`: what every run keeps of the rows in every store.
* `Restore`, `BTreeFile`, `BTreeView`, `TableScan`, `TableFile`, `TableView`: the operations of the
  two collections and their views.
* `TableSchemas`: construction of table schemas and their encoding as values.

**The tensor index arithmetic.** `MixedRadix` (offsets and coordinates), `Broadcast`, `Accumulate`
and `Reduce` (reduction over axes), `BroadcastReduce`, `Matmul` and `Transpose`, over shapes of
natural numbers and elements that are exact reals.

## Main results

* `Serial.BTreeIsSerial`, `BTreeFile.MixedRunIsSerial`, `TableFile.TableOperationsAreSerial`: over every
  run of writes, commits in any order, rollbacks and interleaved finalize steps, every transaction at or
  above the highest cutoff of any finalize begun sees the serial replay of what was asked for.
  `BTreeFile.WriteIsStep`, `BTreeFile.RestoreIsStep` and `TableFile.OperationIsStep` make every operation
  a step of such a run, and `BTreeFile.WrittenShows`, `TableFile.DeletedShows` and their like say what
  each one shows.
* `Versions.VisibleIsLatest`: what a transaction sees at a key is its own write, or else the latest commit
  up to its id that touches the key, or else the canonical row.
* `Serial.BTreeFinalizeIsSerial`, `Serial.TableFinalizeIsSerial`: after any such run a finalize, whatever
  comes between its steps, leaves the serial replay up to its cutoff, but for the rows that an earlier,
  failed finalize has moved.
* `Lifecycle.FinalizeIsInvisible`, `Lifecycle.OpenReadsAreStable`: no step of a finalize, finished or
  failed, changes what a transaction at its cutoff or above, or an open snapshot, reads.
  `Lifecycle.LazyReadsAreStable`: that includes a snapshot whose canonical rows are pulled one by
  one while the merge runs.
* `Layers.OrdersAgree`: the evaluation orders agree exactly on the disjoint deltas, and
  `TableScan.ScanIsExactIffNoneStale`: a Table scan in key order agrees with the lookups exactly when
  no key is stale in its range. `TableFile.UpdateIsExactIffNoneStale` and
  `TableFile.TruncateIsExactIffNoneStale` say the same of range updates and truncations, and
  `TableScan.OrderedScanIsExactIff` and `TableScan.TiedScanIsExactIff` give the exact conditions for
  scans in other orders, without and with ties within a store.
* `Restore.RestoreIsExact`, `TableFile.UpdateIsExact`, `TableFile.TruncateIsExact`,
  `TableView.RewriteLocal`: whole-collection and range edits have their exact effect and no other.
* `BroadcastReduce.ReduceIsAdjointOfBroadcast`, `Reduce.SumIsConserved`,
  `Broadcast.BroadcastAddIsBinary`, `Matmul.BatchedIsPerBatch`, `Accumulate.OnePassIsReduce`,
  `MixedRadix.UnravelRoundTrip`, `Transpose.OutputShape`: the algebra that the index arithmetic is for.
  `Broadcast.BroadcastAddCells`, `Broadcast.BinaryCells`, `Reduce.ReducedCell`, `Matmul.MatmulSays`: what
  each element of a result is.
* `TableSchemas.EncodeRoundTrip`, `TableSchemas.DecodesExactly`: schemas survive their encoding, and
  exactly which values decode.

Four promises fail in the code as it stands. Each has a concrete input and an exact condition:

* A scan over a range of value columns can show a row that a delta has replaced
  (`TableScan.ValueRangeCanBeStale`). It is exact if and only if no key is stale in the range
  (`TableScan.ScanIsExactIffNoneStale`), and so are range updates and truncations.
* A scan in an order other than by key can drop a visible row (`TableScan.SharedOrderDropsRows`), show
  a row twice, as it was and as it is (`TableScan.ChangedOrderShowsReplacedRow`), or drop a row because
  another was deleted (`TableScan.SharedOrderMarkerDropsRow`). When no store holds two rows of one rank in
  the range (`TableScan.StoresSeparated`) it is exact if and only if, of every row that a level offers,
  something overrides it by rank exactly when a later delta touches its key
  (`TableScan.OrderedScanIsExactIff`). With ties within a store it is exact if and only if each rank,
  computed on its own, lists its visible rows once (`TableScan.TiedScanIsExactIff`).
* A value can be castable to a schema and not decode, for want of a key
  (`TableSchemas.CastableWithoutKey`) or because a column name does not parse
  (`TableSchemas.CastableWithIllegalName`). `TableSchemas.DecodesExactly` is the exact condition.
* A finalize below one that failed can leave rows of later commits in the canonical store
  (`Lifecycle.FailedFinalizeReachesFurther`). It leaves the commits up to its cutoff if and only if,
  before the call, every row that only the failed one's deltas touch is still what the last completed
  finalize left (`Lifecycle.FinalizedIsPastIff`). TRANSACTIONAL_COLLECTION_CONTRACT.md lines 48-52 forbid
  that retry to callers; the code accepts it.

One hypothesis is shown to be needed: without its reservation a Table delete is not serial
(`TableFile.UnreservedDeleteIsNotSerial`, an interleaving that the code refuses as a conflict).
`Serial.FaithfulElsewhereIff` says exactly when a delta still does what its log says after an earlier
commit.

## Assumptions

* The native b_tree and b_table files behave as a sorted set and a keyed map, and b_table's upsert
  inserts or replaces. Both are the class `Persistence.NativeStore`; a BTree key carries no values.
* `try_merge` and `try_diff` of the collate library are the union and the difference of ordered
  streams. Of two items that collate equally a merge keeps the left one and drops the right one, and a
  difference drops both, item by item when there are ties. They are written out as `Streams.Merge` and
  `Streams.Diff`.
* A native stream arrives in the order of the collator, and by key among rows that collate equally. For
  a range of value columns in key order the code reads through an index (src/table/file.rs:84-94), and
  every result about such a range rests on this.
* Values are represented by their rank under the value collator, and transaction ids by their rank in
  their total order.
* The reservation semaphore appears as hypotheses only: `Serial.Reserved` (whoever else has written a
  key is earlier and has committed; a range operation or a restoration writes every key),
  `BTreeFile.RestoreReserved` (the same between a BTree's restorations and other writers only) and
  `Lifecycle.Undisturbed` (a delta committed below an open snapshot stays out of the range it reads).
* `Lifecycle.Contract` is what TRANSACTIONAL_COLLECTION_CONTRACT.md lines 37-41 ask of callers. No
  promise is made to a reader below the highest cutoff of any finalize begun, finished or failed. A
  reader at that cutoff sees what it saw before, but for what it had pending, which the prune discards.
* Identifier syntax is foreign: which strings parse as names is a parameter of the schema casts.
* I/O errors are a parameter: the first `budget` native writes of a merge succeed, the next one fails.

## Model

| member | source | states |
|---|---|---|
| Collation.LessIsLexicographic | src/btree/file.rs:45-52 | One row is less than another if and only if it is a proper prefix of it or is less in the first column in which they differ |
| Streams.MergeIsUnion | src/btree/file.rs:483 | The merge of two ordered streams is ordered and free of duplicates, and holds every left row and exactly those right rows that collate with no left row |
| Streams.DiffIsDifference | src/btree/file.rs:476 | The difference of two ordered streams is ordered and holds exactly the left rows that collate with no right row |
| Streams.MergeByRank | src/btree/file.rs:483 | With ties, a merge keeps of each rank every left row and drops as many of the first right rows |
| Streams.DiffByRank | src/btree/file.rs:476 | With ties, a difference drops of each rank as many of the first left rows as there are right rows |
| Streams.ListingIsStream | src/btree/file.rs:178-190 | The stream of a store without rows that collate equally is strictly ordered and lists exactly its rows |
| Streams.ListingIsUnique | src/btree/file.rs:178-190 | Two strictly ordered streams of the same rows are equal, so an order and a set of rows fix a stream |
| Streams.CollatorSays | src/table/file.rs:64-80 | A collator puts one row before another if and only if the first named column in which they differ, or the key when none is named, is less, and the other way round in reverse; it ties exactly the rows that differ in none |
| Streams.ReverseIsBackwards | src/btree/file.rs:45-52 | The ordered stream of some rows in one direction is their stream in the other, read backwards |
| Layers.OrdersAgree | src/table/file.rs:205-247 | Subtract-then-add (lookup, BTree scan) and add-then-subtract (Table scan, materialization) agree if and only if no key is both inserted and deleted |
| Layers.StacksAgree | src/table/file.rs:842-869 | Over any stack of disjoint deltas the lookup order and the materialization order give the same rows |
| Layers.StackHides | src/persistence.rs:153-158 | A stack of deltas hides the rows below it at every key it touches, and shows them at every other |
| Layers.LastTouchDecides | src/table/file.rs:842-869 | In a stack the last delta that touches a key decides: the row it inserts shows, and if it only deletes the key nothing does |
| Layers.EditDoes | src/btree/file.rs:249-259 | Inserting or deleting a key in a delta inserts or deletes it in what the delta shows over any rows, and keeps the delta disjoint |
| Layers.ColumnsSetIff | src/table/file.rs:717-721 | A range update is exact if and only if the keys are the same, in each row of the range every named column has its new value and every other its old one, and every row outside is unchanged |
| Layers.RangeGoneIff | src/table/file.rs:742-787 | A truncation is exact if and only if exactly the rows outside the range are left, unchanged |
| Layers.PlanMaterializes | src/table/file.rs:234-247 | Replaying the native writes of `apply_to`, a stream of upserts and then one of deletes, adds the inserts and then removes the deleted keys |
| Layers.PlanStackMaterializes | src/persistence.rs:153-158 | The concatenated plans of a stack materialize the stack |
| Layers.PlanStackTouches | src/btree/file.rs:265-282 | A plan writes only to keys that some delta of its stack touches |
| Persistence.Delta.ApplyTo | src/btree/file.rs:265-282 | Makes exactly the first `budget` writes of the delta's plan and says whether that was all of them |
| Persistence.ApplyAll | src/persistence.rs:153-158 | Applies a list of deltas in order and stops at the first failed write, leaving the store after exactly that many writes |
| Persistence.CollectionOwner.AssertWritable | src/persistence.rs:28-36 | Refuses a transaction at or below the frontier as outdated, a committed one as committed, and no other |
| Persistence.CollectionOwner.VisibleSnapshot | src/persistence.rs:74-90 | The canonical store and handles whose contents are the committed deltas up to the id in order, and then the transaction's own |
| Persistence.CollectionOwner.PendingDelta | src/btree/file.rs:748-780 | Returns the transaction's delta, with a fresh empty one created on its first write; refusals change nothing |
| Persistence.CollectionOwner.PutPending | src/table/file.rs:183-187 | Clears the key's marker and inserts its row in the pending delta; every other delta, store and transaction is unchanged |
| Persistence.CollectionOwner.Commit | src/persistence.rs:105-119 | Moves the pending delta to committed; a repeated commit changes nothing; outdated at or below the frontier |
| Persistence.CollectionOwner.Rollback | src/persistence.rs:121-135 | Drops the pending delta only; conflict after a commit, outdated at or below the frontier |
| Persistence.CollectionOwner.Finalize | src/persistence.rs:137-171 | Merges committed deltas through the cutoff and prunes, or after a failed write leaves the store partly merged and prunes nothing |
| Persistence.CollectionOwner.MergeThrough | src/persistence.rs:138-158 | The canonical rows afterwards are those after the first `budget` writes of the finalize plan; nothing else changes |
| Persistence.CollectionOwner.PruneThrough | src/persistence.rs:160-165 | Keeps exactly the committed and pending deltas above the cutoff and moves the frontier to it |
| Versions.MiddleUntouched | src/persistence.rs:74-90 | Committing a delta below others, out of order, changes no key that it does not touch |
| Versions.BetweenSplit | src/persistence.rs:76-80 | The deltas of an interval of ids are those of its two parts in order |
| Versions.VisibleIsLatest | src/persistence.rs:74-90 | What a transaction sees at a key comes from its own delta if that touches the key, or else from the latest commit up to its id that does, or else from the canonical rows |
| Versions.OutcomesSay | src/persistence.rs:28-171 | Whatever is asked by a transaction at or below the frontier is outdated, but for a finalize, which is done; above it a committed one cannot write, may commit again and conflicts on rollback; a finalize above it succeeds exactly within its budget |
| Versions.CommitShows | src/persistence.rs:105-119 | A first commit moves its delta, if there is one, and changes neither its own view nor an earlier one; a repeated or refused one changes nothing |
| Versions.RollbackShows | src/persistence.rs:121-135 | A rollback leaves its transaction with what had been committed up to its id and every other view as it was; a refused one changes nothing |
| Versions.FinalizeKeeps | src/persistence.rs:137-171 | A completed finalize moves the frontier to its cutoff and keeps exactly the committed and pending deltas above it; a failed one changes no delta and no frontier, and one below the frontier nothing |
| Lifecycle.StepKeeps | src/persistence.rs:105-171 | Every permitted step of every operation, and every single step of a finalize, keeps the invariant |
| Lifecycle.RunKeeps | src/persistence.rs:105-171 | The invariant holds after every permitted run |
| Lifecycle.FinalizeIsInvisible | src/persistence.rs:137-171 | No finalize step, failed or not, changes what any transaction at the cutoff or above sees, but for pending work that the prune discards, or what an open snapshot reads in its range, before or after the prune |
| Lifecycle.ReapplyingIsTheSame | src/persistence.rs:153-158 | Over a store into which any number of the deltas' writes have been made, the deltas show, and a full merge leaves, the same rows as over the original |
| Lifecycle.OpenReadsAreStable | src/btree/file.rs:450-488 | An open snapshot reads the same row at each key of its range after any permitted run |
| Lifecycle.LazyReadsAreStable | src/btree/file.rs:463-486 | Canonical rows pulled key by key, each at some moment of an open snapshot while a finalize merges, show under its deltas exactly the snapshot |
| Lifecycle.ViewsAreIsolated | TRANSACTIONAL_COLLECTION_CONTRACT.md:27-31 | A transaction's view changes only by its own writes and rollback and by the commit of an earlier transaction |
| Lifecycle.VisibleIsPast | src/persistence.rs:74-90 | At the cutoff or above a view is the initial rows under every delta ever committed up to the id and the transaction's own, whatever has been merged since |
| Lifecycle.FinalizedIsPast | src/persistence.rs:137-171 | A finalize leaves, at a key, the row of every commit up to its cutoff if and only if the key is not exposed (touched by a delta that a failed finalize had begun and by none of its own) or its row, before the call, is still what the last completed finalize left; no key is exposed unless a finalize had begun above the cutoff |
| Lifecycle.FinalizedIsPastIff | src/persistence.rs:137-171 | It leaves every commit up to its cutoff everywhere if and only if no exposed row has been moved before the call |
| Lifecycle.HeldIsPast | src/persistence.rs:76-80 | The initial rows under every commit below an id are what the last completed finalize covered under the deltas still held |
| Lifecycle.InterleavedFinalize | src/persistence.rs:137-165 | Whatever permitted steps come between the steps of a finalize, it leaves in the canonical store exactly what it would have left alone |
| Lifecycle.FailedFinalizeReachesFurther | src/persistence.rs:153-158 | A permitted run in which a finalize fails after a write and a finalize at a lower cutoff leaves a row of a later commit in the canonical store |
| Lifecycle.FinalizeIsStepwise | src/persistence.rs:137-171 | A finalize call, failing after any number of writes or none, ends in the state that its steps of the transition system reach |
| Serial.SummaryReplays | src/btree/file.rs:249-259 | A delta built by any log of inserts and deletes shows, over any rows, the replay of the log |
| Serial.BTreeIsSerial | src/btree/file.rs:515-548 | Over every run of BTree writes, commits in any order, rollbacks and interleaved finalize steps, every transaction at the cutoff or above sees the replay of the committed logs in id order and then its own |
| Serial.BTreeFinalizeIsSerial | src/persistence.rs:137-171 | After every such run, a finalize with any steps between its own leaves the serial replay up to its cutoff at every key that is not exposed or not moved, and at no other; so wholly if and only if no exposed row was moved before the call |
| Serial.TableIsSerial | src/table/file.rs:410-524 | Over every run whose writes do, over the rows their writer sees, what their log says, and are reserved key by key, every transaction at the cutoff or above sees the serial replay |
| Serial.TableFinalizeIsSerial | src/persistence.rs:137-171 | The same of the canonical rows after every run of reserved Table writes |
| Serial.FaithfulElsewhereIff | src/table/file.rs:504-521 | A delta that does what its log of row writes says over some rows does so over others if and only if the two agree at every logged key that the delta does not touch |
| WellFormed.StepMeets | src/persistence.rs:105-171 | Every step keeps any condition on the rows of all stores that its own write meets, the rows a merge has yet to write included |
| WellFormed.SnapshotDisjoint | src/persistence.rs:74-90 | Every delta that any transaction reads is disjoint |
| Restore.RestoreFrom | src/btree/file.rs:378-425 | Builds the replacement beside the collection and installs it; a refusal or a failed write leaves the collection, and what was pending, as they were |
| Restore.BuildRestored | src/btree/file.rs:410-420 | The new delta inserts the source rows and marks every other row that the committed deltas show as deleted |
| Restore.RestoreShows | src/btree/file.rs:229-247 | A restored delta shows exactly the source contents and is disjoint |
| Restore.RestoreOutcomeSays | src/btree/file.rs:378-425 | A restoration succeeds exactly when its transaction may write and the deltas up to it merge within the budget; the refusal of a transaction that may not write comes first, and any refusal changes nothing |
| Restore.RestoredShows | src/btree/file.rs:378-425 | A restoration that succeeds shows its transaction the source contents and changes no other delta and no other view |
| Restore.RestoreIsFaithful | src/btree/file.rs:378-425 | A restoration does what replacing the whole collection does, so it takes part in serial equivalence |
| Restore.RestoreIsExact | src/table/file.rs:366-408 | Afterwards the caller sees the source contents, no other transaction's view has changed, and commit and finalize at that id make the canonical rows the source contents |
| Restore.RestoreCopyIsStable | src/btree/file.rs:405-414 | Canonical rows copied key by key while a finalize of earlier ids merges, with the captured deltas applied over them, are the rows that the restoration replaces, so the restored delta does not depend on the interleaving |
| Versions.FinalizeShows | src/persistence.rs:137-171 | A finalize without errors leaves in the canonical rows what the deltas up to its cutoff showed |
| BTreeFile.InsertRow | src/btree/file.rs:515-531 | Succeeds exactly when the transaction has not been committed and no finalize has covered it; then the transaction sees what it saw and the key, a disjoint delta stays disjoint, and no other delta, store or view changes; otherwise nothing changes |
| BTreeFile.DeleteRow | src/btree/file.rs:533-548 | The same, and the transaction sees what it saw without the key |
| BTreeFile.WrittenShows | src/btree/file.rs:249-259 | Writing a key adds it to, or takes it out of, what its transaction sees, keeps a disjoint delta disjoint and changes no other view; a refused write changes nothing |
| BTreeFile.WriteIsStep | src/btree/file.rs:515-548 | An insert or a delete is a write step of the runs that are serially equivalent: the step leads to the state that the method leaves and logs what was asked for |
| BTreeFile.LayerShows | src/btree/file.rs:470-484 | Difference with a delta's deletes and then merge with its inserts turns a stream of the rows below into the stream of the rows the delta shows, in any bounds and either direction |
| BTreeFile.Keys | src/btree/file.rs:450-488 | A scan lists exactly the keys that are visible in the snapshot and whose first column is within the bounds, each once, in increasing order of keys, or in reverse in decreasing order |
| BTreeFile.ReverseKeysAreBackwards | src/btree/file.rs:45-52 | The keys of a range in reverse are the keys of the range read backwards |
| BTreeFile.IsRowVisible | src/btree/file.rs:720-746 | A point lookup finds a key if and only if it is visible in the snapshot |
| BTreeFile.ReachableKeysAreKeys | src/btree/file.rs:378-548 | In every state that inserts, deletes, restorations and lifecycle steps reach, every transaction reads keys without values, as scans assume |
| BTreeFile.RestoreFrom | src/btree/file.rs:378-425 | On success the transaction sees exactly what the source shows at the same id, and no other delta or view changes |
| BTreeFile.RestoreIsStep | src/btree/file.rs:378-425 | A restoration under its reservation is a write step of the runs that are serially equivalent |
| BTreeFile.MixedRunIsSerial | src/btree/file.rs:378-548 | Over every run of BTree writes and restorations in which only the restorations are reserved, every transaction at the cutoff or above sees the serial replay |
| BTreeView.MaxLowerBound | src/collection.rs:159-179 | A value is above the joined lower bound if and only if it is above both |
| BTreeView.MinUpperBound | src/collection.rs:181-201 | A value is below the joined upper bound if and only if it is below both |
| BTreeView.ChainIsIntersection | src/collection.rs:117-127 | The range of a view after any chain of slices holds exactly the keys within every slice of the chain |
| TableScan.MergeIntoEnumerates | src/table/file.rs:205-228 | Over rows that the order tells apart by key, merging a delta into a stream gives the ordered stream of the filtered rows with the delta's filtered inserts added and deletes removed; on ties the delta's row is kept |
| TableScan.MergeIntoYields | src/table/file.rs:205-228 | In any order without ties, merging a delta yields its inserts and the rows that share no rank with them, less the rows that share a rank with its deletes |
| TableScan.ScanRows | src/table/file.rs:605-635 | For any range, order and direction a scan is the fold of the native streams delta by delta, in order of the named columns, or of the keys when none is named, and in reverse the other way round; when no store holds two rows of one rank in the range it is strictly so, and lists exactly the rows that some level offers and nothing overrides by rank |
| TableScan.ScanIsOrdered | src/table/file.rs:64-80 | Of two rows of a scan the later one is never less in the first named column in which they differ, in reverse never greater; without ties, and in key order always, the order is strict |
| TableScan.ReverseScanIsBackwards | src/table/file.rs:26-81 | When no store holds two rows of one rank, a scan in reverse is the scan in the same order read backwards |
| TableScan.FoldKeeps | src/table/file.rs:620-631 | When no store holds two rows of one rank, the fold is strictly ordered and holds exactly the rows kept by rank |
| TableScan.FoldByRank | src/table/file.rs:620-631 | In any order, ties included, the fold is ordered, and of each rank it yields what the rows of that rank alone decide: every delta puts its inserts in place of as many rows, and its markers take as many off the front |
| TableScan.TiedScanIsExactIff | src/table/file.rs:605-635 | In any order, ties included, a scan lists each visible row of the range once and nothing else if and only if each rank does |
| TableScan.CurrentIsVisible | src/table/file.rs:842-869 | The rows that some level offers and no later delta touches by key are exactly the rows visible in the range |
| TableScan.OrderedScanIsExactIff | src/table/file.rs:605-635 | Over any range and in any order in which no store holds two rows of one rank, a scan shows exactly the visible rows in the range if and only if every offered row is overridden by rank exactly when a later delta touches its key |
| TableScan.KeyedScanEnumerates | src/table/file.rs:44-46 | In an order that tells keys apart, as natural order does, a scan lists the fold of the filtered stores by key |
| TableScan.NaturalIsKeyed | src/table/file.rs:44-46 | Natural order tells keys apart on any set of rows |
| TableScan.SharedOrderDropsRows | src/table/file.rs:44-51 | Of two visible rows in different stores that share the ordered column, a scan in that order yields one |
| TableScan.ChangedOrderShowsReplacedRow | src/table/file.rs:183-187 | A row whose ordered column has been updated is listed twice, as it was and as it is |
| TableScan.SharedOrderMarkerDropsRow | src/table/file.rs:221-227 | The marker of a deleted row removes from an ordered scan another, visible row that shares the ordered column |
| TableScan.ResolveRow | src/table/file.rs:842-869 | A point lookup returns exactly the row of its key that is visible in the snapshot, if there is one |
| TableScan.ScanAgreesAt | src/table/file.rs:620-631 | Key by key, a scan over any range yields what the lookup finds in the range if and only if the key is not stale in it |
| TableScan.ScanIsExactIffNoneStale | src/table/file.rs:205-228 | A scan over any range shows exactly the visible rows in it if and only if no key is stale: offered by one level in the range and later touched by deltas only outside it |
| TableScan.KeyRangeScanIsExact | src/table/file.rs:605-635 | Over ranges of key columns no key is ever stale, so scans and lookups agree |
| TableScan.ValueRangeCanBeStale | src/table/file.rs:183-187 | Over a range of a value column a scan can show a row that the transaction has replaced |
| TableFile.UpsertRow | src/table/file.rs:410-436 | Invalid for a wrong number of columns and refused when the transaction may not write; otherwise the transaction sees what it saw with the row in place, and no other delta or view changes |
| TableFile.InsertRow | src/table/file.rs:438-475 | Refuses exactly the keys already visible to the transaction, and otherwise upserts |
| TableFile.DeleteRow | src/table/file.rs:477-524 | Refused for a wrong number of key columns or when the transaction may not write; otherwise the transaction sees what it saw without the key, and no other delta or view changes |
| TableFile.UpsertedShows | src/table/file.rs:410-436 | An upsert puts the row into what its transaction sees, keeps a disjoint delta disjoint and changes no other view; a refused one changes nothing |
| TableFile.DeletedShows | src/table/file.rs:477-524 | A delete takes the key out of what its transaction sees and changes no other view; it marks the key if and only if the transaction saw a row under it, and the marker holds that row |
| TableFile.OperationIsStep | src/table/file.rs:410-787 | Each Table operation under its reservation is a write step of the runs that are serially equivalent: the step leads to the state that the method leaves and logs what was asked for |
| TableFile.ReadRow | src/table/file.rs:526-534 | Reads the row of a key as the transaction sees it |
| TableFile.DeleteIsFaithful | src/table/file.rs:477-524 | A delete removes the key from what its transaction sees, with or without a marker, touches no other key and keeps the delta disjoint |
| TableFile.UpsertIsFaithful | src/table/file.rs:183-187 | An upsert puts the row into what its transaction sees, touches no other key and keeps the delta disjoint |
| TableFile.UpdateRange | src/table/file.rs:674-733 | Succeeds exactly when only value columns are named and the transaction may write; then every scanned row is put with its named columns set and the others as scanned, and nothing else changes; if no key is stale in the range, these are exactly the visible rows in it |
| TableFile.UpdatedShows | src/table/file.rs:674-733 | The same of the state as a value, column by column |
| TableFile.UpdateIsFaithful | src/table/file.rs:716-730 | Upserting the updated visible rows of a range does to the view of its transaction what updating the range does, and keeps the delta disjoint |
| TableFile.TruncateRange | src/table/file.rs:742-787 | Succeeds exactly when the transaction may write; then every scanned key is gone from what it sees and marked with the scanned row, and nothing else changes; if no key is stale in the range, these are exactly the visible rows in it |
| TableFile.TruncatedShows | src/table/file.rs:742-787 | The same of the state as a value, markers included |
| TableFile.PullAndWrite | src/table/file.rs:716-730 | Pulling rows in key order from the very delta that is being written, each key written only once it has been pulled, ends with the delta that writing a finished scan gives, for updates and truncations, and every delta on the way is disjoint |
| TableFile.TruncateIsFaithful | src/table/file.rs:772-784 | Deleting scanned rows does to the view of its transaction what truncating the range does if and only if, of the visible rows, exactly those in the range were scanned |
| TableFile.UpdateIsExact | src/table/file.rs:674-733 | Over key columns exactly the visible rows in the range have their named columns set to the new values, and every other column, row, delta and view is unchanged |
| TableFile.TruncateIsExact | src/table/file.rs:742-787 | Over key columns exactly the visible rows in the range vanish, and every other row, delta and view is unchanged |
| TableFile.UpdateIsExactIffNoneStale | src/table/file.rs:674-733 | Over any range, value columns included, every possible update has its exact effect if and only if no key is stale in the range |
| TableFile.TruncateIsExactIffNoneStale | src/table/file.rs:742-787 | Over any range, value columns included, a truncation removes exactly the visible rows in it if and only if no visible key is stale in the range |
| Versions.PendingIsPrivate | TRANSACTIONAL_COLLECTION_CONTRACT.md:62-64 | Writing one transaction's delta changes no other transaction's view |
| TableFile.RestoreFrom | src/table/file.rs:366-408 | On success the transaction sees exactly what the source shows at the same id, and no other delta or view changes |
| TableFile.FullScanIsExact | src/table/file.rs:398 | A scan without a range shows every visible row |
| TableFile.TableOpIsFaithful | src/table/file.rs:410-787 | Every upsert, delete, restoration, and range update or truncation in whose range nothing is stale does, over the rows its transaction sees, what was asked for |
| TableFile.TableOperationsAreSerial | src/table/file.rs:410-787 | Over every run of Table operations reserved by key or, for range operations and restorations, on the whole table, every transaction at the cutoff or above sees the serial replay of what was asked for; ranges are of key columns, or have nothing stale in them |
| TableFile.ReachableIsSound | src/table/file.rs:410-787 | In every state that such a run reaches, every transaction reads disjoint deltas and keys of the schema's length, as exact range operations assume |
| TableFile.UnreservedDeleteIsNotSerial | src/table/file.rs:484-521 | The reservation is needed: without it a delete of an absent key is not serial, as the later commit of an earlier insert shows through it |
| TableView.RewriteLocal | src/table/view.rs:293-343 | For any range, value columns included, exactly the rows originally in it have their named columns set once, or vanish; every other column and row is unchanged |
| TableView.UpdateLocal | src/table/view.rs:267-283 | Refuses key columns, and otherwise sets the named columns of exactly the rows originally in the range |
| TableView.RewriteEffect | src/table/view.rs:313-340 | Writing staged rows back over the table has the rewrite's exact effect |
| TableSchemas.ResolveColumns | src/table/schema.rs:149-158 | Succeeds exactly when every named column exists, and then gives their definitions in order; otherwise names a missing one |
| TableSchemas.New | src/table/schema.rs:123-173 | Succeeds exactly when there is a key and every index names only the table's columns; the schema's indices are the named columns followed by the key |
| TableSchemas.BuildableSays | src/table/schema.rs:123-173 | A schema can be built if and only if its key is not empty and every column that a request names is one of its own |
| TableSchemas.SchemaIs | src/table/schema.rs:123-173 | A built schema holds the names of the key and of the values, one index over all columns and one for each request over the columns it names and then the key, each with the type of the last column of its name and the storage asked for |
| TableSchemas.StripUndoesAppend | src/table/schema.rs:437-449 | Stripping the trailing key columns of an index gives back the columns asked for, even when there were none |
| TableSchemas.EncodesArguments | src/table/schema.rs:407-453 | The encoding of a built schema holds exactly the arguments it was built from |
| TableSchemas.EncodingIs | src/table/schema.rs:407-453 | An encoding is the pair of the key and the value columns, each a pair of a name and a type, and of the indices, each a pair of a name and the names of the columns asked for |
| TableSchemas.EncodeRoundTrip | src/table/schema.rs:351-370 | Decoding the encoding of any built schema with legal names gives it back with default storage; it gives back the same schema if and only if the storage was the default of 4096 and 64 |
| TableSchemas.EncodingDistinguishes | src/table/file.rs:385-391 | Two built schemas have the same encoding if and only if they differ at most in storage, which is what restoration compares |
| TableSchemas.DecodesExactly | src/table/schema.rs:334-370 | A value decodes if and only if it is castable, its key is not empty, every column name parses and its indices name only its own columns |
| TableSchemas.CastableWithoutKey | src/table/schema.rs:335-349 | A schema value without a key is castable and does not decode |
| TableSchemas.CastableWithIllegalName | src/table/schema.rs:455-479 | A schema value with a column name that does not parse is castable and does not decode |
| MixedRadix.UnravelRoundTrip | src/tensor/core.rs:661-694 | For every index below the product of a shape the unravelled coordinate is in bounds and its offset is the index |
| MixedRadix.OffsetRoundTrip | src/tensor/core.rs:676-694 | For every coordinate in bounds the offset is below the product of the shape and unravels to the coordinate |
| MixedRadix.OffsetOrders | src/tensor/core.rs:676-694 | Offsets are row-major: the coordinate that is less in the first axis in which two differ has the lower offset |
| MixedRadix.UnravelIndex | src/tensor/core.rs:661-674 | Division from the last axis computes the digits of the index below the product |
| MixedRadix.CoordOffset | src/tensor/core.rs:676-717 | Succeeds exactly on coordinates in bounds, with their offset; otherwise names the last axis out of bounds |
| MixedRadix.Strides | src/tensor/core.rs:719-729 | Each stride is the product of the later dimensions |
| MixedRadix.CoordFromOffset | src/tensor/core.rs:731-744 | Division by strides from the first axis gives the same coordinate as unravelling, and no stride is zero |
| MixedRadix.StridesGiveOffset | src/tensor/core.rs:746-752 | Summing coordinates times strides gives the mixed-radix offset |
| Broadcast.FillBroadcastShape | src/tensor/core.rs:604-637 | Filling from the right computes the joined shape, or refuses incompatible shapes |
| Broadcast.PushBroadcastShape | src/tensor/add.rs:46-72 | Pushing and then reversing computes the same shape and the same refusals; so does the copy for matmul batches |
| Broadcast.BroadcastShapeIsLeast | src/tensor/core.rs:592-637 | Two shapes join exactly when some shape can hold both, both broadcast to the result, and the result broadcasts to every such shape |
| Broadcast.BroadcastsAxiswise | src/tensor/core.rs:592-602 | A shape broadcasts to another if and only if it has no more axes and each, aligned at the last, is of size 1 or the same |
| Broadcast.JoinsAxiswise | src/tensor/core.rs:604-637 | Two shapes join if and only if, aligned at the last axis, the dimensions that both have are equal or one of them is 1 |
| Broadcast.JoinedAxiswise | src/tensor/core.rs:604-637 | The joined shape has the rank of the longer one, and each of its dimensions is that of an operand, of which the other there is the same or 1 |
| Broadcast.ProjectIndex | src/tensor/core.rs:639-659 | Refuses a source of higher rank and otherwise projects the coordinate |
| Broadcast.ProjectInShape | src/tensor/core.rs:639-659 | The projection of a coordinate in bounds is in bounds of any shape that broadcasts to it |
| Broadcast.SourceOffsetReads | src/tensor/core.rs:639-659 | A coordinate of the target reads the source element at the coordinate aligned at the last axis, with 0 in every axis of size 1 |
| Broadcast.ReadOffset | src/tensor/core.rs:266-268 | Unravelling, projecting and flattening an index in bounds never fails and gives its source offset |
| Broadcast.BroadcastTensor | src/tensor/core.rs:252-273 | Succeeds exactly on shapes the source broadcasts to; every element is the one at its source offset |
| Broadcast.BroadcastCells | src/tensor/core.rs:252-273 | Broadcasting keeps the element type and holds at every coordinate the source element that the coordinate reads |
| Broadcast.BinarySucceeds | src/tensor/core.rs:487-515 | A binary operation succeeds exactly on shapes that join, with a known operator unless there is nothing to compute; floats keep their type, and whole-number operands give whole numbers exactly when every result is one |
| Broadcast.BinaryCells | src/tensor/core.rs:501-510 | At every coordinate a sum, difference, product, conjunction, disjunction or exclusive disjunction is that of the two elements that the coordinate reads |
| Broadcast.BroadcastAddCells | src/tensor/add.rs:5-44 | Addition succeeds exactly on floats of one type whose shapes join; the sum has that type and the joined shape, and at every coordinate it is the left element plus the right one that the coordinate reads |
| Broadcast.BroadcastAddIsBinary | src/tensor/add.rs:22-44 | Materializing both operands and adding equals adding through projected indices: same values, shape, element type and refusals |
| Accumulate.MaxIsGreatest | src/tensor/core.rs:390-391 | The maximum and the minimum are elements of the sequence and bound all of it |
| Accumulate.SumSplits | src/tensor/core.rs:383-405 | A sum is that of its parts, of one element that element, and of none zero |
| Accumulate.ProductSplits | src/tensor/core.rs:383-405 | A product is that of its parts, of one element that element, and of none one |
| Accumulate.ReduceSays | src/tensor/core.rs:383-405 | The reductions are the greatest and the least element, the sum, the product and the root of the sum of squares; no elements and no known operation are refused, in this order |
| Accumulate.MeanSays | src/tensor/core.rs:392-399 | The mean times the number of elements is their sum, and the squared deviation times that number is the sum of the squared differences from the mean |
| Accumulate.AccumHolds | src/tensor/core.rs:766-784 | After any non-empty sequence the accumulator holds its count, sum, sum of squares, product, minimum and maximum |
| Accumulate.VarianceIsMeanDeviation | src/tensor/core.rs:797-802 | The mean square minus the squared mean is the mean squared deviation, and is never negative, so the clamp changes nothing |
| Accumulate.OnePassIsReduce | src/tensor/core.rs:383-405 | The accumulator gives what the two-pass definitions give, for every operation and every sequence, the empty one included |
| Reduce.KeepdimsIsReshape | src/tensor/core.rs:430-468 | Keeping or dropping the reduced axes gives the same number of elements and lands every element at the same offset |
| Reduce.KeptAxiswise | src/tensor/core.rs:430-460 | With kept axes the output has size 1 in the reduced axes and the dimensions of the input in the others, and an element keeps its place in the others |
| Reduce.DroppedAxiswise | src/tensor/core.rs:436-442 | With dropped axes the output has exactly the dimensions of the other axes, in their order |
| Reduce.LandsWhereItAgrees | src/tensor/core.rs:453-472 | An element lands at a place if and only if it agrees with it in every axis that is not reduced |
| Reduce.FiberSays | src/tensor/core.rs:453-472 | The elements gathered at an offset are exactly those that land there, in input order |
| Reduce.EveryOffsetIsHit | src/tensor/core.rs:452-472 | Every output offset is the landing of some input element |
| Reduce.Gather | src/tensor/core.rs:452-472 | Each accumulator holds exactly the elements that land on it, in input order, and every landing is in bounds |
| Reduce.ReductionPartitions | src/tensor/core.rs:452-477 | Every output place receives an element, and the places and the values are the same with and without kept axes |
| Reduce.FibersPartition | src/tensor/core.rs:452-472 | Summing weighted values by place and then by element equals summing them element by element |
| Reduce.SumIsConserved | src/tensor/core.rs:407-485 | A sum over any axes holds the total of each place, and the totals add up to the sum of the tensor |
| Reduce.ReduceAxes | src/tensor/core.rs:407-485 | Succeeds exactly on non-empty tensors, axes that the tensor has and known operations; each output element is the two-pass reduction of the elements that land on it, and over no named axes it is the scalar reduction of all elements |
| Reduce.ReducesUnless | src/tensor/core.rs:417-428 | An empty tensor is refused first, then the first axis that the tensor does not have, then an unknown operation, and nothing else |
| Reduce.ReducedShape | src/tensor/core.rs:430-442 | The shape of the result axis by axis, with and without kept axes; it is a scalar exactly when no axis is left |
| Reduce.ReducedCell | src/tensor/core.rs:452-477 | The value at a place is the reduction of exactly the elements whose coordinates agree with the place in every axis that is not reduced |
| Reduce.NoAxesIsAllAxes | src/tensor/core.rs:421 | Naming no axes is naming them all |
| Reduce.ReducesWhole | src/tensor/core.rs:407-485 | Over no named axes the result is the reduction of all elements, as a scalar, or with kept axes as the one element of a shape of ones |
| BroadcastReduce.BroadcastReduceAxes | src/tensor/broadcast_reduce.rs:39-73 | Succeeds exactly on shapes the input can be reduced to, with exactly the leading axes and those held at size one; no axes if and only if the shapes are equal |
| BroadcastReduce.LandingIsSource | src/tensor/broadcast_reduce.rs:5-37 | Reducing lands each element on the place that broadcasting copies it from |
| BroadcastReduce.BroadcastReduceSum | src/tensor/broadcast_reduce.rs:5-37 | Succeeds exactly on the shapes that broadcast to the input, an empty input only on its own; each element sums those that broadcasting copies from it |
| BroadcastReduce.ReducesToShape | src/tensor/broadcast_reduce.rs:5-73 | A reduction to a shape succeeds exactly on floats, to their own shape or, without empty axes, to a shape whose axes, aligned at the last, are of size 1 or the same; it keeps the element type |
| BroadcastReduce.ReduceIsAdjointOfBroadcast | src/tensor/broadcast_reduce.rs:5-73 | The inner product of a broadcast tensor with another equals that of the tensor with the other's reduction, for all shapes that broadcast and all elements |
| Matmul.FillProduct | src/tensor/matmul.rs:61-70 | Writes the product of two matrices held in larger operands in its place, and nothing before it |
| Matmul.MatmulTensor | src/tensor/core.rs:553-581 | Refuses other ranks and unequal inner dimensions, and otherwise computes the product, with every index in bounds |
| Matmul.MatmulIsRowByColumn | src/tensor/core.rs:566-577 | The element at a coordinate of a product is the sum of the left row times the right column that the coordinate names |
| Matmul.MatmulSays | src/tensor/core.rs:553-581 | A product succeeds exactly on two matrices with one inner dimension; it has the rows of the left and the columns of the right one, each element sums the products of a row and a column, and a float keeps its type |
| Matmul.BatchOffset | src/tensor/matmul.rs:116-148 | The running strides give the offset of the projected, unravelled batch index |
| Matmul.BatchedMatmul | src/tensor/matmul.rs:5-83 | Makes the code's checks in their order and fills every output batch, with every flat index in bounds |
| Matmul.BatchedSays | src/tensor/matmul.rs:5-83 | A batched product succeeds exactly on floats of one type with at least two axes, one inner dimension and batch axes that join; it keeps the type and has the joined batch axes, then rows and columns |
| Matmul.BatchedIsPerBatch | src/tensor/matmul.rs:54-71 | Every batch of a batched product is the two-dimensional product of the operand matrices that its index projects to |
| Transpose.ValidatePermutation | src/tensor/transpose.rs:25-50 | Accepts exactly the lists that mention every axis once |
| Transpose.DistinctAxesAreAll | src/tensor/transpose.rs:37-49 | As many distinct axes as there are axes are all the axes |
| Transpose.OutputShape | src/tensor/transpose.rs:17-23 | Succeeds exactly on permutations; the output shape permutes the dimensions and has the same number of elements |

## Left out

- Serial.Reserved: the reservation semaphore is foreign code; its purpose is a hypothesis on runs, and blocking, permits and their release are not part of this model.
- Lifecycle.Contract: concurrent misuse that the contract forbids (a commit at or below a cutoff during its finalize, writes racing their own commit) is a precondition, and readers below a cutoff are promised nothing.
- Lifecycle.Next: a write, a commit and a restoration are single steps; the code takes the state lock for each state change, and what a single caller does between two of them is not interleaved with others. Only a finalize is split.
- TableScan.ScanRows: how the foreign merge pairs rows that tie within one stream is an assumption; without such ties nothing rests on it.
- TableScan.KeyRangeScanIsExact: key columns only; `TableScan.ScanIsExactIffNoneStale` is the exact condition for every range.
- TableFile.UpdateIsExact: key columns only; `TableFile.UpdateIsExactIffNoneStale` is the exact condition for every range.
- TableFile.TruncateIsExact: key columns only; `TableFile.TruncateIsExactIffNoneStale` is the exact condition for every range.
- TableFile.UpdateRange: the rows to update are scanned before the first write to the delta, while the code pulls them as it writes; `TableFile.PullAndWrite` shows on values that the two agree. How a native stream behaves while its own file is written is foreign.
- TableFile.UpsertRow: of schema validation only the number of key and value columns is checked; value types are not modelled.
- TableFile.RestoreFrom: the schema comparison before a restoration is `TableSchemas.EncodingDistinguishes`; the BTree's, on arity and types, is not modelled. The merge budget covers the committed deltas, not the copying of the source rows.
- TableFile.TableOperationsAreSerial: a range of value columns is included when nothing is stale in it; `TableFile.UpdateIsExactIffNoneStale` and `TableFile.TruncateIsExactIffNoneStale` show that otherwise what is asked for is not what happens.
- Persistence.NativeStore: BTree and Table share one store, one delta and one owner class, where the code has a trait and two deltas. File layout, loading, saving and synchronization are foreign I/O.
- Persistence.CollectionOwner.PutPending: a Table delta's upsert also deletes the key from its inserts before it inserts the row, which changes nothing in a keyed map.
- BTreeFile.KeyRangeOf: bounds are on the first column of a key; keys have at least one column.
- Streams.Collator: order columns are positions in a row; the resolution of their names is not modelled.
- TableSchemas.Decode: a value type is known by its encoded form, and a string or a list is read only from a value of that kind; the foreign casts may accept more. The foreign cast of an index request is taken to test the names it parses.
- MixedRadix.CoordFromOffset: assumes that no dimension is zero; it is only called for the elements of a tensor, and a tensor with a zero dimension has none.
- Broadcast.Binary: division is left out, because division by zero has no real value.
- Broadcast.Tensor: elements are exact reals; floating-point rounding, the conversion through f64 and the overflow of machine indices are not modelled, so whole-number tensors keep their values exactly.
- Accumulate.ReduceAccum: a value that is replaced in the array of accumulators, where the code updates the fields of the array's element.
- Accumulate.OnePassIsReduce: square roots are left to their radicands, so norms and deviations are compared before the root is taken.
- Reduce.ReduceAxes: the element type of the result is not modelled.
- Transpose.OutputShape: the movement of the elements is done by a foreign library.
- Table views that limit, select or slice (src/table/view.rs:190-223, src/table/view.rs:345-527) and counting are not modelled. A nested Table slice overrides the columns it shares with the outer one, and `Selection.count` ignores an inherited limit.
- Slicing and casting of tensors, the conditional and negation (src/tensor/core.rs:149-250, src/tensor/core.rs:275-381, src/tensor/core.rs:517-551) would add easy members only.
- Route handlers, selectors, codecs, hashing and class paths are not modelled.
