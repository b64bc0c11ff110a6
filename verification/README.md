# Verification of rektifier

rektifier serves the DynamoDB API from Postgres: an item is a JSONB row, its keys are generated
columns, its secondary indexes are further columns. This project models the places where a fast or
online mechanism has to agree with a simple one, and proves that it does, or exactly when it does.

Postgres is abstract. A table is a map from key to payload and column values, where an absent column
is NULL. What Postgres leaves open (the rows of a LIMIT, the order of RETURNING, the iteration order of
a hash map, the collation of text) is a parameter or an arbitrary choice. WHERE is three-valued, by the
truth tables of section 8.12 of ISO/IEC 9075:1992.

Other transactions are parameters too, where the code meets them: writes before and inside each backfill
chunk and between index polls, the chunks of other indexes' workers, a changing table under the read-modify-write loop, a snapshot and a later
table under each one-statement update, arbitrary tables from page to page, and any interleaving of
UpdateTable requests and removal workers. BatchWriteItem, TransactWriteItems and a reconciler pass are
modelled alone on their tables.

| file | subject |
|---|---|
| Values, Storage | items, keys and their order, dual-written columns |
| GsiBackfill, GsiPreconditions, GsiLifecycle, GsiKeyTypes | online creation of a DualWrite index |
| Removal | removal of indexes and their columns |
| Expressions, ConditionSql | conditions: evaluator, classifier, compiler to SQL |
| Updates, UpdatePaths | UpdateItem: three one-statement paths and the read-modify-write loop |
| MultiWrite | BatchWriteItem and TransactWriteItems |
| KeyCondition, Pagination, QueryScan, IndexPagination | Query and Scan, on tables and on indexes |
| ConditionParser, ConditionPrinter, ConditionCursor | the ConditionExpression parser |
| CatalogRows, Sweeping, Reconciler | catalog rows and the reconciler |
| Retry | backoff and the retry loop |

Parser, compiler, loops and workers that change things in place appear twice: as functions that say
what they compute, and as methods with loops that are proved equal to those functions. The theorems
are about the functions; the methods inherit them.

Several promises turn out not to hold of the code on all inputs. Each item names the members that say
exactly when they do, and those that show an input on which they do not:

- A chunk whose selected rows are all deleted while its statement waits reports zero rows, and the
  backfill ends early (`ZeroRowChunkExactlySafe`; `LostChunkReachesActive`, for every chunk size).
- The backfill cursor compares keys as text. All chunks, and all runs, are safe exactly when no full chunk
  hides a later key (`TextCursorExactlySafe`, `CursorExactlySafe`; `OutOfOrderKeySkipped`,
  `HiddenKeyReachesActive`). Under code-point order that is exactly when no key column is N
  (`KeyTypesExactlySafe`, `DatabaseRunsExactlySafe`; `NumberTableReachesActive`, for every chunk size); S keys
  are safe under every collation (`TextTableRunsStaySafe`).
- Creation keeps the state row of an earlier index of the same name, with its cursor and its columns, and
  the backfill tests only the first column for NULL (`CreateExactlySafe`). Re-created on another column, an
  index reaches active on the old one (`StaleSpecsReachActive`, `RecreatedOnAnotherColumn`); created over a
  column another index has not finished filling, it reaches active with that column NULL
  (`HalfFilledRowReachesActive`).
- The build is skipped when a Postgres index by the derived name exists, and names that differ in case or
  punctuation derive the same one (`CreateExactlySafe`; `NamesCollide`, `TakenNameReachesActive`).
- Another index's worker that fills the shared first column takes rows out of the backfill's sight
  (`RefillExactlyHarmless`; `SharedFirstColumnReachesActive`).
- The upsert and insert-only statements ignore REMOVE on a missing row (`UpsertRefinesExactly`,
  `InsertOnlyRefinesExactly`; `UpsertKeepsRemoved`, `InsertOnlyKeepsRemoved`). The upsert reports the old item
  of its snapshot, not of the row it replaced (`UpsertRefinesExactly`; `UpsertMissesOldItem`). So does the
  conditional statement, which also never inserts (`ConditionalRefines`; `ConditionalReportsSnapshot`,
  `ConditionalMissesInsert`).
- WHERE and the evaluator part where binary64 or the collation ranks differently
  (`RankingExactlyAgrees`; `CollapsedDoublesDiverge`, `FirstCollapsedDouble`, `CollationDiverges`) and under
  NOT over a missing attribute (`NegatedComparisonExactlyAgrees`; `MissingAttributeIsDropped`).
- A key condition written value first loses its orientation (`LoweringPreservesMeaningExactly`;
  `SwappedOrderingMisreads`).
- A returned cursor is refused when the row spells its N partition key differently from the query
  (`CursorAcceptedExactly`; `OtherSpellingIsRefused`).
- Pages of an index resume after the last sort value, so rows that tie with it are lost
  (`IndexPagingExactlyComplete`; `SecondOfTwoIsSkipped`).
- BatchWriteItem runs puts before deletes (`BatchReorderingExactlyInvisible`). The translator rejects a
  repeated key by its spelling, so this shows exactly on tables with a number key
  (`AcceptedBatchesReorderExactly`; `SpelledTwiceSlipsThrough`).
- `not BETWEEN` and `not IN` read as negations (`ParserInvertsPrinterExactly`; `BareNotIsLost`).
- One UpdateTable that deletes two Generated indexes sharing a column leaves the column behind
  (`OrphanExactlyWhenShared`; `SharedColumnIsLeftBehind`, `TierIsLeftBehind`).
- The snapshot of a pass that changed an index flag still shows the old flag to the dispatch layer
  (`ViewMatchesExactly`; `FirstSnapshotCanBeStale`).

## Model

| member | source | states |
|---|---|---|
| `Storage.RewrittenConsistent` | crates/rekt-storage-libpq/src/shape.rs:21-84 | a write through a shape leaves every dual-written column equal to what the new payload extracts to |
| `GsiBackfill.WritersLeaveConsistentOrUntouched` | crates/rekt-storage-libpq/src/shape.rs:21-84 | after any sequence of puts and deletes a row is up to date or is exactly the row that was there before |
| `GsiBackfill.ChunkKeepsRowsInv` | crates/rekt-gsi/src/backfill.rs:206-351 | for any writes committing inside the statement and any returned key taken as cursor, each row stays up to date, or NULL in its first column and beyond the cursor, if no full chunk can hide a later key |
| `GsiBackfill.ZeroRowChunkMeansDone` | crates/rekt-gsi/src/backfill.rs:62-99 | a chunk that touched nothing means every row is up to date, if nothing stale lay outside its selection |
| `GsiBackfill.ShortChunkTakesAll` | crates/rekt-gsi/src/backfill.rs:282-299 | a chunk that did not fill its limit selected everything stale |
| `GsiBackfill.ZeroRowChunkExactlySafe` | crates/rekt-gsi/src/backfill.rs:206-351 | a selection may be lost to concurrent deletes harmlessly, for all interleavings, if and only if no stale row lies outside it |
| `GsiBackfill.ChunkMakesProgress` | crates/rekt-gsi/src/backfill.rs:206-351 | a non-empty chunk moves the cursor strictly forward and, if no row is inserted, leaves strictly fewer rows beyond it |
| `GsiBackfill.QuietChunkShrinksPending` | crates/rekt-gsi/src/backfill.rs:206-299 | with no write inside the statement the NULL rows beyond the cursor strictly decrease, also those whose extraction stays NULL |
| `GsiPreconditions.TextCursorExactlySafe` | crates/rekt-gsi/src/backfill.rs:243-309 | for every chunk size, all chunks keep the row invariant if and only if no full chunk has a key whose text order puts a later key behind it |
| `GsiPreconditions.OutOfOrderKeySkipped` | crates/rekt-gsi/src/backfill.rs:243-309 | whenever a full chunk hides a later key, there is a table on which that key's row stays stale and no later chunk can select it |
| `GsiLifecycle.EveryReachableStateIsSafe` | crates/rekt-gsi/src/lib.rs:160-240 | over all runs with writers, other indexes' workers, failures, crashes and restarts: no committed state is declared or adding_column, in indexing or active every row's columns equal the extraction from its payload, and an active index and its state row are on its own columns |
| `GsiLifecycle.CreateExactlySafe` | crates/rekt-gsi/src/lib.rs:73-140 | for the columns, the filled ones among them, the state row and the Postgres index creation finds, every run on every table contents these allow is safe if and only if the worker cannot start, or it goes by the index's own columns, no index on others has its name, and the columns are all filled, or no cursor is left over and the first column is new or the only one not filled |
| `GsiLifecycle.TakenNameReachesActive` | crates/rekt-gsi/src/index.rs:99-135 | with a Postgres index of that name on other columns, the run reaches active and serves that one |
| `GsiPreconditions.NamesCollide` | crates/rekt-ddl/src/naming.rs:26-55 | two index names of one table that derive the same Postgres name |
| `GsiLifecycle.CursorExactlySafe` | crates/rekt-gsi/src/backfill.rs:243-309 | every run from creation on new columns is safe if and only if no full chunk can hide a later key of the table |
| `GsiLifecycle.HiddenKeyReachesActive` | crates/rekt-gsi/src/backfill.rs:62-99 | whenever a full chunk can hide a key, a run reaches active with that key's row stale |
| `GsiKeyTypes.DatabaseOrdersAreTotal` | crates/rekt-gsi/src/backfill.rs:243-309 | on the keys one table can hold, ORDER BY and the text comparison are both total orders, for every key type and collation |
| `GsiKeyTypes.KeyTypesExactlySafe` | crates/rekt-gsi/src/backfill.rs:255-309 | under code-point order no full chunk can hide a later key if and only if no key column is N |
| `GsiKeyTypes.DatabaseRunsExactlySafe` | crates/rekt-gsi/src/backfill.rs:243-309 | at those orders every run from creation on new columns is safe if and only if no key column is N |
| `GsiKeyTypes.TextTableRunsStaySafe` | crates/rekt-gsi/src/backfill.rs:243-309 | with S keys, under every collation, every run from every safe creation is safe |
| `GsiKeyTypes.NumberTableReachesActive` | crates/rekt-gsi/src/backfill.rs:243-309 | with an N key column, for every chunk size and every collation that sorts 9 after the powers of ten, a run reaches active with a stale row |
| `GsiKeyTypes.HexKeepsOrder` | crates/rekt-gsi/src/backfill.rs:255-309 | the hex text of B keys sorts by code points as the bytes do |
| `GsiLifecycle.StaleSpecsReachActive` | crates/rekt-gsi/src/state.rs:173-188 | with a leftover state row that names other, existing columns, the run reaches active with the index on those and the rows untouched |
| `GsiLifecycle.RecreatedOnAnotherColumn` | crates/rekt-gsi/src/backfill.rs:58-60 | an index removed while its column was shared and re-created on a new column: active, with the new column NULL in an old row that has the attribute |
| `GsiLifecycle.HalfFilledRowReachesActive` | crates/rekt-gsi/src/backfill.rs:211-281 | an index on [a, b] created while the index on b has not finished: a row filled in a only is never selected, and active leaves its b NULL |
| `GsiLifecycle.SharedFirstColumnReachesActive` | crates/rekt-gsi/src/backfill.rs:211-281 | an index on [a, b] created safely, whose row the worker of a later index on [a] reaches first: active with b NULL |
| `GsiLifecycle.RefillExactlyHarmless` | crates/rekt-gsi/src/backfill.rs:211-351 | a chunk of another index's worker keeps the row invariant if and only if no row it takes out of sight is left stale |
| `GsiLifecycle.NextKeepsInv` | crates/rekt-gsi/src/index.rs:69-190 | every step of worker, writer, other worker, crash or restart keeps the inductive invariant, persisted cursor included |
| `GsiLifecycle.MostEventsAreHarmless` | crates/rekt-gsi/src/backfill.rs:211-351 | a chunk that was not full, or inside which no delete committed, meets the condition of the safety theorem, and so does another index that lacks the first column or has all of them |
| `GsiLifecycle.LookupByColumnsIsLookupByPayload` | crates/rekt-gsi/src/index.rs:174-198 | a lookup by column values selects exactly the rows that filtering payloads selects |
| `GsiLifecycle.LostChunkReachesActive` | crates/rekt-gsi/src/backfill.rs:62-99 | for every chunk size, a safe creation and a run that reaches active with a row its columns do not describe, because deletes emptied a full chunk |
| `GsiLifecycle.ChunkExists` | crates/rekt-gsi/src/backfill.rs:211-281 | the chunk SELECT has an answer on every table and cursor |
| `GsiLifecycle.Orchestrator.CreateDualWriteGsiInTx` | crates/rekt-gsi/src/lib.rs:73-140 | the three phase writes commit as one step from no phase to backfilling, with an existing state row kept |
| `GsiLifecycle.Orchestrator.RunChunk` | crates/rekt-gsi/src/backfill.rs:211-351 | the transaction is one chunk step on the columns the state row names: rows, persisted cursor and in-memory cursor move together |
| `GsiLifecycle.Orchestrator.RunBackfill` | crates/rekt-gsi/src/backfill.rs:38-109 | the loop ends for every finite schedule of writes, keeps the resumable invariant through a fault, fails at once on a missing column, and leaves every row up to date in the stored columns unless its last chunk was a full one lost to deletes with something stale outside |
| `GsiLifecycle.Orchestrator.RunIndexCreation` | crates/rekt-gsi/src/index.rs:54-198 | active only after a successful build, a valid poll and a successful promotion, with the index on the stored columns or the one that was there; a database error leaves indexing, other failures failed; other phases are refused; consistency is kept |
| `GsiLifecycle.Orchestrator.RunLifecycleToActive` | crates/rekt-gsi/src/lib.rs:160-182 | from any state a crash may leave, unless the backfill ended on such a loss, the worker ends safe and resumable; active means every row up to date and the index on its own columns, also when the failed phase cannot be written; without deletes inside chunks there is no such loss |
| `Removal.EveryRunKeepsNamedColumns` | crates/rekt-gsi/src/remove.rs:84-205 | over all runs of requests, workers (stale and several per index included), crashes and lifecycle writes, every column named by the base key, an LSI or a remaining GSI exists, and a gone index is not in the row |
| `Removal.UpdateKeepsColumns` | crates/rekt-ddl/src/lib.rs:557-660 | a request that deletes and creates any indexes leaves every named column in place |
| `Removal.WorkerDropsExactly` | crates/rekt-gsi/src/remove.rs:149-185 | a column of the removed index survives if and only if something else still names it, and no other column changes |
| `Removal.OrphanExactlyWhenShared` | crates/rekt-ddl/src/lib.rs:565-598 | the synchronous path leaves a nameless column behind if and only if the request deletes two Generated indexes that share it |
| `Removal.SharedColumnIsLeftBehind` | crates/rekt-ddl/src/lib.rs:565-598 | any two Generated indexes with a column of their own in common: deleting both in one accepted request leaves it |
| `Removal.TierIsLeftBehind` | crates/rekt-ddl/src/lib.rs:565-598 | one such table and request |
| `Removal.BuildReferencedColumns` | crates/rekt-gsi/src/remove.rs:217-238 | the loops collect exactly the columns of base key, LSIs and siblings |
| `Removal.RefcountReferencedColumns` | crates/rekt-gsi/src/remove.rs:240-273 | the loop collects exactly the columns in use by anything but the removed index |
| `Removal.DeriveOwnedColumns` | crates/rekt-gsi/src/remove.rs:275-294 | the loop collects exactly the removed index's columns, over all its entries |
| `Removal.Worker.RunRemovalToGone` | crates/rekt-gsi/src/remove.rs:84-205 | from either removing phase the worker reaches gone with exactly the unshared columns dropped; a failed index drop reports failed; other phases are refused unchanged |
| `Removal.Worker.RunUpdateTable` | crates/rekt-ddl/src/lib.rs:431-660 | refused requests change nothing; accepted ones apply deletes against the cached row, the merged list and the creates, in that order |
| `Removal.Worker.ApplyDeletes` | crates/rekt-ddl/src/lib.rs:557-598 | the loop drops exactly what each Generated delete may drop and moves each DualWrite delete to removing_index |
| `Removal.Worker.DropGeneratedGsi` | crates/rekt-gsi/src/remove.rs:22-64 | drops exactly the index's columns that no sibling, LSI or base key names |
| `ConditionSql.CompilesExactlyWhenClassified` | crates/rekt-translator/src/classify.rs:32-64 | for every condition with name-headed paths, compilation succeeds if and only if the classifier says it fits SQL |
| `ConditionSql.CompilingAppendsAligned` | crates/rekt-storage-libpq/src/condition_sql.rs:19-64 | compiling any condition only appends parameters and keeps parameters and types the same length |
| `ConditionSql.CompiledFragmentMeansCondition` | crates/rekt-storage-libpq/src/condition_sql.rs:73-199 | whatever is bound later, the emitted fragment evaluates to the condition's three-valued meaning |
| `ConditionSql.WhereRefinesEvaluator` | crates/rekt-storage-libpq/src/condition_sql.rs:73-210 | where operands rank alike, WHERE true implies the condition, WHERE false its negation, and the two agree if every comparison under an odd number of NOTs reads attributes that are there; NOT-free conditions always agree |
| `ConditionSql.CertainWithoutNot` | crates/rekt-storage-libpq/src/condition_sql.rs:112-126 | NOT-free conditions, and rows with every attribute read, meet that last condition |
| `ConditionSql.RankingExactlyAgrees` | crates/rekt-storage-libpq/src/condition_sql.rs:161-199 | the orderings of an attribute against a literal all match the evaluator, written either way round, if and only if the two values rank alike; for N and S, missing and wrong-typed attributes included |
| `ConditionSql.NegatedComparisonExactlyAgrees` | crates/rekt-storage-libpq/src/condition_sql.rs:86-126 | a negated comparison agrees with the evaluator if and only if the row has the attributes it reads, with the right type |
| `ConditionSql.MissingAttributeIsDropped` | crates/rekt-storage-libpq/src/condition_sql.rs:86-126 | `NOT x = :v` on a row without x: the evaluator keeps the row, WHERE drops it |
| `ConditionSql.CollapsedDoublesDiverge` | crates/rekt-translator/src/eval/condition.rs:194-240 | for every 4k between 2^53 and 2^54, with binary64 rounding, SQL accepts `a > 4k` on a row that stores 4k + 1 and the evaluator rejects it |
| `ConditionSql.FirstCollapsedDouble` | crates/rekt-translator/src/eval/condition.rs:194-240 | the same for 9007199254740993 and 9007199254740992 |
| `ConditionSql.CollationDiverges` | crates/rekt-translator/src/eval/condition.rs:194-240 | under a collation that sorts "a" before "B", SQL accepts `x < "B"` on a row with "a" and the evaluator rejects it |
| `ConditionSql.UncertainTreeCanMatch` | crates/rekt-storage-libpq/src/condition_sql.rs:73-126 | a condition that agrees on every row although a negated comparison in it may read a NULL |
| `ConditionSql.ParamBuilder.CompileTypedOrdering` | crates/rekt-storage-libpq/src/condition_sql.rs:161-199 | the builder grows exactly as the compiler function says, swapped operands included |
| `ConditionSql.ParamBuilder.CompileCondition` | crates/rekt-storage-libpq/src/condition_sql.rs:73-126 | the in-place compiler succeeds, emits and binds exactly as the compiler function |
| `Updates.UpsertRefinesExactly` | crates/rekt-storage-libpq/src/update.rs:161-241 | the upsert gives the table, old item and new item of the read-modify-write on the row it reached if and only if the row exists or no name is both SET and REMOVEd, and nobody changed the row since the statement's snapshot |
| `Updates.InsertOnlyRefinesExactly` | crates/rekt-storage-libpq/src/update.rs:246-276 | for `attribute_not_exists(pk)`, the insert equals the read-modify-write, failure included, if and only if the row exists or no name is both SET and REMOVEd |
| `Updates.ConditionalRefines` | crates/rekt-storage-libpq/src/update.rs:363-465 | on an existing row where WHERE and evaluator agree, the conditional statement equals the read-modify-write if and only if it fails or its old item is current; on a missing row if and only if the condition fails on no row |
| `Updates.UpsertKeepsRemoved` | crates/rekt-storage-libpq/src/update.rs:161-241 | `SET x REMOVE x` on a missing row: the upsert keeps x, the read-modify-write does not |
| `Updates.InsertOnlyKeepsRemoved` | crates/rekt-storage-libpq/src/update.rs:246-276 | the same under `attribute_not_exists(pk)` |
| `Updates.UpsertMissesOldItem` | crates/rekt-storage-libpq/src/update.rs:230-241 | a row inserted after the snapshot: the upsert updates it and reports no old item |
| `Updates.ConditionalMissesInsert` | crates/rekt-storage-libpq/src/update.rs:363-465 | `attribute_not_exists(x)` on a missing row: the conditional statement fails where the read-modify-write inserts |
| `Updates.ConditionalReportsSnapshot` | crates/rekt-storage-libpq/src/update.rs:363-465 | a row changed after the snapshot: the conditional statement returns the item from before that change |
| `Updates.RemoveNoopExactly` | crates/rekt-translator/src/materialize.rs:146-205 | on the item an INSERT writes, REMOVE changes nothing if and only if SET and REMOVE names are disjoint |
| `Updates.FastPathsKeepTable` | crates/rekt-storage-libpq/src/update.rs:161-465 | every fast path keeps rows under their own key and dual-written columns equal to the extraction |
| `Updates.SlowPathKeepsTable` | crates/rekt-storage-libpq/src/update.rs:531-613 | so does the read-modify-write under any condition |
| `UpdatePaths.ChainEvaluates` | crates/rekt-storage-libpq/src/update.rs:375-437 | for any SETs and REMOVEs and any later bindings, the nested expression evaluates to the old map plus SETs in order minus REMOVEs |
| `UpdatePaths.PlaceholderStable` | crates/rekt-storage-libpq/src/condition_sql.rs:19-64 | a placeholder keeps denoting the parameter and type bound for it |
| `UpdatePaths.ConditionalFragments` | crates/rekt-storage-libpq/src/update.rs:375-437 | SET/REMOVE chain and WHERE of one statement both mean what they stand for over the shared parameters |
| `UpdatePaths.MaterializeSimpleUpdate` | crates/rekt-translator/src/materialize.rs:26-205 | the loops yield the key attributes plus SETs as the item to insert, and the SETs and REMOVEs in order |
| `UpdatePaths.Backend.BuildUpdateSql` | crates/rekt-storage-libpq/src/update.rs:161-241 | the counters number the expression's placeholders as the parameters are bound |
| `UpdatePaths.Backend.UpdateSimpleRaw` | crates/rekt-storage-libpq/src/update.rs:283-345 | executing the built statement is the upsert on the latest row, with the old item of the snapshot |
| `UpdatePaths.Backend.BuildConditionalUpdate` | crates/rekt-storage-libpq/src/update.rs:375-437 | the classifier-divergence error is unreachable and both fragments evaluate correctly on every row |
| `UpdatePaths.Backend.UpdateWithSimpleConditionRaw` | crates/rekt-storage-libpq/src/update.rs:363-465 | executing the built statement is the conditional update: WHERE on the snapshot, again on what others left; a failure or a raised statement leaves the others' table |
| `UpdatePaths.Backend.UpdateGeneralRmwRaw` | crates/rekt-storage-libpq/src/update.rs:531-613 | against arbitrary other transactions every outcome is one atomic read-modify-write on a table they produced in the last iteration, a success on the table it writes to; a failure leaves theirs, exhaustion means every insert race was lost, and without deletes two of three iterations suffice |
| `UpdatePaths.Backend.PutWithConditionRaw` | crates/rekt-storage-libpq/src/put_delete.rs:137-204 | the same for conditional PutItem: the replaced row is the row the condition saw, on the table of the last iteration |
| `UpdatePaths.Backend.HandleUpdateItem` | crates/rekt-server/src/lib.rs:812-888 | against other transactions, wherever routing is faithful to the table decided on, no caller can tell which path served the update; for no condition and for `attribute_not_exists(pk)` only there; otherwise a fast path does exactly its statement, on the table it decides on; expressions that are not simple take the loop, with its guarantees |
| `UpdatePaths.FastPathsAreFaithful` | crates/rekt-server/src/lib.rs:812-888 | where its route is faithful, each fast path answers and leaves what the read-modify-write would |
| `MultiWrite.BatchReorderingExactlyInvisible` | crates/rekt-storage-libpq/src/batch_write.rs:63-99 | on every table, puts before deletes equals request order if and only if every put of a deleted key has a later delete of it |
| `MultiWrite.DistinctKeysHideReordering` | crates/rekt-storage-libpq/src/batch_write.rs:63-99 | for pairwise distinct keys the reordering is invisible |
| `MultiWrite.AcceptedBatchesReorderExactly` | crates/rekt-translator/src/translate.rs:543-570 | on every table, no accepted batch is reordered visibly if and only if no key attribute is a number |
| `MultiWrite.SpelledTwiceSlipsThrough` | crates/rekt-translator/src/translate.rs:543-570 | `Delete 1` and `Put 1.0` pass the duplicate check and come out turned round |
| `MultiWrite.BatchKeepsTable` | crates/rekt-storage-libpq/src/batch_write.rs:108-169 | a batch keeps every row under its key with dual-written columns up to date |
| `MultiWrite.FirstFailureIsUnique` | crates/rekt-storage-libpq/src/transact_write.rs:46-107 | at most one operation is the first to fail after its predecessors |
| `MultiWrite.Writer.BatchWriteRaw` | crates/rekt-storage-libpq/src/batch_write.rs:54-103 | wrong key shapes and doubled puts leave the table alone; otherwise all puts, then all deletes |
| `MultiWrite.TxWriter.TransactWriteRaw` | crates/rekt-storage-libpq/src/transact_write.rs:28-175 | success is the operations in request order over all their tables; cancellation leaves every table alone with one non-None slot among as many as the request has, at the first operation that fails |
| `KeyCondition.EscapedPrefixMatchesExactly` | crates/rekt-storage-libpq/src/query.rs:315-324 | for all strings, the escaped prefix and `%` under LIKE (section 8.5 of ISO/IEC 9075:1992) matches if and only if it is a prefix |
| `KeyCondition.EscapeLikeLoop` | crates/rekt-storage-libpq/src/query.rs:315-324 | the push loop computes that pattern |
| `KeyCondition.SkTermMeansBound` | crates/rekt-translator/src/key_condition.rs:117-230 | an accepted sort-key term with its path first holds of a key if and only if the lowered bound selects it |
| `KeyCondition.SwappedOrderingMisreads` | crates/rekt-translator/src/key_condition.rs:232-252 | every ordering written value first has a key on which condition and bound disagree |
| `KeyCondition.LoweringPreservesMeaningExactly` | crates/rekt-translator/src/key_condition.rs:33-252 | under every collation, for every accepted key condition the selected keys are those satisfying it if and only if no ordering is written value first |
| `Pagination.PagesAreStrictlyMonotone` | crates/rekt-storage-libpq/src/query.rs:169-263 | following the cursor, keys come back strictly in scan order over all pages, whatever is written in between |
| `Pagination.PagesMissNoStableKey` | crates/rekt-storage-libpq/src/query.rs:169-263 | a matching key present on every page is returned by the time a page has no cursor |
| `Pagination.StaticPagingIsTheSortedRange` | crates/rekt-storage-libpq/src/query.rs:169-263 | on a static table the pages are the sorted matching range, n / limit + 1 of them |
| `QueryScan.QueryPageIsKeysetPage` | crates/rekt-storage-libpq/src/query.rs:169-200 | comparing sort keys only, inside the partition, is resuming in the full key order, on hash-only tables too |
| `QueryScan.QueryPaginationIsExact` | crates/rekt-storage-libpq/src/query.rs:42-263 | both directions, every collation: no key twice, no stable key missed; on a static table the exact range, its filtered items in order over all pages, and the page count |
| `QueryScan.CollectedIsFilteredRange` | crates/rekt-storage-libpq/src/query.rs:205-263 | the items collected page by page are the filter of the whole key range |
| `QueryScan.ScanPaginationIsExact` | crates/rekt-storage-libpq/src/scan.rs:61-163 | the same for Scan's row-constructor cursor |
| `QueryScan.DecodePage` | crates/rekt-storage-libpq/src/query.rs:205-263 | the page holds the kept items in order, and its cursor is the last scanned key even when the filter drops that row |
| `QueryScan.QueryRaw` | crates/rekt-storage-libpq/src/query.rs:42-263 | a sort-key bound on a hash-only table is refused; otherwise the page is the scan's |
| `QueryScan.ScanRaw` | crates/rekt-storage-libpq/src/scan.rs:36-163 | the page is the scan's |
| `QueryScan.CursorAcceptedExactly` | crates/rekt-translator/src/paging.rs:22-120 | a returned cursor is accepted by the next request if and only if the row writes its partition key as the query does: always for S and B, not for N |
| `QueryScan.OtherSpellingIsRefused` | crates/rekt-translator/src/paging.rs:22-120 | a row stored under 1.0 is found by a query for 1 and its cursor refused |
| `IndexPagination.IndexPagingExactlyComplete` | crates/rekt-storage-libpq/src/query.rs:169-263 | on a static table, following an index's cursors returns every row of the partition if and only if no group of rows with one sort value lies across a multiple of the limit, whatever order ties come in |
| `IndexPagination.SeenIsInitial` | crates/rekt-storage-libpq/src/query.rs:169-263 | while no page leaves a tied row, the pages hold exactly the rows up to the last one's sort value |
| `IndexPagination.TiedRowIsLost` | crates/rekt-storage-libpq/src/query.rs:169-184 | a row that ties with the last of a page and is not on it is on no page |
| `IndexPagination.SortOrderIsWeak` | crates/rekt-translator/src/schema.rs:170-201 | the order of an index's sort column has the laws this rests on, also for an index without one |
| `IndexPagination.SecondOfTwoIsSkipped` | crates/rekt-storage-libpq/src/query.rs:169-184 | two rows with one sort value, one per page: the second never comes |
| `ConditionParser.NotExpr` | crates/rekt-expressions/src/parser.rs:343-350 | what it returns is expressible: no BETWEEN or IN over a bare `not` can come out of it |
| `ConditionParser.Parse` | crates/rekt-expressions/src/parser.rs:307-323 | every parsed condition is expressible |
| `ConditionPrinter.ParserInvertsPrinterExactly` | crates/rekt-expressions/src/parser.rs:235-510 | for every condition tree, printing with parentheses by precedence and parsing gives it back if and only if it is expressible |
| `ConditionPrinter.ParserRangeIsExpressible` | crates/rekt-expressions/src/parser.rs:307-510 | a tree is the parse of some text if and only if it is expressible |
| `ConditionPrinter.OrLevelInverts` | crates/rekt-expressions/src/parser.rs:325-350 | before any stop text, the printed condition is consumed exactly and left-associatively |
| `ConditionPrinter.NameIsNotACall` | crates/rekt-expressions/src/parser.rs:352-389 | a name that begins like a function name makes the call alternatives backtrack |
| `ConditionPrinter.BetweenTailInverts` | crates/rekt-expressions/src/parser.rs:406-418 | BETWEEN takes its own AND and leaves the next one to the connective |
| `ConditionPrinter.MoreItemsInvert` | crates/rekt-expressions/src/parser.rs:420-431 | an IN list of any length comes back |
| `ConditionPrinter.ContinuationsInvert` | crates/rekt-expressions/src/parser.rs:235-266 | a path of any length comes back, indices in decimal included |
| `ConditionPrinter.BareNotIsLost` | crates/rekt-expressions/src/parser.rs:343-350 | a tree of valid parts that its printed text does not parse back to |
| `ConditionCursor.Cursor.ParsePath` | crates/rekt-expressions/src/parser.rs:235-266 | the segment loop consumes and returns what the path function does |
| `ConditionCursor.Cursor.ParseInTail` | crates/rekt-expressions/src/parser.rs:420-431 | so does the IN list loop |
| `ConditionCursor.Cursor.ParseAnd` | crates/rekt-expressions/src/parser.rs:334-341 | so does the AND loop that rebuilds its left side |
| `ConditionCursor.Cursor.ParseOr` | crates/rekt-expressions/src/parser.rs:325-332 | so does the OR loop |
| `ConditionCursor.Cursor.ParseAtom` | crates/rekt-expressions/src/parser.rs:352-371 | alternatives are tried in order, each from the same place |
| `ConditionCursor.Cursor.ParseConditionExpression` | crates/rekt-expressions/src/parser.rs:307-323 | the entry returns exactly the parse of the whole input, or refuses it |
| `CatalogRows.SpecListsRoundTrip` | crates/rekt-catalog/src/metadata.rs:208-428 | writing any LSI or GSI list as JSON and reading it back is the identity |
| `CatalogRows.ReadAll` | crates/rekt-catalog/src/metadata.rs:232-428 | reading fails if and only if an element is malformed; none is dropped |
| `CatalogRows.ReadSpecs` | crates/rekt-catalog/src/metadata.rs:232-283 | the push loop reads exactly that |
| `Reconciler.SecondPassWritesNothing` | crates/rekt-catalog/src/reconciler.rs:145-256 | with the schema unchanged, a pass after an answered one writes nothing for the table |
| `Reconciler.SecondPassReturnsZero` | crates/rekt-catalog/src/reconciler.rs:129-256 | with every table answered and the schema unchanged, the next pass over the whole catalog loads every row, changes none and counts zero |
| `Reconciler.OthersAreSpared` | crates/rekt-catalog/src/reconciler.rs:147-176 | tables in transition and tables Postgres did not answer for keep row and entry |
| `Reconciler.WrittenRowReadsBack` | crates/rekt-catalog/src/reconciler.rs:180-197 | a written row reads back as the verdict, for any order of the GSI map |
| `Reconciler.IntrospectIsIdempotent` | crates/rekt-catalog/src/reconciler.rs:298-514 | a verdict depends on no stored flag |
| `Reconciler.ViewMatchesExactly` | crates/rekt-catalog/src/reconciler.rs:229-250 | the published view shows each index as the pass judged it if and only if the table is not the reconciler's, Postgres did not answer, or every stored flag already said what Postgres reports |
| `Reconciler.SecondSnapshotMatches` | crates/rekt-catalog/src/reconciler.rs:229-256 | from the second pass on the view matches |
| `Reconciler.FirstSnapshotCanBeStale` | crates/rekt-catalog/src/reconciler.rs:229-250 | a pass that publishes a serveable flag for an index it has just demoted |
| `Reconciler.DriftIsLocal` | crates/rekt-catalog/src/reconciler.rs:298-514 | schemas that agree on the base table give it the same verdict, and every index they agree on the same flags, whatever else drifts |
| `Sweeping.LoadSnapshot` | crates/rekt-catalog/src/metadata.rs:68-103 | every row is read, or the load fails, which it does if and only if a row is malformed |
| `Sweeping.Sweep` | crates/rekt-catalog/src/reconciler.rs:142-256 | the loop makes of every row and entry what it is judged to be and counts the writes; a failing write ends it with each row old or judged |
| `Reconciler.Catalog.ReconcileNow` | crates/rekt-catalog/src/reconciler.rs:129-256 | each row and entry becomes its verdict and the count is the number of rows written; a malformed row changes nothing; a failing UPDATE keeps the snapshot and the rows written before it |
| `Retry.BackoffWithinJitter` | crates/rekt-storage-libpq/src/retry.rs:121-140 | for every seed, attempt and jitter the delay is within p percent of the capped exponential, saturated steps included, or the arithmetic overflows, and exactly when; up to 100 percent the last `min` never binds |
| `Retry.CappedGrows` | crates/rekt-storage-libpq/src/retry.rs:126-130 | the delay before jitter never shrinks with the attempt and never exceeds the cap, saturation included |
| `Retry.WithRetry` | crates/rekt-storage-libpq/src/retry.rs:146-193 | at most max(1, max_attempts) calls, all but the last retryable failures, the last one's answer returned, given up only on success, a permanent error or an empty budget |

## Left out

- HTTP, authentication, configuration, load generation, response shaping and error names.
- SQL text, identifier quoting, statement caching and pooling: statements are abstract operations.
- Writes between the pages of an index query, and rows whose index sort column is NULL.
- The update-expression parser, and SET arithmetic, `if_not_exists`, `list_append`, ADD and DELETE: only simple SET and REMOVE have fast paths to compare.
- Parse error positions and messages: the parser model answers with a tree or with nothing.
- Unconditional and conditional DeleteItem outside a transaction: they would only add easy members.
- Concurrency around BatchWriteItem and TransactWriteItems: isolation is Postgres's; serialization failures appear as faults.
- DDL and reconciler writes computed from a catalog that is behind the row: requests and passes read the current row, so a pass that overwrites a change committed since its load is not modelled.
- Writers still using the shape from before ADD COLUMN, and a GENERATED column shared with a DualWrite index.
- Another index of the same derived Postgres name, created or removed once creation is past, and the hashed names of long identifiers.
- Two creation workers for one index: phase writes are unguarded, so one worker per index is assumed there. Removal workers may be many.
- Status and phase names, the wording of reasons beyond their parts, timestamps: flat strings.
- A number literal Postgres cannot cast makes a statement raise; the model reads a malformed stored number as NULL.
- `Limit` 0, and request validation in general.
- The order of entries in gsi_specs: the merge sorts by name, the model keeps the row's order.
- DynamoDB's own order of S keys, which is that of their UTF-8 bytes: keys compare by the database's collation throughout, which is the same order only under a C collation.
- Retry.BackoffWithinJitter: an overflow of the last, unchecked multiplication or addition is an outcome of its own; what a build without overflow checks wraps to is not modelled.
- Updates.ConditionalRefines: on an existing row it asks that WHERE and evaluator agree by ranking and by the polarity of NOTs; no test short of evaluating both sides is exact for every tree, because atoms can cancel as in `UncertainTreeCanMatch`. Single comparisons and their negations have exact conditions.
- GsiLifecycle.EveryReachableStateIsSafe: asks that no chunk is lost that leaves something stale outside it and that no other index's worker hides a stale row; without either it is false. A chunk of another index's worker that commits inside this worker's statement counts as one right after it, which leaves the same rows.
- GsiLifecycle.CreateExactlySafe: asks that a stored column that exists is one the writers maintain, so that each row has it up to date or NULL, and that the index's attributes differ; a GENERATED column counts as missing, since the worker's statement raises on it.
- GsiLifecycle.Orchestrator.RunBackfill: only writers run beside it; other indexes' workers appear in the state machine.
- GsiKeyTypes.DatabaseRunsExactlySafe: asks that `numeric::text` shows distinct numbers differently and naturals in plain decimal; one number's text does not vary with its stored scale.
- MultiWrite.Writer.BatchWriteRaw: a put's key is the one its item extracts to, as the translator derives it.
- Reconciler.ViewMatchesExactly: assumes distinct LSI names in one table, as table creation enforces.
