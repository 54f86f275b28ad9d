# A verified model of an Iceberg table library

A Dafny model of the parts of an Apache Iceberg implementation in Rust whose correctness
does not show in any single run: predicate projection and pruning, the commit protocols of
two catalogs, nested schema projection, two caches, field numbering and three codecs.

- `Scalars`, `Expressions`, `HourRing`, `Projection`, `Pruning`: row predicates with
  three-valued truth, their rewriting into predicates over partition values, and the
  pruning of manifests and files. What a writer may have recorded includes what older
  writers left behind: months one too high, pre-epoch days and hours truncated toward
  zero, hour ids wrapped to 32 bits, arbitrary buckets.
- `SqlCommit`, `SqlCommitSafety`, `SqlInterleavings`, `SqlCatalog`, `SqlNamespaces`: the
  SQL catalog. The commit protocol is a step system in which every await point is a step boundary; the catalog
  classes are proved to follow it call by call.
- `Lru`, `DataCache`, `FooterLoad`, `MetadataCache`: the byte-range cache and the
  parsed-footer cache over one least-recently-used store.
- `ArrowTypes`, `ArrowArrays`, `NestedProjection`, `FieldIds`, `SchemaConversion`: Arrow
  types and columnar arrays, projection by field id, numbering of fields, and conversion
  between Iceberg and Arrow types.
- `Numerals`, `VersionNames`, `FileCatalog`: numbered metadata files committed by a copy
  that refuses to overwrite.
- `DecimalBytes`, `DeletionVectors`: minimal two's complement and the deletion-vector blob.

`dafny verify dfyconfig.toml` checks everything.

## What the code does that its documentation does not say

The model keeps each of these as it is. Each has a theorem with the exact condition under
which the code does meet the property; the table below says which steps of other calls may
come in between.

- The SQL catalog writes the version hint before it decides the swap, so the hint may name
  an orphan after a commit that loses, and even after one that wins (`HintNamesPointerIff`,
  `LosingCommitMovesHint`, `WinnersHintOverwritten`).
- A SQL commit whose updates move the table to another bucket stores its file in the old
  one (`PointedFileThereIff`, `CommittedFileReadableIff`, `BucketMoveStrandsTable`).
- Neither catalog decompresses metadata when loading, so a table with gzip metadata cannot
  be loaded; a load of the SQL catalog also fails if the file it is about to read ages out
  and is deleted under it (`LoadInProgressIff`, `SlowLoadFails`, and `LoadReadsListedIff`
  for the file catalog).
- In the file catalog two commits over one version both succeed if they differ in encoding
  or location (`RaceBothWinIff`, `EncodingRaceLosesUpdate`).
- Reserving ids stops at map entries marked as a variant while numbering goes on inside
  them, so a fresh id may collide (`CollidesIff`, `ExposedIff`,
  `VariantEntriesCollide`).
- Numbering looks for free ids only above the last id visited, so it can fail with free
  ids left below (`NumberingSucceedsIff`, `LargestIdExhausts`).
- A pre-epoch microsecond midnight as an upper bound on a day partition projects to one id
  more than any matching row can have (`OrderedExactIff`, `PreEpochMidnightImprecise`).


## Model

| member | source | states |
|---|---|---|
| Expressions.EvalDependsOnRefs | datafusion_iceberg/src/pruning_statistics.rs:466-474 | an expression is true or false of two rows alike when they agree on the columns it names, which is what lets an identity-only subexpression be reused unchanged on partition values |
| Expressions.PruneSound | datafusion_iceberg/src/pruning_statistics.rs:201-251 | if the statistics admit a row and the predicate is true of it, the evaluation over minimum, maximum, null count and row count keeps the container; unknown statistics rule nothing out |
| Expressions.RangeCheckSound | datafusion_iceberg/src/pruning_statistics.rs:279-329 | the check of one comparison against minimum and maximum never answers no while some admitted value satisfies it |
| HourRing.HourWindowDefined | datafusion_iceberg/src/pruning_statistics.rs:640-652 | for every 64-bit literal, both units and every supported operator no step of the window overflows and a window exists; for other operators none does |
| HourRing.HourWindowCovers | datafusion_iceberg/src/pruning_statistics.rs:640-649 | the floored and the truncated-toward-zero hour of every timestamp satisfying the comparison both lie in the window |
| HourRing.HourWindowTight | datafusion_iceberg/src/pruning_statistics.rs:640-649 | and every hour of the window is the floored hour, or one past it, of some timestamp satisfying the comparison weakened to include its bound |
| HourRing.TruncatedVsFloor | datafusion_iceberg/src/pruning_statistics.rs:574-594 | truncation toward zero gives the floored id, or one more exactly for a negative value off the grid |
| HourRing.WrappedIdUnique | datafusion_iceberg/src/pruning_statistics.rs:654-657 | a wrapped id is the only 32-bit number congruent to the hour |
| HourRing.ArcExact | datafusion_iceberg/src/pruning_statistics.rs:650-679 | for a window short of a full turn, an id passes the emitted test if and only if it is the wrap of some hour in the window |
| HourRing.FullTurn | datafusion_iceberg/src/pruning_statistics.rs:650-652 | a longer window contains an hour for every id, so giving no predicate loses nothing |
| HourRing.ArcMisses | datafusion_iceberg/src/pruning_statistics.rs:650-652 | a shorter window misses some id, so giving up later would lose pruning |
| Projection.HourPredicateMeaning | datafusion_iceberg/src/pruning_statistics.rs:631-680 | the emitted hour predicate is true of a partition value exactly when the id is the wrap of an hour in the window |
| Projection.HourAbsentIffFullTurn | datafusion_iceberg/src/pruning_statistics.rs:650-652 | for a supported operator no hour predicate is emitted if and only if the window reaches every id |
| Projection.HourSound | datafusion_iceberg/src/pruning_statistics.rs:541-552 | every id a writer may have recorded for a matching timestamp passes the hour predicate |
| Projection.FoldedSideCompares | datafusion_iceberg/src/pruning_statistics.rs:598-625 | folding a cast literal, including nanoseconds to microseconds, keeps the comparison with the column |
| Projection.TransformLiteralMeaning | datafusion_iceberg/src/pruning_statistics.rs:719-792 | the transformed literal evaluates to the partition id of the literal |
| Projection.OrderedComparisonMeaning | datafusion_iceberg/src/pruning_statistics.rs:553-596 | what the projected year, month, day or truncate comparison tests, the legacy windows of one extra id included |
| Projection.OrderedSound | datafusion_iceberg/src/pruning_statistics.rs:553-596 | every id a writer may have recorded for a matching value passes the projected comparison |
| Projection.ConjunctsAllKept | datafusion_iceberg/src/pruning_statistics.rs:449-463 | a conjunction projects if and only if some conjunct does, and onto the conjunction of everything that projects: nothing is given up |
| Projection.DisjunctsAllNeeded | datafusion_iceberg/src/pruning_statistics.rs:449-463 | a disjunction projects if and only if every disjunct does, and onto the disjunction of theirs |
| Projection.OrderedExact | datafusion_iceberg/src/pruning_statistics.rs:553-596 | a recorded id passes if and only if some value satisfying the weakened comparison may have been recorded with it, unless the literal is a pre-epoch midnight as the bound of Eq, Lt or LtEq |
| Projection.PreEpochMidnightImprecise | datafusion_iceberg/src/pruning_statistics.rs:573-594 | every pre-epoch microsecond midnight on a day partition, as the bound of Eq, Lt or LtEq, lets a recordable id through that no matching value has |
| Projection.OrderedExactIff | datafusion_iceberg/src/pruning_statistics.rs:553-596 | the projected comparison is exact on all recorded ids if and only if its literal is not such a bound |
| Projection.ComparisonSound | datafusion_iceberg/src/pruning_statistics.rs:541-596 | the same soundness for every transform, bucket and void included |
| Projection.IdentityComparisonSound | datafusion_iceberg/src/pruning_statistics.rs:553-571 | an identity partition keeps the comparison exactly, without weakening it |
| Projection.BinarySound | datafusion_iceberg/src/pruning_statistics.rs:505-540 | a comparison written either way round, with its operator flipped and its literal folded, is projected soundly |
| Projection.NullCheckSound | datafusion_iceberg/src/pruning_statistics.rs:476-503 | null checks move to the partition column, for every transform but void |
| Projection.IdentityOnlySound | datafusion_iceberg/src/pruning_statistics.rs:466-474 | an expression over identity columns only is as true of the partition values as of the row |
| Projection.ProjectionSound | datafusion_iceberg/src/pruning_statistics.rs:444-596 | inclusive projection: if a row makes the predicate true and the partition values are any that a current or legacy writer may record for it, the projected predicate is true of them; And may drop a side, Or may not |
| Pruning.FiltersSound | datafusion_iceberg/src/table/mod.rs:812-900 | the projected conjunction of all filters is true of the recorded partition values of a row that satisfies every filter |
| Pruning.CastKeepsOrder | iceberg-rust-spec/src/spec/values.rs:865-939 | values of one type keep their order when read as another, temporal conversions included |
| Pruning.CastBoundsAdmit | datafusion_iceberg/src/pruning_statistics.rs:279-329 | stored bounds that are true of the value as written are, once cast, true of the value as read |
| Pruning.ManifestAdmits | datafusion_iceberg/src/pruning_statistics.rs:72-153 | manifest summaries that are true as stored admit, once cast, every partition tuple of the manifest |
| Pruning.FileAdmits | datafusion_iceberg/src/pruning_statistics.rs:181-251 | a file's partition tuple and record count admit the tuple of each of its rows |
| Pruning.BoundsAdmitRow | datafusion_iceberg/src/pruning_statistics.rs:279-361 | column bounds that are true as stored admit, once cast to the current type, every row of the file |
| Pruning.OtherSpecUnknown | datafusion_iceberg/src/pruning_statistics.rs:83-153 | a container of another partition spec yields only unknown bounds and null counts |
| Pruning.UnknownKept | datafusion_iceberg/src/pruning_statistics.rs:444-596 | a projected predicate keeps a container of which nothing is known |
| Pruning.ManifestPruningSound | datafusion_iceberg/src/pruning_statistics.rs:72-153 | no data manifest with a matching row is dropped, whichever partition spec it was written under |
| Pruning.FilePruningSound | datafusion_iceberg/src/pruning_statistics.rs:181-361 | no data file with a matching row is dropped by its partition tuple or by its column bounds |
| Pruning.ScanLosesNoRow | datafusion_iceberg/src/table/mod.rs:812-900 | the three prunings in a row keep every live data file that holds a row satisfying every filter |
| SqlCommit.StepKeepsCore | catalogs/iceberg-sql-catalog/src/lib.rs:957-1053 | each atomic step of any call keeps metadata files immutable, cached entries published, drafts unreachable and everything reachable in the store |
| SqlCommit.StepKeepsInv | catalogs/iceberg-sql-catalog/src/lib.rs:957-1157 | the same together with the history of successes, for tables, views and materialized views |
| SqlCommit.RunKeepsInv | catalogs/iceberg-sql-catalog/src/lib.rs:957-1157 | over whole runs |
| SqlCommit.DraftSplits | catalogs/iceberg-sql-catalog/src/lib.rs:992-1018 | rolling the log forward loses no entry: old log plus superseded file is expired entries plus new log |
| SqlCommit.ExpiredUnreachable | catalogs/iceberg-sql-catalog/src/lib.rs:1007-1039 | a file that ages out of a winning commit's log is reachable from no pointer |
| SqlCommit.ReachablePublished | catalogs/iceberg-sql-catalog/src/lib.rs:285-312 | only files a pointer was moved to are ever reachable |
| SqlCommitSafety.NoLostUpdate | catalogs/iceberg-sql-catalog/src/lib.rs:957-1053 | in every interleaving the successes form one chain per table, each its updates applied to the metadata it superseded with its requirements checked there, and the pointer is at the end of the chain |
| SqlCommitSafety.OnlyWinnersVisible | catalogs/iceberg-sql-catalog/src/lib.rs:1023-1043 | a metadata file becomes visible only after its writer won its swap |
| SqlCommitSafety.LosingSwapInvisible | catalogs/iceberg-sql-catalog/src/lib.rs:277-312 | a lost swap forgets the stale cache entry and changes nothing else; its file stays unreachable |
| SqlCommitSafety.ReclamationSafe | catalogs/iceberg-sql-catalog/src/lib.rs:986-1039 | whatever slow deletions are still under way, the file a pointer names and every file in its log are in the store they were put into |
| SqlCommitSafety.LogIsRecentHistory | catalogs/iceberg-sql-catalog/src/lib.rs:1000-1018 | a table's metadata log is the latest part of the chain of files it superseded |
| SqlCommitSafety.LogBoundedAndRecent | catalogs/iceberg-sql-catalog/src/lib.rs:994-1018 | in every run a table's log is the latest part of the chain of superseded files, at most `previous-versions-max` long, and, when every commit since the creation carries the same cap, as long as the chain or the cap, whichever is less: which fixes the log exactly |
| SqlCommitSafety.LogLengthUnderCap | catalogs/iceberg-sql-catalog/src/lib.rs:1000-1018 | under one cap the log is as long as the chain of superseded files, up to the cap |
| SqlCommitSafety.CommitsKeepUpToCap | catalogs/iceberg-sql-catalog/src/lib.rs:1000-1018 | in every run, caps changing or not, each commit leaves one entry more than it found, or as many as its cap where that is less |
| SqlCommitSafety.HintNamesPointerIffWon | iceberg-rust/src/object_store/store.rs:69-92 | of a commit call nothing interrupts: the version hint, written before the swap, names the table's pointer exactly when the swap is won |
| SqlInterleavings.HintNamesPointerIff | catalogs/iceberg-sql-catalog/src/lib.rs:1020-1032 | over every interleaving: after a won swap the hint names the pointer if and only if the hint write went through and no other call rewrote that hint before the swap; and after a hint write that went through and was not rewritten, it does so if and only if the swap is won |
| SqlInterleavings.WinnersHintOverwritten | catalogs/iceberg-sql-catalog/src/lib.rs:1020-1032 | two overlapping commits of which the first wins while the hint names the file of the second |
| SqlInterleavings.LosersHintCorrect | catalogs/iceberg-sql-catalog/src/lib.rs:1020-1032 | two overlapping commits of which one loses and the hint still names the pointer |
| SqlCommitSafety.LosingCommitMovesHint | catalogs/iceberg-sql-catalog/src/lib.rs:1020-1032 | two overlapping commits after which the hint names a file no pointer names |
| SqlCommitSafety.CommittedFileReadableIff | catalogs/iceberg-sql-catalog/src/lib.rs:973-1032 | after a winning commit the table row names a stored file if and only if the updates kept the bucket |
| SqlCommitSafety.BucketMoveStrandsTable | catalogs/iceberg-sql-catalog/src/lib.rs:973-1032 | one commit that moves a table to another bucket leaves a pointer to a file that is not there |
| SqlCommitSafety.PointerHomeIff | catalogs/iceberg-sql-catalog/src/lib.rs:973-1032 | a pointer names the store its file was put into if and only if the call that moved it kept the bucket |
| SqlCommitSafety.LoadSucceedsIff | catalogs/iceberg-sql-catalog/src/lib.rs:781-829 | of a load nothing interrupts: it gets through if and only if the metadata is uncompressed and the last commit kept the bucket |
| SqlInterleavings.PointedFileThereIff | catalogs/iceberg-sql-catalog/src/lib.rs:973-1043 | over every run: the file a table row names is where the row says if and only if the call that last moved the row kept the bucket, and it holds the current metadata |
| SqlInterleavings.LoadInProgressIff | catalogs/iceberg-sql-catalog/src/lib.rs:781-829 | over every interleaving: a load gets through if and only if the metadata is uncompressed, the commit that wrote it kept the bucket and the file was not deleted as aged out after the row was read; it then has the metadata current at that reading |
| SqlInterleavings.DeletedUnderLoadUnreachable | catalogs/iceberg-sql-catalog/src/lib.rs:781-829 | a file deleted under a load is by then reachable from no pointer |
| SqlInterleavings.SlowLoadFails | catalogs/iceberg-sql-catalog/src/lib.rs:781-829 | a run in which a load that meets both other conditions has its file deleted under it |
| SqlInterleavings.FileAfterRun | catalogs/iceberg-sql-catalog/src/lib.rs:1034-1039 | a published file goes only by being deleted as aged out, and never comes back |
| SqlCommitSafety.CreatedTableReached | catalogs/iceberg-sql-catalog/src/lib.rs:834-866 | the run of a table creation and the state it ends in |
| SqlCatalog.SqlCatalog.SwapMetadataLocation | catalogs/iceberg-sql-catalog/src/lib.rs:285-312 | moves the pointer exactly when it still names the expected file, and otherwise reports a conflict and forgets the cached entry |
| SqlCatalog.SqlCatalog.DraftTable | catalogs/iceberg-sql-catalog/src/lib.rs:973-1018 | requirements, updates, log entry and ageing out, in place, equal to the specified draft |
| SqlCatalog.SqlCatalog.DeleteExpiredFiles | catalogs/iceberg-sql-catalog/src/lib.rs:1034-1039 | the loop deletes exactly the aged-out files |
| SqlCatalog.SqlCatalog.PutMetadata | iceberg-rust/src/object_store/store.rs:49-92 | stores the file and, if that succeeds, points the version hint at it |
| SqlCatalog.SqlCatalog.CommitDraft | catalogs/iceberg-sql-catalog/src/lib.rs:1020-1053 | wins exactly when the pointer still is the cached one |
| SqlCatalog.SqlCatalog.UpdateTable | catalogs/iceberg-sql-catalog/src/lib.rs:957-1053 | a commit call run alone is a run of protocol steps; it succeeds exactly when the history grows by one |
| SqlCatalog.SqlCatalog.DraftView | catalogs/iceberg-sql-catalog/src/lib.rs:1069-1090 | requirements and updates of a view or materialized view, whose log stays as it is |
| SqlCatalog.SqlCatalog.UpdateView | catalogs/iceberg-sql-catalog/src/lib.rs:1055-1157 | the same for views and materialized views, which keep no log and reclaim nothing |
| SqlCatalog.SqlCatalog.LoadTabular | catalogs/iceberg-sql-catalog/src/lib.rs:781-829 | a load run alone, its result and exactly when it succeeds |
| SqlCatalog.SqlCatalog.InsertTabularReference | catalogs/iceberg-sql-catalog/src/lib.rs:157-175 | enters a pointer unless the primary key is taken |
| SqlCatalog.SqlCatalog.CreateTable | catalogs/iceberg-sql-catalog/src/lib.rs:834-866 | a creation run alone; it succeeds exactly when no such table existed |
| SqlCatalog.SqlCatalog.DropTable | catalogs/iceberg-sql-catalog/src/lib.rs:772-774 | a drop is one protocol step |
| SqlCatalog.WinningRun | catalogs/iceberg-sql-catalog/src/lib.rs:957-1053 | the whole effect of a commit call that wins |
| SqlCatalog.LosingRun | catalogs/iceberg-sql-catalog/src/lib.rs:957-1053 | the whole effect of one that loses: an orphan file, perhaps its hint, one cache entry less |
| SqlNamespaces.CreateRefines | catalogs/iceberg-sql-catalog/src/lib.rs:446-490 | on any state where the name is not a legacy one, creating is insert-if-absent on the plain map |
| SqlNamespaces.CreateRefinesIff | catalogs/iceberg-sql-catalog/src/lib.rs:446-490 | the creating transaction is insert-if-absent if and only if the name is not a legacy one |
| SqlNamespaces.UpdateRefines | catalogs/iceberg-sql-catalog/src/lib.rs:567-687 | updating is remove-then-upsert on the visible properties, for current, legacy and hidden-marker rows alike; the name stays |
| SqlNamespaces.DropRefines | catalogs/iceberg-sql-catalog/src/lib.rs:492-534 | dropping deletes the name |
| SqlNamespaces.RunRefines | catalogs/iceberg-sql-catalog/src/lib.rs:446-687 | over every interleaving of any number of clients, rows and reported outcomes are those of the plain map with atomic creates |
| SqlNamespaces.LegacyOnlyShrinks | catalogs/iceberg-sql-catalog/src/lib.rs:454-458 | no step of current code makes a namespace legacy, which is why the check before the creating transaction suffices |
| SqlNamespaces.NamespaceStays | catalogs/iceberg-sql-catalog/src/lib.rs:567-687 | a namespace exists until it is dropped, whatever is removed from it |
| SqlNamespaces.LegacyWriterRace | catalogs/iceberg-sql-catalog/src/lib.rs:454-468 | an older writer adding properties after the check makes a create report success on an existing namespace |
| SqlNamespaces.Database.Lock | catalogs/iceberg-sql-catalog/src/lib.rs:192-270 | current, legacy or missing, as one atomic read |
| SqlNamespaces.Database.CreateNamespace | catalogs/iceberg-sql-catalog/src/lib.rs:446-490 | the call is the plain create |
| SqlNamespaces.Database.LoadNamespace | catalogs/iceberg-sql-catalog/src/lib.rs:536-565 | the loop over joined rows returns the visible properties, and nothing for a missing namespace |
| SqlNamespaces.Database.UpdateNamespace | catalogs/iceberg-sql-catalog/src/lib.rs:567-687 | the call is the plain update |
| SqlNamespaces.Database.DropNamespace | catalogs/iceberg-sql-catalog/src/lib.rs:492-534 | the call is the plain delete, a missing namespace included |
| SqlNamespaces.Database.NamespaceExists | catalogs/iceberg-sql-catalog/src/lib.rs:689-704 | exactly the names of the plain map |
| Lru.InsertKeepsSound | datafusion_iceberg/src/parquet_data_cache.rs:67-87 | an insert keeps the running total within the cap, and equal to the sum of the live weights if and only if the new sum fits a machine word |
| Lru.SmallCapExact | datafusion_iceberg/src/parquet_metadata_cache.rs:201-221 | under a cap of at most half the address space the total is always exact |
| Lru.InsertSurvives | datafusion_iceberg/src/parquet_data_cache.rs:67-87 | an accepted entry survives its own insert |
| Lru.InsertEvictsShortestPrefix | datafusion_iceberg/src/parquet_metadata_cache.rs:201-221 | the evicted entries are the shortest least-recently-used prefix that makes the entry fit |
| Lru.TouchReorders | datafusion_iceberg/src/parquet_metadata_cache.rs:188-193 | a lookup reorders the entries and changes nothing else |
| Lru.TouchMovesLast | datafusion_iceberg/src/parquet_data_cache.rs:63-65 | a lookup makes its entry the most recently used and leaves the others in their order |
| Lru.HugeCapDrifts | datafusion_iceberg/src/parquet_data_cache.rs:76-80 | were the weights to pass a machine word, which no process can hold, the saturated total would fall short of them |
| DataCache.PutKeepsCorrect | datafusion_iceberg/src/parquet_data_cache.rs:67-87 | caching a right range leaves every cached range right |
| DataCache.DataCache.Get | datafusion_iceberg/src/parquet_data_cache.rs:63-65 | returns what is cached and makes it most recently used |
| DataCache.DataCache.Put | datafusion_iceberg/src/parquet_data_cache.rs:67-87 | the whole new state, eviction loop included, and its exact accounting |
| DataCache.DataCache.Read | datafusion_iceberg/src/parquet_data_cache.rs:89-144 | which reads fail and how; on success exactly the requested ranges in request order, hits and misses counted, hit and miss bytes adding up to the bytes returned; every cached range right in every case |
| DataCache.DataCache.StoreFetched | datafusion_iceberg/src/parquet_data_cache.rs:123-135 | a truncated reply is reported and leaves every cached range right |
| DataCache.ReadsTransparent | datafusion_iceberg/src/parquet_data_cache.rs:63-144 | over every interleaving of any number of reads, failed and abandoned ones included, a finished read holds exactly what it asked for, its hits and misses add up to the ranges asked for, its hit and miss bytes to the bytes returned, and every cached range is right |
| FooterLoad.LoadNeverWaits | datafusion_iceberg/src/parquet_metadata_cache.rs:410-452 | from any state a load is done after at most nine steps of its own, one of them its own fetch, whatever the others do or leave undone |
| FooterLoad.LoadsReturnOwnFooter | datafusion_iceberg/src/parquet_metadata_cache.rs:410-452 | over every interleaving a load returns a footer of the file and size it asked for |
| FooterLoad.QuiescentAccounting | datafusion_iceberg/src/parquet_metadata_cache.rs:321-381 | once all loads finish, in any interleaving, the latch is set if and only if more than 64 entries were evicted, added less evicted entries are the live ones, and no gate is held |
| FooterLoad.StepKeepsLatch | datafusion_iceberg/src/parquet_metadata_cache.rs:354-381 | the latch never clears, and past the threshold it is set or about to be |
| FooterLoad.EffectGates | datafusion_iceberg/src/parquet_metadata_cache.rs:388-435 | a step keeps its permit, takes a free gate or gives its permit back |
| FooterLoad.StepKeepsGates | datafusion_iceberg/src/parquet_metadata_cache.rs:388-435 | permits and held gates correspond one to one |
| FooterLoad.EffectBoundsGates | datafusion_iceberg/src/parquet_metadata_cache.rs:383-400 | the gate map stays within its cap |
| FooterLoad.TotalsExact | datafusion_iceberg/src/parquet_metadata_cache.rs:188-221 | under a cap of at most half the address space, the running total is exact in every interleaving |
| MetadataCache.AloneIsRun | datafusion_iceberg/src/parquet_metadata_cache.rs:410-452 | a load run without interruption is the run of its own protocol steps among any other readers |
| MetadataCache.AloneReturns | datafusion_iceberg/src/parquet_metadata_cache.rs:410-452 | it returns the cached footer if the size stamp matches, and otherwise what was fetched |
| MetadataCache.ByteCappedCache.Lookup | datafusion_iceberg/src/parquet_metadata_cache.rs:188-193 | a stale size stamp is a miss, and still touches the entry |
| MetadataCache.ByteCappedCache.Insert | datafusion_iceberg/src/parquet_metadata_cache.rs:201-221 | the whole new state and the number of entries evicted |
| MetadataCache.MetadataCache.InflightGate | datafusion_iceberg/src/parquet_metadata_cache.rs:388-400 | the gate of a key, created on first use |
| MetadataCache.MetadataCache.NoteEvictions | datafusion_iceberg/src/parquet_metadata_cache.rs:362-377 | counts evictions and sets the latch once they pass the threshold |
| MetadataCache.MetadataCache.Put | datafusion_iceberg/src/parquet_metadata_cache.rs:321-351 | insert, eviction count and latch together |
| MetadataCache.MetadataCache.Load | datafusion_iceberg/src/parquet_metadata_cache.rs:410-452 | the call is that run, and what it returns |
| FieldIds.NumberingSound | iceberg-rust-spec/src/arrow/schema.rs:278-407 | numbering keeps names, nullability, nesting and other metadata, keeps every id present, gives fresh ids that strictly increase above the starting index and avoid every reserved id, and ends with the index at or above every id visited |
| FieldIds.HandedOutIff | iceberg-rust-spec/src/arrow/schema.rs:385-407 | which ids numbering hands out, from any index and any reserved set, before it ends or fails: the free ones above the index for which enough fields without an id come before the first id that is not smaller |
| FieldIds.CollidesIff | iceberg-rust-spec/src/arrow/schema.rs:278-407 | index by index: numbering succeeds with a fresh id equal to one present if and only if the fields without an id fit and an id present is among those handed out |
| FieldIds.ExposedIff | iceberg-rust-spec/src/arrow/schema.rs:278-407 | over all indexes: an id present is handed out from some index if and only if the schema is exposed, that is, some id that was not reserved and is not the least one stands after a field without an id before which all ids are present and smaller |
| FieldIds.FreshIdsUnique | iceberg-rust-spec/src/arrow/schema.rs:313-407 | on a schema that is not exposed a fresh id differs from every other id of the result, visited earlier or later |
| FieldIds.PlainNotExposed | iceberg-rust-spec/src/arrow/schema.rs:286-311 | schemas without map entries marked as a variant are not exposed |
| FieldIds.SlotsReservedAll | iceberg-rust-spec/src/arrow/schema.rs:286-311 | every id that numbering keeps was reserved, on schemas where no numbered map marks its entries as a variant |
| FieldIds.NewColumnUniqueIff | iceberg-rust-spec/src/arrow/schema.rs:286-311 | a column put in front of a schema never collides, whatever the index, if and only if every kept id was reserved or is the least 32-bit number, which is never given out |
| FieldIds.VariantEntriesCollide | iceberg-rust-spec/src/arrow/schema.rs:296-311 | a schema on which a fresh id collides: the reserving pass stops at map entries marked as a variant, the numbering pass does not |
| FieldIds.NumberingSucceedsIff | iceberg-rust-spec/src/arrow/schema.rs:278-407 | numbering succeeds if and only if the fields without an id fit into the free ids above the starting index and, from each id present, those after it fit above that id |
| FieldIds.NumberingFails | iceberg-rust-spec/src/arrow/schema.rs:385-407 | when it fails, no id above the index it reached is free |
| FieldIds.NumberingSucceeds | iceberg-rust-spec/src/arrow/schema.rs:385-407 | success whenever there is room above every id in use |
| FieldIds.LargestIdExhausts | iceberg-rust-spec/src/arrow/schema.rs:385-407 | on any schema, the largest id visited before a field without one makes numbering fail, however many smaller ids are free |
| FieldIds.SecondPassIdentity | iceberg-rust-spec/src/arrow/schema.rs:278-383 | numbering what has been numbered changes nothing, from any index |
| FieldIds.AssignFieldsTracks | iceberg-rust-spec/src/arrow/schema.rs:313-383 | numbering the tree is numbering its visited fields in order |
| FieldIds.FieldNumbering.Reserve | iceberg-rust-spec/src/arrow/schema.rs:286-311 | the in-place traversal reserves exactly the ids found |
| FieldIds.FieldNumbering.Resolve | iceberg-rust-spec/src/arrow/schema.rs:385-407 | the search loop ends at the least free id above the index, or fails |
| FieldIds.FieldNumbering.NumberFields | iceberg-rust-spec/src/arrow/schema.rs:278-383 | the in-place traversal, its result and the state it leaves, failures included |
| SchemaConversion.SchemaRoundTrip | iceberg-rust-spec/src/arrow/schema.rs:65-112 | a schema survives conversion to Arrow and back if and only if every type in it does and no field has a doc or default |
| SchemaConversion.TypeRoundTrip | iceberg-rust-spec/src/arrow/schema.rs:114-266 | which types survive: no UUID, geometry, geography or unknown, in-range decimals and fixed lengths; nested types by their parts |
| SchemaConversion.FieldRoundTrip | iceberg-rust-spec/src/arrow/schema.rs:27-53 | a variant survives as the type of a field, through the field's metadata |
| SchemaConversion.PrimitiveRoundTrip | iceberg-rust-spec/src/arrow/schema.rs:119-151 | the same for primitive types, narrowing casts included |
| SchemaConversion.ImportedAllRoundTrip | iceberg-rust-spec/src/arrow/schema.rs:65-266 | every schema read from Arrow can be written back and read again unchanged |
| SchemaConversion.ConvertsAfterNumbering | iceberg-rust-spec/src/arrow/schema.rs:192-284 | once its fields are numbered, an Arrow schema converts if and only if its types are supported |
| DecimalBytes.I128ToBeBytesMin | iceberg-rust-spec/src/spec/decimal.rs:94-109 | the loop over the sixteen bytes yields the shortest two's complement of the value, and the only one of its length |
| DecimalBytes.DecimalToBeBytesMin | iceberg-rust-spec/src/spec/decimal.rs:58-84 | so does the invert-and-add-one encoder, for every decimal |
| DecimalBytes.AddOne | iceberg-rust-spec/src/spec/decimal.rs:65-74 | the carry loop adds one |
| DecimalBytes.EncodersAgree | iceberg-rust-spec/src/spec/decimal.rs:58-109 | both encoders give the same bytes for every i128 |
| DecimalBytes.ShortestByRange | iceberg-rust-spec/src/spec/decimal.rs:58-109 | a byte string whose value does not fit one byte less is the shortest for it |
| DecimalBytes.MantissaRoundTrip | iceberg-rust-spec/src/spec/decimal.rs:14-54 | extracting the mantissa inverts construction for every i128, the least one included |
| DecimalBytes.MantissaExact | iceberg-rust-spec/src/spec/decimal.rs:39-54 | extraction succeeds exactly on decimals whose unscaled value is an i128 |
| NestedProjection.ProjectionTyped | datafusion_iceberg/src/variant_schema_adapter.rs:418-637 | a result, where there is one, has exactly the target type and the input's length, and between containers of one kind the input's nulls |
| NestedProjection.BuildsIff | datafusion_iceberg/src/variant_schema_adapter.rs:418-466 | compiling is refused exactly where a required field has no source, a container child changed its id or a fixed-size list its width, at some matched level |
| NestedProjection.CompiledIsDirect | datafusion_iceberg/src/variant_schema_adapter.rs:418-637 | the compiled program computes, shortcuts included, what the types say column by column |
| NestedProjection.FieldByPath | datafusion_iceberg/src/variant_schema_adapter.rs:579-637 | a result column is the source column on the same path of field ids, projected, the very same where its type did not change, and all null where a field on the path is missing from the source; names and order play no part |
| NestedProjection.ProjectionTotal | datafusion_iceberg/src/variant_schema_adapter.rs:418-637 | if fields are added only as nullable, matched fields do not lose their nullability, and ids, widths and leaf types stay, the projection compiles, applies and keeps every row's nullness |
| NestedProjection.DirectSound | datafusion_iceberg/src/variant_schema_adapter.rs:468-537 | the result is an array its constructors accept |
| NestedProjection.ProjectionsCompose | datafusion_iceberg/src/variant_schema_adapter.rs:418-637 | projecting through a middle schema that keeps what the other two share is projecting straight to the target, refusals included |
| NestedProjection.RenameAndBack | datafusion_iceberg/src/variant_schema_adapter.rs:418-637 | a rename, a reorder or an addition of nullable fields compiles and applies, and so does the way back, which is the identity |
| NestedProjection.NullProjectsToNull | datafusion_iceberg/src/variant_schema_adapter.rs:617-637 | a column of nulls projects to the nulls of the target type |
| VersionNames.ParseOfVersionPath | catalogs/iceberg-file-catalog/src/lib.rs:783-814 | parsing a generated name gives its version, in either encoding |
| VersionNames.NextVersion | catalogs/iceberg-file-catalog/src/lib.rs:783-814 | the name generated from a previous one is that of the next version |
| VersionNames.ListedOfVersionPath | catalogs/iceberg-file-catalog/src/lib.rs:706-746 | a listing recognises generated names and reads the same version from them |
| VersionNames.VersionPathInjective | catalogs/iceberg-file-catalog/src/lib.rs:794-814 | location, version and encoding can be told from the name |
| FileCatalog.NoGapsNoLostUpdate | catalogs/iceberg-file-catalog/src/lib.rs:443-510 | over runs of any number of catalogs on one table versions have no gaps and each is one commit's update of the version before, with its requirements checked there |
| FileCatalog.StepKeepsInv | catalogs/iceberg-file-catalog/src/lib.rs:443-510 | what every step keeps |
| FileCatalog.WinnerIsOnNewest | catalogs/iceberg-file-catalog/src/lib.rs:475-492 | a copy finds its name free if and only if its draft is over the newest version |
| FileCatalog.ListingFindsNewest | catalogs/iceberg-file-catalog/src/lib.rs:693-747 | a listing finds the newest version and only that |
| FileCatalog.RaceBothWinIff | catalogs/iceberg-file-catalog/src/lib.rs:475-492 | of two commits over the same version both win if and only if they differ in location or encoding |
| FileCatalog.EncodingRaceLosesUpdate | catalogs/iceberg-file-catalog/src/lib.rs:475-492 | a run right after a creation in which two commits over the first version both succeed |
| FileCatalog.LoadReadsListedIff | catalogs/iceberg-file-catalog/src/lib.rs:274-314 | over every interleaving: a load lists the newest version and reads that version if and only if it is not compressed |
| FileCatalog.FileCatalog.MetadataLocation | catalogs/iceberg-file-catalog/src/lib.rs:706-747 | none if and only if there is no version file or there are several of which one has no number; a sole version file whatever its name; otherwise one no other exceeds |
| FileCatalog.FileCatalog.LoadTabular | catalogs/iceberg-file-catalog/src/lib.rs:274-314 | a load run alone: not found if and only if there is no newest file, otherwise unreadable if and only if the one picked is compressed, and what it leaves cached |
| FileCatalog.FileCatalog.UpdateTable | catalogs/iceberg-file-catalog/src/lib.rs:443-510 | a commit run alone: each outcome and the new state |
| DeletionVectors.DecodeInvertsEncode | iceberg-rust-spec/src/spec/deletion_vector.rs:51-86 | decoding inverts encoding for every directory whose blob a 32-bit length can describe |
| DeletionVectors.DecodedBlob | iceberg-rust-spec/src/spec/deletion_vector.rs:51-124 | only blobs laid out so decode: every byte accounted for, keys strictly increasing, each bitmap read from exactly its bytes |
| DeletionVectors.EntriesOfLayout | iceberg-rust-spec/src/spec/deletion_vector.rs:94-124 | entries are read back in order with the rest of the input untouched |
| DeletionVectors.DecodeRoaringDirectory | iceberg-rust-spec/src/spec/deletion_vector.rs:94-124 | the loop over a shrinking input, with the error of every malformed directory |
| DeletionVectors.Decode | iceberg-rust-spec/src/spec/deletion_vector.rs:51-86 | which blobs decode, and the error of every one that does not |

## Left out

- Calendar arithmetic: year and month are an arbitrary monotone function of the day, a parameter.
- Floating-point, decimal, binary and UUID scalars, and nested column types in predicates; typed nulls are one null value.
- DataFusion's own simplification and type coercion of predicates; `In`, `Between` and `Like` expressions beyond the fact that they are not projected.
- 16-bit literals under truncate, which no Iceberg source type produces.
- The lookup of a column by relation-qualified name; columns are plain names.
- Delete manifests and delete files: pruning is stated for data content, and statistics of other content only for being unknown.
- Statistics are assumed to be true, as stored, of the values as written (`ManifestDescribes`, `FileDescribes`, `BoundsDescribe`); a distinct-count estimator is not part of this model.
- Requirement checks and metadata updates are parameters of a commit; `iceberg-rust/src/catalog/commit.rs` is modelled only in that updates do not touch the metadata log.
- Random parts of file names are numbers or names that do not repeat.
- Object-store and database failures other than a missing file or a duplicate key: a call that fails so stops between two steps, which `Abort` covers; a failed hint or delete is a flag of the step.
- The two rows of a materialized view's creation, and its storage table.
- `register_table`, which may alias existing files, and renames.
- SQL dialects, pragmas, row locks and deadlock retries: a namespace transaction is one atomic step.
- Collation: two property keys the database would treat as equal are different here.
- `SqlNamespaces.CreateRefines` asks that the name is not legacy, which `CreateRefinesIff` shows to be exact; `RunRefines` shows it is not whenever the check before it passed, and `LegacyWriterRace` what happens with an older writer.
- `SqlNamespaces.Database.Lock` does not model the second look at the namespace's row after a property lookup that waited for a concurrent promotion: it is one atomic read.
- The panic of both catalogs on an uncached commit with an empty requirement list, which they index at its first entry (`catalogs/iceberg-sql-catalog/src/lib.rs:961`, `catalogs/iceberg-file-catalog/src/lib.rs:450`): the model returns an error.
- The panic of the file catalog on several version files of which one has no number: the model finds none (a sole version file is found whatever its name).
- Mutex poisoning, metrics other than the data cache's four counters, periodic logging, and the 64-bit wrap of the eviction counter.
- `Lru.HugeCapDrifts` is about weights whose sum passes 2^64, which no process holds; it shows why the exactness of the total needs its condition, not something the caches do.
- The running total of the footer cache wraps as release arithmetic does; a debug build panics instead.
- Which page-index options a footer fetch uses: a result is a footer of the file, perhaps wider than asked for.
- `DataCache.ReadsTransparent` and `DataCache.DataCache.Read` assume the inner reader may fail, stop short or answer incompletely but returns no wrong byte.
- `NestedProjection.FieldByPath` and `ProjectionsCompose` ask for field ids at every struct level: matching by name, which the code falls back to, is covered by `ProjectionTyped` and `CompiledIsDirect` only.
- Casts of leaf columns are a parameter that yields the requested type and length; composition and totality are stated for leaves whose type does not change.
- Top-level columns, variants and row lineage in `variant_schema_adapter.rs`: only the nested projection is modelled.
- Arrow constructors are modelled by the checks they make; slices, buffers and offset validity beyond the last offset are not.
- Struct types built by hand without recomputing their id lookup; field order within a struct is kept, so the lookup follows from it.
- Arrow types other than those named are one constructor with a name, and are not supported.
- The file catalog's namespaces, renames, drops, views and creation race; its version hint, which it never reads.
- `FileCatalog.NoGapsNoLostUpdate` assumes a single creation, one location and one encoding; `RaceBothWinIff` says what the last two are for.
- `DecimalBytes.MantissaRoundTrip` does not model parsing of decimal text or the number of fractional digits; the decimal type is a sign, a 128-bit magnitude and an exponent.
- The bitmap format inside a deletion vector and the CRC-32 checksum are parameters; merging of vectors is the bitmap library's.
