# RustLake verification

A Dafny model of the parts of RustLake whose correctness is hardest to see by reading: change
capture, the Iceberg table life cycle, dependency scheduling, filter pushdown, WebSocket query
sessions, the REST catalog, and the matching and coding routines they rely on. Each module states
what the code does, in the code's own branches and constants, and proves what it is for.

Algorithms that update variables in loops are methods with loop invariants, objects with fields are
classes, and what is expressions and recursion in the source is functions. The concurrent query
session is a state machine over its steps, with any interleaving allowed.

`dafny verify dfyconfig.toml` checks everything.

| file | what it covers |
|---|---|
| `ChangeCapture.dfy`, `CaptureBatches.dfy` | MongoDB change capture: token, fuzzy snapshot, replay, batching |
| `ParquetSink.dfy` | the buffering file sink under failing uploads |
| `IcebergTable.dfy`, `IcebergRuns.dfy`, `ManifestLists.dfy`, `TimeTravel.dfy` | table metadata, its operations over whole runs, expiry and manifest lists, time travel |
| `SchemaEvolution.dfy`, `SchemaRuns.dfy`, `TableDefinitions.dfy` | column ids and names within a schema change and over runs, the schemas and partition specs stored |
| `Compaction.dfy`, `CompactionRuns.dfy`, `OrphanFiles.dfy` | grouping and rewriting data files, repeated runs, cleanup of unreferenced files |
| `Graphs.dfy`, `UpstreamSort.dfy`, `NotebookPlan.dfy` | dependency graphs, upstream order, notebook stages |
| `Scheduler.dfy`, `VersionHistory.dfy` | the scheduler pass and self-healing |
| `FilterExpr.dfy`, `SqlGrammar.dfy`, `SqlRoundTrip.dfy`, `SqlQuoting.dfy`, `FilterPushdown.dfy` | filters, their SQL text, pushdown |
| `Sessions.dfy`, `SessionRuns.dfy` | WebSocket query sessions: steps and invariant, whole runs and cancellation |
| `CatalogNames.dfy`, `Catalog.dfy`, `CatalogLaws.dfy`, `CatalogHandlers.dfy` | the REST catalog: its string keys, its requests, what clients can rely on, its shared state |
| `Texts.dfy`, `Glob.dfy` | splitting, searching, glob patterns and permissions |
| `Sequences.dfy`, `Batches.dfy` | what several modules share: options, sequences, record batches |
| `Base64.dfy`, `Credentials.dfy`, `SourceHash.dfy` | Base64, the credential file, FNV-1a |

Some claims one might make about the code are false of it. Each is listed here with the exact
condition under which it holds:

- a printed filter is read back as itself if and only if it is well nested and no column name holds a
  double quote (`SqlQuoting.RoundTripIff`);
- with plain column names a pushed-down scan is refused if and only if some pushed filter has no
  understanding under SQL precedence, and otherwise returns what local filtering returns if and only
  if the understood filters keep every row that passes all filters (`FilterPushdown.ScanExactly`);
  `(NOT c) IS NULL` loses rows, while `FALSE AND (NOT c) IS NULL` is misnested too but loses none;
- a cancelled query can still be reported complete, but only with no rows if it was cancelled before
  streaming began, and otherwise only with no chunk check left to pass
  (`SessionRuns.CancelledCompletesIff`, `SessionRuns.EarlyCancelYieldsNoRows`);
- the flat catalog behaves as a two-level one if and only if no `::` begins inside a namespace or at
  its end (`Catalog.AgreementNeedsClear`, `CatalogNames.KeySplitsIff`); a single colon at the end of a
  namespace is enough to show its tables under another namespace;
- the current snapshot survives an expiry if and only if at least one snapshot is retained or it is
  itself young enough (`IcebergRuns.CurrentSurvivesIff`);
- column names stay distinct through a schema change if and only if no step renames a column onto the
  name of another (`SchemaEvolution.NamesStayDistinctIff`);
- the ids a schema change gives out are new to the whole table, old schemas included, if and only if
  no schema has an id among the next ones after the largest of the current schema, as many as columns
  are added (`SchemaRuns.FreshIff`); that the current schema holds the largest id of all is enough
  (`SchemaRuns.HighestIdSuffices`) but not needed (`SchemaRuns.GapIsFilled`), and dropping the newest
  column and adding another reuses its id (`SchemaRuns.DroppedIdIsReused`);
- after a scheduler pass a table whose job ran well is no older than its known inputs if and only if
  no later job of the pass runs and stamps one of these inputs later than the table
  (`Scheduler.TickFreshIff`); the stored order of the jobs, which the code follows, need not be a
  dependency order;
- a user's edit made between the scheduler's read of a table and its commit is what runs afterwards if
  and only if the gates pass, the read found nothing to fall back to, or the edit ends with the
  fall-back's code (`VersionHistory.LateEditSurvivesIff`);
- the next snapshot takes a sequence number of its own unless the oldest snapshots have expired and
  no more have expired than are left (`TableDefinitions.NumberIsReusedIff`);
- no other table is kept where a created one is if and only if its namespace holds no dot and no slash
  and each slash of its name comes after a dot (`CatalogLaws.LocationIsUniqueIff`);
- after an expiry every listed snapshot still has its manifest list if and only if the metadata was
  written or none of the expired manifest lists could be deleted
  (`ManifestLists.CompleteAfterExpiryIff`), because they are deleted first;
- the files of a compaction keep their content through a later compaction of the same table if and
  only if that one ran on another date or wrote the same batches under the names they share, because
  the numbering begins again with every run (`CompactionRuns.EarlierRunSurvivesIff`);
- removing orphans spares a table's files if and only if every one of them that is a data file and can
  be deleted is listed by the state it is given (`OrphanFiles.CleanupSparesIff`); a freshly loaded
  state lists none, so every data file that can be deleted is deleted
  (`OrphanFiles.LoadedStateSparesIff`);
- the walk along the parents of a snapshot ends if and only if it ends within as many steps as there
  are snapshots (`TimeTravel.EndsSoonOrNever`); a snapshot that is its own parent is walked for ever.

Two more facts stand without such a condition. A freshly loaded table lists no data files, so the
ancestor walk and compaction find none (`TimeTravel.LoadedWalkIsEmpty`,
`Compaction.LoadedTableListsNothing`), although the documentation of both speaks of all files. And a
compaction under new file names leaves the old snapshots listed, so that a second one, or a walk from
the "replace" snapshot, reads the rewritten rows again (`CompactionRuns.SecondRunReadsTwice`,
`CompactionRuns.ReplacedWalkReadsTwice`).

## Model

| member | source | states |
|---|---|---|
| ChangeCapture.GapFree | crates/rustlake-api/src/mongodb_cdc.rs:217-301 | for every write log, token, fuzzy snapshot after it and choice of document lookups, snapshot records followed by all events after the token replay to the collection itself |
| ChangeCapture.NeverBehind | crates/rustlake-api/src/mongodb_cdc.rs:217-301 | visits and lookups may see changes later than the last event delivered: then each cell of the copy shows what it held at some moment no earlier than that event |
| ChangeCapture.StaysUpToDate | crates/rustlake-api/src/mongodb_cdc.rs:286-301 | the restart law: a copy up to date with a token that gets the events after it is up to date with the last of them |
| ChangeCapture.ApplyLaws | crates/rustlake-api/src/mongodb_cdc.rs:544-575 | what a put, an update and a removal do to the document and that they leave the others alone |
| ChangeCapture.DeliveredWritesLater | crates/rustlake-api/src/mongodb_cdc.rs:544-575 | one delivered event, with or without a looked-up document, turns any reading seen since its change into one seen after it |
| ChangeCapture.ReplayConverges | crates/rustlake-api/src/mongodb_cdc.rs:286-301 | replaying the stream up to some event turns every reading seen since the token into one seen since that event |
| ChangeCapture.SnapshotShows | crates/rustlake-api/src/mongodb_cdc.rs:247-284 | each cell of the snapshot shows the collection as it was at some moment since the token |
| ChangeCapture.LateTokenLosesDocument | crates/rustlake-api/src/mongodb_cdc.rs:220-247 | capturing the token after a document was visited can lose that document for good |
| CaptureBatches.RunSnapshot | crates/rustlake-api/src/mongodb_cdc.rs:382-483 | batches that got through are a prefix of the documents in order, a thousand each but the last; something is left out only for a failed attempt, a stop or a read error, and what is then pending is less than a batch |
| CaptureBatches.RunChangeStream | crates/rustlake-api/src/mongodb_cdc.rs:486-657 | the batches sent are those of the answers taken, all or all but the one that is lost; the stream is left only at its end, at a stop or at a failed attempt, and the token is the last event's |
| CaptureBatches.CutHoldsItems | crates/rustlake-api/src/mongodb_cdc.rs:608-652 | the batches hold the events received, in order |
| CaptureBatches.CutSizes | crates/rustlake-api/src/mongodb_cdc.rs:608-652 | no batch is empty or larger than a hundred, and after a quiet interval nothing is pending |
| CaptureBatches.ShortBatchesEndQuietly | crates/rustlake-api/src/mongodb_cdc.rs:608-652 | a batch of fewer than a hundred ends at a quiet interval |
| CaptureBatches.Flush | crates/rustlake-api/src/mongodb_cdc.rs:608-652 | one flush sends the whole batch or nothing, and says why |
| CaptureBatches.ResumeSkipsExactlyLost | crates/rustlake-api/src/mongodb_cdc.rs:537-589 | restarting from the kept token skips exactly the events received but never sent |
| CaptureBatches.Start | crates/rustlake-api/src/mongodb_cdc.rs:189-311 | the stream is opened from the captured token if a snapshot is wanted and one was captured, else from the resume token, and relayed as above; whatever fails, a copy up to date with that token stays up to date with the last event sent; after a smooth start with a snapshot it is up to date from nothing |
| ParquetSink.Sink.Accept | crates/rustlake-api/src/parquet_sink.rs:111-115 | the batch joins the end of the buffer |
| ParquetSink.Sink.WriteBatch | crates/rustlake-api/src/parquet_sink.rs:111-120 | the batch is accepted even when the flush fails; below the threshold it is only buffered; after success the buffer is below the threshold |
| ParquetSink.Sink.Flush | crates/rustlake-api/src/parquet_sink.rs:123-195 | the whole buffer becomes one numbered file of its rows, or everything stays buffered, no file is recorded and at most the counter moves |
| ParquetSink.Sink.NextNumber | crates/rustlake-api/src/parquet_sink.rs:155-163 | every attempt to upload takes a number no file has |
| ParquetSink.Sink.Book | crates/rustlake-api/src/parquet_sink.rs:171-194 | booking a file moves the buffer into it without touching order or other files |
| ParquetSink.RecordOne | crates/rustlake-api/src/parquet_sink.rs:155-180 | file numbers stay strictly increasing, hence unique, whatever failed in between |
| ParquetSink.RowsAccounted | crates/rustlake-api/src/parquet_sink.rs:171-180 | rows written plus rows buffered are the rows accepted |
| ParquetSink.RunCalls | crates/rustlake-api/src/parquet_sink.rs:111-195 | over every sequence of calls with failing uploads, files followed by the buffer are the accepted batches in order |
| SchemaEvolution.EvolveFields | crates/rustlake-api/src/iceberg_metadata.rs:652-685 | succeeds exactly if every change is possible on the names left by the changes before it; then the names are those, distinct ids stay distinct, and the highest id has risen by one per added column |
| SchemaEvolution.ChangesKeepSound | crates/rustlake-api/src/iceberg_metadata.rs:652-685 | whatever is added, dropped and renamed, no id occurs twice and none exceeds the highest handed out |
| SchemaEvolution.ChangeDoes | crates/rustlake-api/src/iceberg_metadata.rs:652-685 | an added column is as asked for, a drop leaves exactly the fields of other names, and a rename changes only the name of the first field of that name |
| SchemaEvolution.AddedColumnHasId | crates/rustlake-api/src/iceberg_metadata.rs:652-685 | an added column is appended with the start's highest id plus the additions so far, an id no column has at that moment |
| SchemaEvolution.AddedIdsIncrease | crates/rustlake-api/src/iceberg_metadata.rs:652-685 | within a call no id is given out twice, even if the column is dropped again |
| SchemaEvolution.NamesStayDistinctIff | crates/rustlake-api/src/iceberg_metadata.rs:652-685 | column names stay distinct throughout a call exactly when no rename hits the name of another column |
| SchemaEvolution.FailureStays | crates/rustlake-api/src/iceberg_metadata.rs:652-685 | later changes cannot repair a failed one |
| SchemaRuns.CurrentIsFound | crates/rustlake-api/src/iceberg_metadata.rs:633-651 | in a healthy table the current schema is always found |
| SchemaRuns.EvolvesIff | crates/rustlake-api/src/iceberg_metadata.rs:633-751 | so a schema change of a healthy table succeeds exactly when it asks for something and every change is possible |
| SchemaRuns.RunKeepsDistinctIds | crates/rustlake-api/src/iceberg_metadata.rs:633-751 | in every run the column ids of each schema are pairwise distinct |
| SchemaRuns.FreshIff | crates/rustlake-api/src/iceberg_metadata.rs:652-685 | the ids a call gives out occur in no schema of the table exactly when no schema has an id among the next ones after the current schema's largest, as many as columns are added |
| SchemaRuns.HighestIdSuffices | crates/rustlake-api/src/iceberg_metadata.rs:652-685 | they are new if the current schema holds the largest id of all |
| SchemaRuns.GapIsFilled | crates/rustlake-api/src/iceberg_metadata.rs:652-685 | a run in which the current schema has lost the largest id and the next one given out is new all the same |
| SchemaRuns.DroppedIdIsReused | crates/rustlake-api/src/iceberg_metadata.rs:652-685 | a run in which a dropped column's id is given to another column |
| IcebergRuns.CreatedHealthy | crates/rustlake-api/src/iceberg_writer.rs:59-106 | the first metadata already satisfies the run invariant |
| IcebergRuns.AppendKeepsSnapshots | crates/rustlake-api/src/iceberg_metadata.rs:338-539 | an append keeps the history, adds one current snapshot linked to its parent, and adds to the totals |
| IcebergRuns.SchemaKeeps | crates/rustlake-api/src/iceberg_metadata.rs:633-751 | schema evolution keeps the run invariant |
| IcebergRuns.PartitionKeeps | crates/rustlake-api/src/iceberg_metadata.rs:756-839 | partition evolution keeps the run invariant and the order of spec ids |
| TableDefinitions.PartitionIsStored | crates/rustlake-api/src/iceberg_metadata.rs:756-839 | the spec found under the new default id has exactly the fields given, the earlier specs stay, the last partition id is the largest of these fields, and schemas and snapshots are untouched |
| TableDefinitions.CreationStoresColumns | crates/rustlake-api/src/iceberg_writer.rs:44-106 | a new table's current schema holds its columns in order, numbered from 1, and its default spec no fields |
| TableDefinitions.AppendStoresColumns | crates/rustlake-api/src/iceberg_metadata.rs:475-509 | an append with another number of columns makes these, numbered from 1, the current schema; otherwise the schemas stay; the earlier ones stay in any case |
| TableDefinitions.EvolutionStoresFields | crates/rustlake-api/src/iceberg_metadata.rs:686-725 | the schema found under the new current id has the fields the changes lead to, and the earlier schemas, the snapshots and the specs stay |
| TableDefinitions.StepExtends | crates/rustlake-api/src/iceberg_metadata.rs:634-839 | every step writes nothing or the next version, logging the one it replaces with its time and only ever adding schemas and specs |
| TableDefinitions.StepLeavesTheRest | crates/rustlake-api/src/iceberg_metadata.rs:338-839 | each operation leaves the parts of the metadata that it is not about as they were |
| TableDefinitions.DefinitionsStay | crates/rustlake-api/src/iceberg_metadata.rs:634-839 | in every run the schemas, specs and log of an earlier version are still there later |
| TableDefinitions.RunKeepsColumnsBounded | crates/rustlake-api/src/iceberg_metadata.rs:475-725 | in every run no column of the current schema has an id above the last column id |
| TableDefinitions.AppendStoresSnapshot | crates/rustlake-api/src/iceberg_metadata.rs:416-468 | the new snapshot has the operation asked for and the next number in the list, which is at most the last sequence number |
| TableDefinitions.RunNumbersSnapshots | crates/rustlake-api/src/iceberg_metadata.rs:416-432 | in a run without expiry snapshots are numbered 1, 2, 3, ... |
| TableDefinitions.NumberIsReusedIff | crates/rustlake-api/src/iceberg_metadata.rs:416-432 | exactly when the next snapshot takes a number still in use |
| IcebergRuns.ExpiryDropsOldest | crates/rustlake-api/src/iceberg_maintenance.rs:313-428 | expiry removes exactly the oldest old-enough snapshots beyond those retained, and their log entries |
| IcebergRuns.CurrentSurvivesIff | crates/rustlake-api/src/iceberg_maintenance.rs:313-428 | exactly when the current snapshot survives an expiry |
| IcebergRuns.ExpireKeeps | crates/rustlake-api/src/iceberg_maintenance.rs:313-428 | expiry keeping at least one snapshot keeps the run invariant |
| ManifestLists.ExpireSnapshots | crates/rustlake-api/src/iceberg_maintenance.rs:313-400 | the next load sees the expired table or, if the write is refused, the old one; in both cases the expired manifest lists are gone where they can be deleted |
| ManifestLists.CompleteAfterExpiryIff | crates/rustlake-api/src/iceberg_maintenance.rs:337-400 | exactly when every snapshot still listed has its manifest list |
| IcebergRuns.StepKeeps | crates/rustlake-api/src/iceberg_metadata.rs:338-539 | any operation, stored or not, keeps the run invariant |
| IcebergRuns.RunKeepsHealthy | crates/rustlake-api/src/iceberg_metadata.rs:338-539 | after every interleaving: current snapshot present and latest, log mirrors snapshots, main ref agrees, version is log length plus one, schema ids 0 to current, totals count every append ever made |
| TimeTravel.NewestIsLastUntil | crates/rustlake-api/src/iceberg_metadata.rs:571-603 | a timestamp resolves to the last snapshot at or before it, or to none |
| TimeTravel.StepKeepsPast | crates/rustlake-api/src/iceberg_metadata.rs:571-603 | a later operation changes no answer for a moment the history still covers |
| TimeTravel.TimeTravelIsFaithful | crates/rustlake-api/src/iceberg_metadata.rs:571-603 | resolving a timestamp gives the snapshot that was current at that moment, in every run |
| TimeTravel.AnswersAreStable | crates/rustlake-api/src/iceberg_metadata.rs:571-603 | operations after a timestamp never change what it resolves to while it is covered |
| TimeTravel.OldestOnlyAdvances | crates/rustlake-api/src/iceberg_maintenance.rs:313-428 | the oldest kept snapshot only moves forward |
| TimeTravel.ResolvesLatestAndId | crates/rustlake-api/src/iceberg_metadata.rs:571-603 | the latest snapshot is the newest, and an id resolves to the one snapshot of that id, or to none if none is listed |
| TimeTravel.GetDataFilesForSnapshot | crates/rustlake-api/src/iceberg_metadata.rs:608-628 | where the parent walk ends it returns the files of the snapshot and its ancestors, newest first |
| TimeTravel.EndsSoonOrNever | crates/rustlake-api/src/iceberg_metadata.rs:608-628 | the walk ends within as many steps as there are snapshots, or never |
| TimeTravel.OlderParentsEnd | crates/rustlake-api/src/iceberg_metadata.rs:608-628 | it always ends where parents are older than their children |
| TimeTravel.OwnParentNeverEnds | crates/rustlake-api/src/iceberg_metadata.rs:608-628 | it never ends from a snapshot that is its own parent |
| TimeTravel.ChainIsHistory | crates/rustlake-api/src/iceberg_metadata.rs:608-628 | with ascending and linked snapshots those ancestors are every older snapshot still kept, newest first, each once |
| TimeTravel.HealthyParentsOlder | crates/rustlake-api/src/iceberg_metadata.rs:338-539 | under the run invariant parents are older than their children |
| TimeTravel.RunWalksHistory | crates/rustlake-api/src/iceberg_metadata.rs:608-628 | in every run the walk from a kept snapshot ends and visits it and all older kept ones, newest first |
| TimeTravel.LoadedWalkIsEmpty | crates/rustlake-api/src/iceberg_metadata.rs:227-241 | on a freshly loaded table the walk finds no files |
| Compaction.CollectNew | crates/rustlake-api/src/iceberg_maintenance.rs:150-163 | the files of one snapshot are added once each, in order, after those already known |
| Compaction.CollectPaths | crates/rustlake-api/src/iceberg_maintenance.rs:150-163 | each distinct listed file is taken exactly once, in the order of its first listing |
| Compaction.ReadAll | crates/rustlake-api/src/iceberg_maintenance.rs:167-194 | the batches of all files in order, or failure if one cannot be read |
| Compaction.WriteFiles | crates/rustlake-api/src/iceberg_maintenance.rs:200-250 | the grouping is written file by file up to the first write that fails, or whole |
| Compaction.GroupingIsUnique | crates/rustlake-api/src/iceberg_maintenance.rs:200-250 | the files hold all batches in order, every file but the last reaches the target and none goes on after reaching it; this determines the files |
| Compaction.FileCountBound | crates/rustlake-api/src/iceberg_maintenance.rs:200-262 | (files - 1) times the target is at most 100 times the rows, and the counts add up to the rows |
| CompactionRuns.CompactTable | crates/rustlake-api/src/iceberg_maintenance.rs:142-262 | succeeds exactly when all listed files are readable and hold data and no data file, manifest or metadata write is refused; then the table has one "replace" snapshot of the new files, otherwise it is unchanged and exactly the files before the failure are in the store |
| CompactionRuns.RewrittenReadsBack | crates/rustlake-api/src/iceberg_maintenance.rs:165-311 | reading the new files gives back exactly the batches read from the old ones, in order |
| CompactionRuns.PathsDiffer | crates/rustlake-api/src/iceberg_maintenance.rs:289-294 | two file names of a table agree exactly if date and number agree |
| CompactionRuns.ListedAreStored | crates/rustlake-api/src/iceberg_maintenance.rs:285-311 | the snapshot lists each new file under the name it is stored at, with its size and rows |
| CompactionRuns.EarlierRunSurvivesIff | crates/rustlake-api/src/iceberg_maintenance.rs:196-311 | exactly when the files of one run keep their content through a later run |
| CompactionRuns.TotalsCountRowsAgain | crates/rustlake-api/src/iceberg_maintenance.rs:252-262 | the new snapshot is marked "replace" and adds every rewritten row to the table's row total again |
| CompactionRuns.SecondRunReadsTwice | crates/rustlake-api/src/iceberg_maintenance.rs:150-163 | with new file names a second compaction reads every batch of the first one's input twice |
| CompactionRuns.ReplacedWalkReadsTwice | crates/rustlake-api/src/iceberg_metadata.rs:608-628 | the walk from the "replace" snapshot reads the rewritten batches and then what its parent's walk reads |
| Compaction.LoadedTableListsNothing | crates/rustlake-api/src/iceberg_metadata.rs:227-241 | a freshly loaded table lists no files, so compacting it fails |
| OrphanFiles.RemoveOrphanFiles | crates/rustlake-api/src/iceberg_maintenance.rs:430-480 | exactly the unreferenced Parquet files outside the metadata directory that can be deleted are gone; the orphans found are all of those, deletable or not, and the numbers deleted are those of the files gone |
| OrphanFiles.LeftIff | crates/rustlake-api/src/iceberg_maintenance.rs:455-480 | a file is left exactly if it is no orphan or cannot be deleted |
| OrphanFiles.GoneIff | crates/rustlake-api/src/iceberg_maintenance.rs:455-480 | a file is gone exactly if it ends in `.parquet`, has no `/metadata/` in its path, is referenced nowhere and can be deleted |
| OrphanFiles.CleanupSparesIff | crates/rustlake-api/src/iceberg_maintenance.rs:430-480 | exactly when the data files of a table survive a cleanup |
| OrphanFiles.WritersStateSpares | crates/rustlake-api/src/iceberg_maintenance.rs:436-445 | the state that lists a file always spares it |
| OrphanFiles.LoadedStateSparesIff | crates/rustlake-api/src/iceberg_maintenance.rs:430-480 | run on a freshly loaded table the cleanup deletes every data file that can be deleted |
| Graphs.StuckReachesCycle | crates/rustlake-api/src/executable_table.rs:1209-1230 | nodes that all wait for each other depend on a cycle |
| Graphs.OrderedIsAcyclic | crates/rustlake-api/src/executable_table.rs:1209-1230 | a node in a dependencies-first order depends on no cycle |
| UpstreamSort.AddTable | crates/rustlake-api/src/executable_table.rs:1161-1173 | one table adds its node, its inputs' nodes and its edges, nothing else |
| UpstreamSort.BuildDependencyDag | crates/rustlake-api/src/executable_table.rs:1161-1173 | one node per table and input; the edges of tables with the same name are joined |
| UpstreamSort.CollectUpstream | crates/rustlake-api/src/executable_table.rs:1178-1192 | the search collects exactly the target and its transitive dependencies |
| UpstreamSort.CountEdges | crates/rustlake-api/src/executable_table.rs:1194-1207 | in-degrees count the listed dependencies and the reversed edges mirror them, in any iteration order |
| UpstreamSort.InitialQueue | crates/rustlake-api/src/executable_table.rs:1209-1213 | exactly the nodes without dependencies start the queue |
| UpstreamSort.Release | crates/rustlake-api/src/executable_table.rs:1214-1228 | each dependent loses one unit per listing and is queued once, when it reaches zero |
| UpstreamSort.DrainRound | crates/rustlake-api/src/executable_table.rs:1214-1228 | one round keeps every in-degree equal to the dependencies still missing |
| UpstreamSort.TopologicalSortUpstream | crates/rustlake-api/src/executable_table.rs:1177-1231 | without duplicates, exactly the transitive dependencies that cannot reach a cycle, each after all it depends on |
| UpstreamSort.TargetLastIffAcyclic | crates/rustlake-api/src/executable_table.rs:1177-1231 | the target is last, and nothing is missing, exactly when it depends on no cycle |
| NotebookPlan.BuildExecutionPlan | crates/rustlake-api/src/notebook_runner.rs:102-236 | for every notebook, distinct ids or not: stages are numbered, every executable id and no other is run, and each cell has what it needs from earlier stages, except in a last sequential stage of cells that wait for ever; with distinct ids the stages are the levels of the graph |
| NotebookPlan.PlanRunsEachCellOnce | crates/rustlake-api/src/notebook_runner.rs:252-259 | every executable cell runs once, each satisfiable one after all it depends on |
| NotebookPlan.StageIsLongestChain | crates/rustlake-api/src/notebook_runner.rs:156-219 | a cell's stage number is its longest dependency chain; the fallback stage holds exactly the cells that need a cycle, a missing id or a markdown cell |
| VersionHistory.ActKeeps | crates/rustlake-api/src/main.rs:1611-1635 | every edit, rollback, read and healing commit keeps numbers increasing, the live code last, and healings restoring earlier code |
| VersionHistory.FallBackIff | crates/rustlake-api/src/main.rs:1541-1543 | there is a fall-back exactly if two versions are not healings, and it is the last but one of these |
| VersionHistory.RoundHealsIff | crates/rustlake-api/src/main.rs:1541-1630 | a read followed by its commit appends one healing, numbered above all, and runs its code exactly if the gates fail and there is a fall-back; otherwise it changes nothing |
| VersionHistory.EditRecords | crates/rustlake-api/src/routes.rs:13608-13708 | an edit runs at once and is recorded last; the first one also records the code it replaces |
| VersionHistory.RollbackRestores | crates/rustlake-api/src/routes.rs:13608-13708 | a rollback runs the code of that number and records it last; an unknown number changes nothing |
| VersionHistory.HistoryStaysSound | crates/rustlake-api/src/main.rs:1529-1544 | the same over every interleaving |
| VersionHistory.FailuresRestoreSameCode | crates/rustlake-api/src/main.rs:1541-1543 | repeated failures without an edit restore the same code every time |
| VersionHistory.LateEditSurvivesIff | crates/rustlake-api/src/main.rs:1541-1625 | exactly when what users did between read and commit runs on afterwards; it stays in the history in any case |
| VersionHistory.NextFallBackIsFailedVersion | crates/rustlake-api/src/main.rs:1541-1543 | after one more edit the fall-back is the very version whose failure caused the healing |
| VersionHistory.PushConsistent | crates/rustlake-api/src/routes.rs:13608-13708 | a version numbered one above the maximum keeps the history consistent |
| Scheduler.ExecutableTables.RunJob | crates/rustlake-api/src/main.rs:1520-1645 | a job that is not due does nothing; a target no older than its refreshed inputs is skipped; one that passes is stamped; failing gates restore the last but one deliberate version, if there are two, as the history's own read and commit do; a failure changes nothing; no other table is touched |
| Scheduler.ExecutableTables.Tick | crates/rustlake-api/src/main.rs:1515-1645 | the target of the last due job on it, if that runs well, ends the pass no older than any known input exactly if no later job overtakes it; in dependency order none does |
| Scheduler.JobLeavesTargetFresh | crates/rustlake-api/src/main.rs:1546-1572 | whether it runs or skips, a job leaves its target no older than any known input |
| Scheduler.SkippedIff | crates/rustlake-api/src/main.rs:1546-1572 | a table with inputs is run exactly unless it is no older than its known inputs and all of these have been refreshed |
| Scheduler.JobKeepsOthersFresh | crates/rustlake-api/src/main.rs:1636-1645 | a job keeps every table fresh that does not read from its target |
| Scheduler.TickLeavesTablesFresh | crates/rustlake-api/src/main.rs:1519-1645 | after a pass in dependency order no table whose job ran well has a known input refreshed later than itself, even if other jobs failed |
| Scheduler.OneJobFreshIff | crates/rustlake-api/src/main.rs:1546-1645 | a job on another table keeps a table fresh exactly if it does not stamp one of its inputs later |
| Scheduler.FreshBetweenIff | crates/rustlake-api/src/main.rs:1518-1645 | in any order and with any outcomes a table left alone by a stretch of jobs is fresh after it exactly if it was before and none of them overtakes it |
| Scheduler.TickFreshIff | crates/rustlake-api/src/main.rs:1518-1645 | in any order the target of a job that runs well is fresh after the pass exactly if no later job overtakes it |
| Scheduler.WrongOrderLeavesStaleTable | crates/rustlake-api/src/main.rs:1519-1645 | an instance: two jobs in the wrong order leave a stale table exactly if the later one passes |
| SqlRoundTrip.ReadsPrinted | crates/rustlake-api/src/trino_provider.rs:194-244 | the text of a filter is cut into exactly its tokens, escaped quotes included, whatever follows |
| SqlRoundTrip.UnderstoodIffWellNested | crates/rustlake-api/src/trino_provider.rs:194-244 | what an engine with SQL precedence understands is the filter itself exactly when it is well nested |
| SqlRoundTrip.TextUnderstood | crates/rustlake-api/src/trino_provider.rs:194-244 | parsing the printed text of any filter gives that understanding, or is refused where it has none |
| SqlQuoting.PrintedQuotes | crates/rustlake-api/src/trino_provider.rs:212-217 | a column name with a double quote is printed with fewer quotes than reading it back needs |
| SqlQuoting.RoundTripIff | crates/rustlake-api/src/trino_provider.rs:194-244 | parsing the printed text gives the filter back exactly when it is well nested and no column name holds a double quote |
| FilterPushdown.Pushed | crates/rustlake-api/src/trino_provider.rs:316-330 | exactly the printable filters are pushed |
| FilterExpr.PrintableIff | crates/rustlake-api/src/trino_provider.rs:194-244 | a filter has a text exactly if no part of it is an unknown operator, literal or expression |
| FilterExpr.AtomLaws | crates/rustlake-api/src/trino_provider.rs:194-244 | a column has the value the row gives it or is null, and different literals stand for different values |
| FilterExpr.ThreeValuedLaws | crates/rustlake-api/src/trino_provider.rs:194-244 | AND is the lesser and OR the greater of its operands under false, unknown, true, and NOT turns the order round |
| FilterExpr.ComparisonLaws | crates/rustlake-api/src/trino_provider.rs:194-244 | a comparison is unknown exactly with a null, and each operator excludes its opposite |
| FilterPushdown.LocalRowsAre | crates/rustlake-api/src/trino_provider.rs:332-358 | local filtering keeps exactly the rows for which every filter is true, in order |
| FilterPushdown.ParseJoined | crates/rustlake-api/src/trino_provider.rs:360-369 | the clause joined with AND is read as the conjunction of its filters |
| FilterPushdown.RemoteKeepsPushed | crates/rustlake-api/src/trino_provider.rs:360-381 | of well-nested filters the remote engine keeps exactly the rows that satisfy every pushed one |
| FilterPushdown.RemoteKeepsUnderstood | crates/rustlake-api/src/trino_provider.rs:360-381 | for all plainly named filters the remote engine keeps exactly the rows that satisfy what it understands of each, or refuses if it does not understand one |
| FilterPushdown.ScanExactly | crates/rustlake-api/src/trino_provider.rs:332-381 | for all plainly named filters: refused exactly when some pushed filter has no understanding; otherwise equal to local filtering exactly when the understood filters keep every row that passes all filters |
| FilterPushdown.PushdownPreservesMeaning | crates/rustlake-api/src/trino_provider.rs:332-381 | with well-nested filters the scan returns exactly the rows of local filtering under three-valued logic, whatever mix of filters |
| FilterPushdown.NegationUnderNullTestLosesRows | crates/rustlake-api/src/trino_provider.rs:230-241 | an instance of that condition failing: a row where `c` is null passes `(NOT c) IS NULL` and is withheld |
| FilterPushdown.MisnestedButHarmless | crates/rustlake-api/src/trino_provider.rs:230-241 | an instance of it holding for a filter that is not well nested |
| Sessions.StructureKept | crates/rustlake-api/src/ws.rs:103-184 | every step keeps the in-flight map equal to the running uncancelled tasks, within the limit |
| Sessions.ChunkKeepsView | crates/rustlake-api/src/ws.rs:379-394 | a chunk extends the streamed prefix by exactly the next rows, under the next index |
| Sessions.CompletionKeepsView | crates/rustlake-api/src/ws.rs:420-433 | completion is sent once, after the whole result, with its length |
| Sessions.StepKeepsInv | crates/rustlake-api/src/ws.rs:103-443 | every step of every task keeps what each client view promises, among it that a task over and not cancelled has been answered exactly once |
| SessionRuns.SessionIsSafe | crates/rustlake-api/src/ws.rs:103-184 | over all interleavings: at most three in flight, each running uncancelled task among them, at most one acknowledgement and one ending per query |
| SessionRuns.StreamIsPrefix | crates/rustlake-api/src/ws.rs:360-433 | over all interleavings: indices 0, 1, 2, ..., rows a prefix of the result, a hundred for each chunk but the last, the whole of it once completion is sent |
| SessionRuns.EveryQueryIsAnswered | crates/rustlake-api/src/ws.rs:103-443 | over all interleavings: a task over and not cancelled has got exactly one ending, the completion after the whole result or an error without rows; a rejected query exactly one error |
| SessionRuns.ReturnedRowsAreDelivered | crates/rustlake-api/src/ws.rs:360-433 | over all interleavings: rows the engine returned for a query that is over and was not cancelled are exactly what the client got, with the completion |
| SessionRuns.NoQueryHangs | crates/rustlake-api/src/ws.rs:249-433 | from every reachable state each task can end by its own steps alone and free its place |
| SessionRuns.QueryIsTakenIff | crates/rustlake-api/src/ws.rs:135-184 | a query is taken up exactly if fewer than three are in flight; otherwise it gets an error and nothing else changes |
| SessionRuns.CancelIsAcknowledgedIff | crates/rustlake-api/src/ws.rs:136-142 | a cancellation is acknowledged, flags the task and frees its place exactly if the query is in flight |
| SessionRuns.OtherMessages | crates/rustlake-api/src/ws.rs:107-134 | a ping gets a pong, an unreadable message an error, and after a close only the tasks go on |
| SessionRuns.FallBackIsNotInterrupted | crates/rustlake-api/src/ws.rs:276-318 | a query that has fallen back to the other engine is no longer interrupted |
| SessionRuns.StreamingCompletes | crates/rustlake-api/src/ws.rs:360-433 | an uncancelled query whose rows are being streamed can be completed by its own checks and sends, with the whole result |
| SessionRuns.CancelStopsTheStream | crates/rustlake-api/src/ws.rs:379-394 | after a cancellation at most the one chunk already past its check is sent |
| SessionRuns.CancelledCompletesIff | crates/rustlake-api/src/ws.rs:249-433 | exactly which completions of a cancelled query some continuation may still report: one with no rows before streaming begins, and the whole result once no chunk has a cancellation check left |
| SessionRuns.EarlyCancelYieldsNoRows | crates/rustlake-api/src/ws.rs:249-433 | a query cancelled before its rows were streamed sends no row, and completes only with none |
| SessionRuns.CancelledMayComplete | crates/rustlake-api/src/ws.rs:136-142 | a run in which a query is acknowledged as cancelled and then reported complete |
| CatalogNames.KeyRoundTrips | crates/rustlake-api/src/iceberg_rest_catalog.rs:62-72 | splitting and joining is the identity on keys, and on level lists exactly if they are not empty and no level holds a dot |
| CatalogNames.DecodeAround | crates/rustlake-api/src/iceberg_rest_catalog.rs:1076-1081 | `%1F`, `%1f`, the unit separator and a dot are decoded alike, without disturbing what surrounds them |
| CatalogNames.PathNamesNamespace | crates/rustlake-api/src/iceberg_rest_catalog.rs:1076-1081 | a path with any separator names the namespace its levels name |
| CatalogNames.KeySplitsIff | crates/rustlake-api/src/iceberg_rest_catalog.rs:1048-1060 | a table key is taken apart correctly exactly when no `::` begins inside its namespace, whatever the table is called |
| CatalogNames.PrefixesApart | crates/rustlake-api/src/iceberg_rest_catalog.rs:625-640 | clear namespaces never share a prefix |
| CatalogNames.UnclearLeaks | crates/rustlake-api/src/iceberg_rest_catalog.rs:625-640 | a namespace that is not clear puts its tables under another one as well |
| Catalog.RequestKeepsAnchored | crates/rustlake-api/src/iceberg_rest_catalog.rs:568-606 | no request, with any strings, leaves a table without an existing namespace |
| Catalog.NoTableIsLeftBehind | crates/rustlake-api/src/iceberg_rest_catalog.rs:492-868 | the same over every history of a new catalog |
| Catalog.RequestRefines | crates/rustlake-api/src/iceberg_rest_catalog.rs:492-1060 | each request does on the flat maps what it means on the two-level catalog, with the same reply |
| Catalog.ListAllRefines | crates/rustlake-api/src/iceberg_rest_catalog.rs:1048-1060 | listing everything gives exactly the tables of all namespaces |
| Catalog.CreateTableRefines | crates/rustlake-api/src/iceberg_rest_catalog.rs:647-806 | creating a table puts one entry under its own namespace, or is refused for the right reason, and touches no other namespace |
| Catalog.DropNamespaceRefines | crates/rustlake-api/src/iceberg_rest_catalog.rs:568-606 | a namespace is dropped exactly if it exists and has no tables |
| Catalog.RegisterRefines | crates/rustlake-api/src/iceberg_rest_catalog.rs:964-1014 | registering creates the namespace if needed and replaces the table's entry |
| Catalog.CatalogIsTwoLevel | crates/rustlake-api/src/iceberg_rest_catalog.rs:492-1060 | in every history with clear namespaces all replies are those of the two-level catalog |
| Catalog.AgreementNeedsClear | crates/rustlake-api/src/iceberg_rest_catalog.rs:964-1060 | the condition is exact: one registration and one listing tell the two apart otherwise |
| CatalogLaws.CreatedIsLoaded | crates/rustlake-api/src/iceberg_rest_catalog.rs:647-822 | a table is created exactly if it is named, its namespace exists and it does not; then it is loaded and listed with the metadata given, and nothing else changes |
| CatalogLaws.DroppedIsGone | crates/rustlake-api/src/iceberg_rest_catalog.rs:868-902 | a table is dropped exactly if it and its namespace exist; then it is gone and nothing else |
| CatalogLaws.CreatedNamespaceIsKnown | crates/rustlake-api/src/iceberg_rest_catalog.rs:492-534 | a namespace is created exactly if it has levels and does not exist; tables and other namespaces stay |
| CatalogLaws.DroppedNamespaceIsGone | crates/rustlake-api/src/iceberg_rest_catalog.rs:568-606 | a namespace is dropped exactly if it exists and lists no table |
| CatalogLaws.RegisteredIsLoaded | crates/rustlake-api/src/iceberg_rest_catalog.rs:964-1014 | a registration always leaves the namespace and the table with the entry given |
| CatalogLaws.UpdatedIsLoaded | crates/rustlake-api/src/iceberg_rest_catalog.rs:1019-1043 | an update succeeds exactly if the table exists and replaces its entry only |
| CatalogLaws.ReadsAgree | crates/rustlake-api/src/iceberg_rest_catalog.rs:609-866 | in an existing namespace listing, checking and loading agree on which tables exist |
| CatalogLaws.LocationIsUniqueIff | crates/rustlake-api/src/iceberg_rest_catalog.rs:697-701 | exactly when no other table would be kept in the same place |
| CatalogHandlers.CatalogState.AllocSnapshotId | crates/rustlake-api/src/iceberg_rest_catalog.rs:196-200 | no snapshot id is ever handed out twice |
| CatalogHandlers.CatalogState.HandleCreateNamespace | crates/rustlake-api/src/iceberg_rest_catalog.rs:492-534 | every table stays under an existing namespace; for clear namespaces the two-level catalog gains the namespace of those levels, or the request is refused as it would be there |
| CatalogHandlers.CatalogState.HandleDropNamespace | crates/rustlake-api/src/iceberg_rest_catalog.rs:568-606 | every table stays under an existing namespace; for clear namespaces the two-level catalog loses the namespace exactly if it has no tables |
| CatalogHandlers.CatalogState.HandleCreateTable | crates/rustlake-api/src/iceberg_rest_catalog.rs:647-822 | every table stays under an existing namespace; for clear namespaces one table appears under its own namespace of the two-level catalog, or the request is refused as there; exactly a success uses up a snapshot id |
| CatalogHandlers.CatalogState.HandleDropTable | crates/rustlake-api/src/iceberg_rest_catalog.rs:868-902 | every table stays under an existing namespace; for clear namespaces exactly that table leaves the two-level catalog |
| CatalogHandlers.CatalogState.RegisterTable | crates/rustlake-api/src/iceberg_rest_catalog.rs:964-1014 | every table stays under an existing namespace; for clear namespaces the two-level catalog has the entry under its namespace, created if missing |
| CatalogHandlers.CatalogState.UpdateTableMetadata | crates/rustlake-api/src/iceberg_rest_catalog.rs:1019-1043 | every table stays under an existing namespace; for clear namespaces an existing entry of the two-level catalog is replaced, and nothing else |
| CatalogHandlers.CatalogState.ServeAll | crates/rustlake-api/src/iceberg_rest_catalog.rs:492-1060 | over a whole history with clear namespaces all replies are those of the two-level catalog |
| Glob.FitsByPieces | crates/rustlake-api/src/auth.rs:430-436 | replacing each star by some text is the same as finding the pieces in order |
| Glob.Leftmost | crates/rustlake-api/src/auth.rs:452-458 | taking the leftmost occurrence of a middle piece never loses a match |
| Glob.PatternMatches | crates/rustlake-api/src/auth.rs:423-463 | true exactly when some texts for the stars turn the pattern into the table name |
| Glob.CheckPermission | crates/rustlake-api/src/auth.rs:469-512 | access is given exactly when a permission held through a claimed role covers the required one |
| Glob.CoversLaws | crates/rustlake-api/src/auth.rs:469-512 | administrators may do everything, a table permission covers only its own kind of access, `*` every table, a pattern without star one table, and any other permission only itself |
| Base64.SextetsOfTriple | crates/rustlake-api/src/auth.rs:100-118 | the four fields cut from the loop's 24-bit number are the six-bit groups of the bytes |
| Base64.Alphabet | crates/rustlake-api/src/auth.rs:97-120 | the sixty-four characters are those of section 4 of RFC 4648, in order |
| Base64.BytesOfQuad | crates/rustlake-api/src/auth.rs:140-156 | the bytes cut from the decoder's 24-bit number are the eight-bit groups of the characters |
| Base64.RoundTrip | crates/rustlake-api/src/auth.rs:97-158 | decoding inverts encoding for every byte sequence |
| Base64.UrlRoundTrip | crates/rustlake-api/src/auth.rs:76-94 | the URL-safe form is inverted too, through stripping and restoring the padding |
| Base64.TextCarriesBits | crates/rustlake-api/src/auth.rs:97-120 | the characters, six bits each, carry exactly the bits of the data and then zeros, as section 4 of RFC 4648 defines |
| Base64.UrlShape | crates/rustlake-api/src/auth.rs:76-83 | the URL-safe text has ceil(4n/3) characters of the alphabet of section 5 of RFC 4648 |
| Base64.EncodedLength | crates/rustlake-api/src/auth.rs:97-120 | four characters for every three bytes begun |
| Base64.UrlDecodeAccepts | crates/rustlake-api/src/auth.rs:86-94 | a text is rejected exactly for a character outside the two alphabets and `=`, never for its length |
| Base64.Base64Encode | crates/rustlake-api/src/auth.rs:97-120 | the chunk loop computes the encoding |
| Base64.Base64Decode | crates/rustlake-api/src/auth.rs:123-158 | the chunk loop computes the decoding, with its two errors |
| Base64.Base64UrlEncode | crates/rustlake-api/src/auth.rs:76-83 | the encoding with replaced characters and trimmed padding |
| Base64.Base64UrlDecode | crates/rustlake-api/src/auth.rs:86-94 | the decoding after restoring characters and padding |
| Credentials.FramesThenRest | crates/rustlake-api/src/credential_store.rs:63-141 | reading gives back every written entry, whatever follows the frames |
| Credentials.FrameLayout | crates/rustlake-api/src/credential_store.rs:63-97 | a frame is the length in four bytes, the lowest first, the nonce of twelve and the ciphertext |
| Credentials.FramesConcat | crates/rustlake-api/src/credential_store.rs:122-141 | the frames of two lists are those of the whole, each entry encrypted with a draw of its own |
| Credentials.DamageKeepsWhatPrecedes | crates/rustlake-api/src/credential_store.rs:99-119 | damage in a frame leaves exactly the entries before it |
| Credentials.OnlyReadableRemain | crates/rustlake-api/src/credential_store.rs:99-162 | storing or removing over a damaged file, or one written under another key, keeps exactly the entries before the damage and the new one |
| Credentials.CredentialStore.LoadAll | crates/rustlake-api/src/credential_store.rs:99-119 | the parsing loop ends and returns the readable entries |
| Credentials.CredentialStore.SaveAll | crates/rustlake-api/src/credential_store.rs:122-141 | all entries are written or the file stays as it is; afterwards the file holds exactly them |
| Credentials.CredentialStore.StorePassword | crates/rustlake-api/src/credential_store.rs:146-155 | succeeds exactly if every entry can be encrypted and the file replaced; then the id has the password and every other id answers as before; otherwise the file is unchanged |
| Credentials.CredentialStore.RemovePassword | crates/rustlake-api/src/credential_store.rs:158-162 | succeeds on the same terms; then the id has no password and every other id answers as before; otherwise the file is unchanged |
| Credentials.CredentialStore.LoadPassword | crates/rustlake-api/src/credential_store.rs:166-170 | the password found in the file's entries |
| Credentials.PasswordsAreAMap | crates/rustlake-api/src/credential_store.rs:146-170 | after any operations an id has the password last stored for it |
| Credentials.OtherKeysUntouched | crates/rustlake-api/src/credential_store.rs:146-162 | entries of every other key are neither touched nor reordered |
| Credentials.OtherEntriesStay | crates/rustlake-api/src/credential_store.rs:146-162 | entries of other ids and of other kinds stay |
| SourceHash.MultiplyUndone | crates/rustlake-api/src/rust_executor.rs:47-55 | the wrapping multiplication by the prime is undone by its inverse modulo 2^64 |
| SourceHash.MixUndone | crates/rustlake-api/src/rust_executor.rs:47-55 | every hashing step is a bijection of 64-bit states |
| SourceHash.HexSeparates | crates/rustlake-api/src/rust_executor.rs:47-55 | sixteen hexadecimal digits tell all 64-bit states apart |
| SourceHash.HashSource | crates/rustlake-api/src/rust_executor.rs:47-55 | the byte loop computes the hash |
| SourceHash.KnownHashes | crates/rustlake-api/src/rust_executor.rs:47-55 | the empty text and `a` have their published FNV-1a values |
| SourceHash.HexDigits | crates/rustlake-api/src/rust_executor.rs:47-55 | the sixteen digits are those of the number, the most significant first |
| SourceHash.CommonEnding | crates/rustlake-api/src/executable_table.rs:559-566 | a common ending neither makes nor hides a collision |
| SourceHash.OneByteEditIsSeen | crates/rustlake-api/src/executable_table.rs:559-566 | changing one byte, anywhere, always changes the hash |

## Left out

- Network, object storage, databases, query engines, processes, clocks and random numbers: calls into them are parameters, and each may fail.
- JSON, Arrow and Parquet encoding: metadata is a record, a batch is a number of rows with an identity, a JSON row is opaque.
- SHA-256, HMAC and AES-GCM: the cipher is any pair of functions that undo each other.
- ChangeCapture.GapFree: change events are modelled before they become Arrow rows, which drop the key of deleted documents; collection drops and renames are not modelled, and a token must have been obtained.
- CaptureBatches.Start: the whole-database mode takes no snapshot, so a copy is claimed up to date only if it was so with the resume token.
- NotebookPlan.BuildExecutionPlan: when two cells share an id the code can drop one of them, so then only ids are claimed to be run; stage durations and optimization hints are not modelled.
- IcebergRuns.RunKeepsHealthy: one writer at a time; the totals count "replace" snapshots like appends, as the code does, and retaining no snapshot is excluded.
- CompactionRuns.CompactTable: sizes of written files are a parameter; a file that cannot be encoded counts as one whose write is refused.
- CompactionRuns.EarlierRunSurvivesIff: dates are texts of one length, and nobody else writes to the table's prefix between the runs.
- OrphanFiles.RemoveOrphanFiles: the listing of the store and the paths of the manifest lists are parameters.
- TimeTravel.GetDataFilesForSnapshot: called only where the walk ends, since the source loops for ever elsewhere.
- Scheduler.TickLeavesTablesFresh: the clock does not go back and refresh stamps are numbers, where the source compares their text; incremental rewriting, costs and the refresh of materialized views are not modelled.
- VersionHistory.HistoryStaysSound: user edits are steps of the environment; only the code, number and description of a version are kept.
- FilterPushdown.PushdownPreservesMeaning: floating-point literals, projections and the LIMIT clause are not modelled, the remote grammar covers conditions only, and both engines are assumed to compare non-null values alike.
- SessionRuns.SessionIsSafe: query ids are never reused, query history and timings are not recorded, and the shared map is a field of the protocol state, not an object with locks; the steps that hold its lock exclude each other.
- Catalog.RequestRefines: the namespace listing with its parent filter, the catalog configuration, the body of the table metadata and the order in which hash maps are listed are not modelled.
- Base64.Base64Decode: texts are sequences of characters; for characters outside ASCII the source may report the other of its two errors.
- Credentials.FramesThenRest: ciphertexts of 4 GiB and more, whose length does not fit its field, are excluded; file permissions are not modelled.
- SourceHash.OneByteEditIsSeen: nothing is claimed for sources that differ in more than one byte, where collisions exist; the cache of compiled binaries is not modelled.
- Row filters, column lineage, SQL dialect translation, cost estimates and quality-gate arithmetic: best-effort text and floating-point work with no exact meaning to preserve.
