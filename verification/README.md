# Verification of Parseable

A Dafny model of the file-level state machines and selection rules of Parseable, a log store,
with proofs of what they keep. `dafny verify dfyconfig.toml` checks all of it.

## What is modelled

- **Catalog and scans.** `Values` (column values, their order, filter expressions), `TimeFilters`
  (time bounds of a query, manifest selection, the listing split), `Pruning` (column statistics
  and what they rule out), `Grouping` (files by UTC day, in parallel), `ManifestFile` (upsert),
  `Catalog` and `CatalogRuns` (the snapshot pipeline, then every run of it), `SnapshotFigures` (the
  figures and order of its items), `Scan` (the files a
  query reads), `Partitions` (how they are dealt out), `Histogram` (the console's counts),
  `PlanRewrite` (time ranges in query plans).
- **Live tail.** `LiveTailMachine` takes the queues of one pipe step by step, with sends between
  any two receives of a poll; `LiveTail` is the code's own form of channels and registry.
- **Staging.** `StagingMachine` has one step for each file operation and a crash at every point;
  closing, moving, reading, writing, publishing and deleting may each fail. `Staging` has the
  methods of a stream on top of it.
- **Hot tier.** `HotTier`: eviction and quota; `HotScan`: the split of a scan between cache and
  store, and what is on disk when the scan opens it.
- **Filter text.** `SqlText` reads SQL by rules of its own (sections 5.2, 5.3, 8.2 and 8.5 of
  ISO/IEC 9075:1992); `FilterCompiler` writes it, and is proved to be read as meant.
- **Books and alerts.** `Ledger` (metrics and snapshot figures), `AlertTasks` (alerts, task queue,
  runtime), `Notifications` (calls and repeat tasks), `Recovery` (recovery times, statistics).
- `Seqs`, `Sorting` and `MapSums` are the shared vocabulary.

Object store, metastore, clocks, random names, hash-map order and the query engine are parameters
of the functions and methods, or contents of abstract maps. Where the source mutates an object, a
class does; its methods are tied to functions on values, and the theorems are about those.

## What turned out to hold only under a condition

The code is modelled as it is. Each of these is a lemma with the exact condition.

- A run of live tail signals its drops before later records exactly when no poll takes a batch from
  behind a drop whose skip command was not posted when that poll looked for commands
  (`GapSignallingExact`): the failed `try_send` and the posting are separate operations in the source
  (src/livetail.rs:92-96), and so are a poll's two receives.
- A receiver loses its stream to another's drop exactly when both have one id (`NoEarlyEndExact`,
  `NoEarlyEndOverRuns`).
- A query is split exactly between listing and manifests unless, at the split point, its upper bounds
  hold and another of its bounds does not, as with a second lower bound after the first manifests: the
  manifest side drops it. A query for one instant needs the upper bounds to fail just after
  (`SplitExact`).
- A limit of 0 still keeps one file (`ShortestPrefixExact`).
- A later row group, or file, without statistics leaves the old bounds in place, so they hold
  everything only if all have them, the first has none, or they leave nothing out, as false to true
  does (`HullExact`, `ClaimExact`).
- A timestamp literal bounds time whatever column it is compared with (`TimestampColumnExact`).
- An unsigned literal prunes soundly below 2^63 (`UnsignedLiteralExact`).
- A file is listed under the day of its lower bound only, so a row past midnight is missed by
  queries for its own day (`OneDayExact`).
- A path that occurs twice in the first batch of a day is stored twice (`RepeatedPathExact`), and one
  whose changes lie on two days is listed, and read, on both (`PathOnceExact`).
- Histogram bins have the length the comments give only if that length divides the range
  (`IntendedWidthExact`); a file on an inner bin boundary is counted on both sides (`TotalExact`).
- The query range is cut to milliseconds (`WindowExact`, `RoundTripExact`).
- Four steps of staging lose rows (`LosesExact`): a writer that cannot be finished or renamed, a move
  onto an arrow file of the same name in the processing directory, the deletion, with its group, of
  an arrow file the reader could not open, and a crash with rows in open writers. The comment on
  forced flushes speaks of all part files (src/parseable/streams.rs:1004), but those a crash leaves
  behind are never picked up.
- An eviction removes a whole minute directory but credits one file (`CreditExact`), and leaves every
  other listed file on disk exactly when none shares that directory (`EvictionKeepsExact`): a scan
  would read such a neighbour from a path that is gone (`ReadOnceExact`).
- The counter of a hot-tier sync goes stale exactly when a cleanup fails after evicting bytes
  (`StaleCounterExact`), which sound figures do not prevent (`FailedCleanupEvicts`); a file larger
  than the whole quota drives the unsigned `available_size` below zero (`ProcessSound`).
- Filter text is read as meant unless a column's name holds a double quote, a number parses to an
  infinity or NaN or is displayed with another value than its own, or there is no condition at all
  (`FilterReadsExact`): 9007199254740993 is compared as 9007199254740992 (`LargeIntegerChanged`).
- A disabled alert that is set to triggered has no task, and one that is evaluated on request has
  one (`StepExact`). An evaluation that ends while its alert is being disabled can do the former.
- After its first failure an alert task sleeps one minute for good (`RunTask`).
- A resolve can overtake the trigger of a repeat task that has just woken (`WakingMatters`): resolves
  never outnumber triggers exactly when tasks make no round (`StrictBoundExact`), which is when a
  target is configured for one time, the default (`DefaultExact`). A task of zero times runs
  2^64 - 1 rounds (`RoundsExact`).
- Alert histories that share an id overwrite one another in the per-alert map, but not in the
  overall figure (`OverallExact`).

## Model

| member | source | states |
|---|---|---|
| LiveTailMachine.GapSignalling | src/livetail.rs:90-158 | in every run with no poll step between the two halves of a send, senders interleaving freely, no record sent after a dropped one is delivered before a gap that counts the drop |
| LiveTailMachine.GapSignallingExact | src/livetail.rs:90-158 | for every run, cut anywhere: gaps are signalled if and only if no poll takes a batch from behind a drop that was not posted when the poll found no command |
| LiveTailMachine.OvertakenSendHidesGap | src/livetail.rs:91-97 | for every capacity there is a run in which an overtaken send delivers past a drop nobody has been told of |
| LiveTailMachine.EmissionExact | src/livetail.rs:132-158 | a gap is told exactly when the second drain finds no more commands or is cut short, with all it counted, and a batch exactly when a poll that found no command takes one |
| LiveTailMachine.DeliveredInOrder | src/livetail.rs:132-158 | delivered records are a subsequence, in order, of those sent, in every interleaving |
| LiveTailMachine.RowsConserved | src/livetail.rs:90-158 | each record accepted is in exactly one place, queued, owed, being drained, delivered or reported skipped, and the rows add up at every step |
| LiveTailMachine.PostedDropsComeFirst | src/livetail.rs:132-158 | in every run a drop whose skip command was posted before a poll looks for commands is reported before that poll takes any batch |
| LiveTail.Channel.Send | src/livetail.rs:91-97 | a batch is queued if there is room, turned into a skip command of its rows if not, swallowed if the receiver is gone |
| LiveTail.Channel.PollNext | src/livetail.rs:135-158 | a pending skip empties both queues and reports the sum of all their rows; otherwise the oldest batch, the end, or pending |
| LiveTail.Channel.DrainBatches | src/livetail.rs:142-146 | after a skip command every queued batch joins the gap |
| LiveTail.Channel.DrainSkips | src/livetail.rs:146-151 | every further skip command joins it too, and one gap is reported |
| LiveTail.ChannelSignalsGaps | src/livetail.rs:90-158 | whatever sequence of calls made a channel, its gaps are signalled and its rows conserved |
| LiveTail.LiveTail.NewPipe | src/livetail.rs:42-51 | the new sender is registered last for its stream with a live receiver, and nothing else changes |
| LiveTail.LiveTail.DropReceiver | src/livetail.rs:161-170 | senders with the receiver's id leave the stream, others stay |
| LiveTail.LiveTail.Process | src/livetail.rs:53-61 | a batch is sent once to every registered pipe of its stream and to no other |
| LiveTail.AddedServed | src/livetail.rs:42-51 | registering keeps every sender paired with a live receiver, so posting a skip command cannot fail, and unregisters nobody |
| LiveTail.DroppedServed | src/livetail.rs:161-170 | dropping keeps it too, and unregisters exactly the receivers with the same id on the stream |
| LiveTail.NoEarlyEndExact | src/livetail.rs:161-170 | dropping a receiver leaves all others with a sender if and only if none shares its id and stream |
| LiveTail.NoEarlyEndOverRuns | src/livetail.rs:42-170 | over every sequence of new pipes and dropped receivers, each live receiver keeps a sender throughout if and only if none is dropped while a live one has its id and stream |
| TimeFilters.BoundExact | src/query/stream_schema_provider.rs:675-885 | a filter is read off exactly the comparisons of a column with a timestamp, or of the time partition with a text that parses, and admits exactly the instants that compare so with the literal: milliseconds, nanoseconds or the parsed text |
| TimeFilters.ExtractedExact | src/query/stream_schema_provider.rs:887-907 | the bounds of a query admit an instant if and only if it meets every comparison that bounds time |
| TimeFilters.ExtractedAdmit | src/query/stream_schema_provider.rs:675-690 | the time of a row that passes all filters is admitted by the bounds read off them, if the engine's comparisons with nanoseconds and texts go by instant |
| TimeFilters.TimestampColumnExact | src/query/stream_schema_provider.rs:854-885 | a timestamp comparison bounds the time of its rows if and only if its column is the time column |
| TimeFilters.OverlapsExact | src/catalog/snapshot.rs:42-71 | a manifest is kept for a filter if and only if some instant of its range is admitted |
| TimeFilters.Manifests | src/catalog/snapshot.rs:42-71 | the `retain` loops keep, in order, the items every filter overlaps |
| TimeFilters.ReturnListingTimeFilters | src/query/stream_schema_provider.rs:757-808 | without manifests the query's filters go to the listing unchanged; with them the loop yields the listing and manifest filters of the split, and no listing for a query without filters |
| TimeFilters.FirstLowerIsLeast | src/query/stream_schema_provider.rs:762-766 | the split point is the least lower bound of the manifests, and belongs to one of them |
| TimeFilters.ListingNeededExact | src/query/stream_schema_provider.rs:721-745 | a query is taken to overlap data without manifests if and only if there are none, or one of its lower bounds lies before all of them |
| TimeFilters.SplitCovers | src/query/stream_schema_provider.rs:757-808 | an instant the query admits is admitted by the listing filters or by the new manifest filters |
| TimeFilters.SplitDisjoint | src/query/stream_schema_provider.rs:757-808 | with an upper bound in the query, no instant is admitted by both |
| TimeFilters.SplitExact | src/query/stream_schema_provider.rs:757-808 | the two sides together admit exactly the instants of the query, for any list of filters, if and only if one test at the split point passes |
| TimeFilters.RangeSplitExact | src/query/stream_schema_provider.rs:757-808 | for one lower bound before the manifests and one upper bound, the two sides together admit exactly the query's instants |
| Pruning.HullIsFirstWidened | src/catalog/column.rs:61-89 | merged statistics exist if the first has them, and then hold every value any member's bounds hold |
| Pruning.HullIsTight | src/catalog/column.rs:61-89 | each merged bound is the bound of some member |
| Pruning.HullExact | src/catalog/manifest.rs:176-201 | merged bounds hold all values of the kind that the members may hold if and only if the first has no statistics, all have, or the bounds leave nothing out |
| Pruning.ColumnStatistics | src/catalog/manifest.rs:176-201 | the nested loops give, for exactly the columns that occur, the merged statistics and summed sizes of their chunks |
| Pruning.FileCoversRows | src/catalog/manifest.rs:176-201 | a file's column bounds hold the values of every row of every row group, when all row groups carry statistics |
| Pruning.ConstraintsExact | src/query/stream_schema_provider.rs:987-1013 | a comparison is refused for a range if and only if no value in the range satisfies it |
| Pruning.PruningSound | src/query/stream_schema_provider.rs:925-957 | a file pruned by a filter holds no row that passes it |
| Pruning.CanBePrunedExact | src/query/stream_schema_provider.rs:912-957 | a file is pruned by a filter if and only if the filter compares a column with a literal of its kind and no value between that column's bounds passes |
| Pruning.UnsignedLiteralExact | src/query/stream_schema_provider.rs:966-985 | pruning by an unsigned literal never drops a matching row if and only if the literal is below 2^63 |
| Grouping.PartitionIsWholeDay | src/catalog/mod.rs:176-186 | the bounds are those of the instant's whole UTC day, so two partitions are equal or disjoint |
| Grouping.ParallelIsSequential | src/catalog/mod.rs:132-159 | for every splitting into chunks, every bracketing, and empty pieces anywhere, fold and reduce equal the left-to-right group-by |
| Grouping.GroupsByDay | src/catalog/mod.rs:132-159 | each group is exactly the batch's changes of its day, in order |
| ManifestFile.Manifest.ApplyChange | src/catalog/manifest.rs:83-93 | the first file with the change's path is replaced in place, else the change is appended |
| ManifestFile.UpsertContents | src/catalog/manifest.rs:83-93 | with distinct paths: the change is in, every file of another path stays, nothing else appears |
| ManifestFile.UpsertAllContents | src/catalog/mod.rs:308-313 | after any batch, repeated paths included, each file is the last change of its path, or an old file whose path no change has |
| ManifestFile.UpsertPositions | src/catalog/manifest.rs:83-93 | the list of paths changes only by a new path at its end |
| Catalog.StreamCatalog.UpdateSnapshot | src/catalog/mod.rs:108-130 | however the grouping is parallelised, the stored snapshot and manifests become those of the sequential pipeline |
| Catalog.StreamCatalog.ProcessPartitionGroups | src/catalog/mod.rs:213-242 | groups are processed in the map's order, with new items kept aside |
| Catalog.StreamCatalog.HandleExistingPartition | src/catalog/mod.rs:288-362 | a listed manifest of this node is upserted and its figures replaced; otherwise a new one is written |
| Catalog.StreamCatalog.CreateManifest | src/catalog/mod.rs:386-474 | the object holds just the changes, and the entry covers their whole day |
| Catalog.StreamCatalog.RemoveManifests | src/catalog/mod.rs:476-504 | the items whose path names one of the dates leave the snapshot, their order kept |
| Catalog.RangesDisjoint | src/catalog/mod.rs:245-285 | under the invariant no instant is in two listed ranges |
| Catalog.PositionIsListed | src/catalog/mod.rs:254-256 | the position search finds a day if and only if its manifest is listed, and finds that one |
| Catalog.OwnershipExact | src/catalog/mod.rs:245-362 | a group is upserted in place if and only if the first listed manifest that holds its start carries this node's file name and exists; otherwise all listed items and other objects stay as they are, and the group gets a manifest of its own |
| CatalogRuns.UpdatedKeeps | src/catalog/mod.rs:108-383 | one update keeps the invariant and upserts each day's files with the batch's changes of the day, in any order of the groups |
| CatalogRuns.SnapshotInvariant | src/catalog/mod.rs:108-504 | over every run of updates and retentions: whole-day, disjoint ranges, and in each day's manifest each path once, with its latest change of that day |
| CatalogRuns.RepeatedPathExact | src/catalog/mod.rs:288-404 | in any store that keeps the invariant: once a day's group is processed, the day's paths are distinct if and only if the day was listed or the group repeats none |
| SnapshotFigures.UpdatedCarries | src/catalog/mod.rs:108-383 | one update replaces the figures of exactly the days it touches by their counters; listed days keep their places and new ones join at the end in group order |
| SnapshotFigures.SnapshotShows | src/catalog/mod.rs:108-504 | over every run the listed days are those of the batches, less those retention dropped, and each carries the counters of its day as of the last batch that touched it |
| SnapshotFigures.ObjectsExact | src/catalog/mod.rs:386-504 | over every run the manifest objects in the store are exactly those of the listed days: retention leaves none behind |
| Scan.CollectFromSnapshot | src/query/stream_schema_provider.rs:430-489 | without a limit, exactly the candidates, newest manifest entries first; with one, the least non-empty prefix whose rows reach it |
| Scan.Truncate | src/query/stream_schema_provider.rs:470-486 | a prefix that reaches the limit, or all files; no shorter non-empty prefix does |
| Scan.ShortestPrefixExact | src/query/stream_schema_provider.rs:470-486 | the cut is the shortest prefix reaching the limit if and only if the limit is not 0 or there are no files |
| Scan.CandidateExact | src/query/stream_schema_provider.rs:430-469 | a file is read if and only if some selected manifest lists it and no filter prunes it |
| Scan.CandidatesNewestFirst | src/query/stream_schema_provider.rs:439-469 | the candidates come from the newest item to the oldest, and in each manifest from the last file to the first, so these are the files a limit keeps |
| Scan.ScanExact | src/query/stream_schema_provider.rs:430-489 | over every run, a file is read if and only if it is the latest of its path and day, its day overlaps the time filters, and no filter prunes it |
| Scan.NothingMissed | src/query/stream_schema_provider.rs:430-489 | over every run, a row that passes all filters is in a file the query reads |
| Scan.NoRowMissed | src/query/stream_schema_provider.rs:430-489 | the same from the row groups up: statistics hull, grouping, upsert, snapshot filter and pruning together lose no matching row |
| Scan.OneDayExact | src/catalog/mod.rs:162-174 | every query a row answers reads its file if and only if the row falls on the day of the file's lower bound |
| Scan.NothingTwice | src/query/stream_schema_provider.rs:430-489 | over every run no path of a day is read twice |
| Scan.PathOnceExact | src/catalog/mod.rs:108-383 | over every run, a scan of everything reads no path twice if and only if the latest changes of each path lie on one day |
| Partitions.PartitionedFiles | src/query/stream_schema_provider.rs:341-427 | files are dealt out evenly, each to one part; bounds are the merged ones of each column over all files; the row count is the sum |
| Partitions.ClaimExact | src/query/stream_schema_provider.rs:380-410 | the bounds claimed as exact hold all values if and only if the first file with the column has none to claim, all files have statistics, or the bounds leave nothing out |
| Histogram.GetBounds | src/query/mod.rs:509-570 | for every positive number of bins: that many, or one more for a remainder, of equal length, contiguous, covering the whole minutes of the range |
| Histogram.CoversRange | src/query/mod.rs:536-570 | the bins reach from the start to less than a minute before the end |
| Histogram.DefaultBins | src/query/mod.rs:516-533 | by default a bin a minute up to 5 hours, and beyond that the least number of bins of 5 minutes up to a day, of an hour up to 10 days, or of a day that cover the range; the number asked for otherwise |
| Histogram.IntendedWidthExact | src/query/mod.rs:516-533 | default bins have the intended length if and only if it divides the range |
| Histogram.BinDensity | src/query/mod.rs:453-507 | each count is the sum of rows over the files whose lower time bound is in the bin |
| Histogram.BinsHoldingExact | src/query/mod.rs:477-500 | an instant is in some bin if and only if it is in the range, and then in one if and only if it is no inner boundary |
| Histogram.TotalIsWeighted | src/query/mod.rs:469-507 | the counts add up to each file's rows times the number of bins that hold it |
| Histogram.TotalExact | src/query/mod.rs:469-507 | the counts add up to the rows of the range if and only if no non-empty file starts on an inner boundary |
| Histogram.SelectedSuffice | src/query/mod.rs:644-708 | over every run, a bin in the range counts the same over the selected manifests as over all |
| PlanRewrite.TransformMeans | src/query/mod.rs:710-763 | for every plan, subqueries and correlated ones included, the rewritten plan means the plan with its scans restricted to the range where no filter of theirs compares a time column |
| PlanRewrite.ScanExact | src/query/mod.rs:716-789 | a scan with a comparison whose left side is the default time column or the partition is left alone; any other keeps, of all its rows, exactly those whose time lies in the range |
| PlanRewrite.TransformTwice | src/query/mod.rs:710-763 | rewriting twice means the same as once |
| PlanRewrite.WindowExact | src/query/stream_schema_provider.rs:692-718 | the rows kept are those of the exact range if and only if its ends are whole milliseconds or neither range holds one |
| PlanRewrite.RoundTripExact | src/query/stream_schema_provider.rs:675-718 | a time filter written as an expression is read back as itself if and only if its instant is a whole millisecond |
| StagingMachine.RowsConserved | src/parseable/streams.rs:137-400 | in every run, with crashes and failing operations anywhere, a writer that cannot be finished included, copies held plus lost equal pushed plus doubled plus what awaits deletion |
| StagingMachine.NothingVanishes | src/parseable/streams.rs:137-698 | a pushed row that was not lost is in an open writer, an arrow file, a processing directory or a parquet |
| StagingMachine.StoredBeforeDeleted | src/parseable/streams.rs:636-666 | in every run a readable arrow file is deleted only when all its rows are in a parquet that is in place |
| StagingMachine.InitRunClears | src/parseable/streams.rs:230-258 | an init job whose conversions all succeed leaves no convertible file in any processing directory |
| StagingMachine.LosesExact | src/parseable/streams.rs:137-698 | a step loses rows if and only if it is a failed close of a writer with rows, a move onto a file with rows, the deletion of an unread file with rows, or a crash with rows in open writers |
| StagingMachine.ExactlyOnce | src/parseable/streams.rs:137-400 | in runs without crash and failure each row is held exactly once, outside the moments between publishing and deleting |
| StagingMachine.SameParquetExact | src/parseable/streams.rs:75-90 | arrow files go into one parquet if and only if all that follows the first dots of their names, date, hour, minute and partition values, agrees |
| StagingMachine.FrontExact | src/parseable/streams.rs:80-85 | what goes into the parquet's name is all that follows the name's first dot, if and only if that holds another dot |
| Staging.Staging.Push | src/parseable/streams.rs:137-183 | rows are appended to their file's open writer, which is created if missing |
| Staging.Staging.Flush | src/parseable/streams.rs:517-532 | exactly the writers that are forced or not current are closed, no finished file is overwritten, no row changes its count |
| Staging.Staging.CloseWriter | src/parseable/staging/writer.rs:85-111 | a finished file takes its name, or an unused one if that is taken |
| Staging.Staging.MoveArrowFiles | src/parseable/streams.rs:359-391 | exactly the chosen files move to the minute's directory |
| Staging.Staging.GroupArrowFiles | src/parseable/streams.rs:284-330 | the groups hold every convertible file in scope once, under the text after the first dot of its name |
| Staging.Staging.ConvertGroup | src/parseable/streams.rs:633-668 | the parquet holds the rows of the group's files, which are deleted; nothing else changes |
| Staging.Staging.Convert | src/parseable/streams.rs:615-674 | the eligible files leave the staging directory, no convertible file in scope stays unconverted, existing parquets are untouched |
| HotTier.Manager.CleanupOldData | src/hottier.rs:556-626 | the labelled loops over dates and files end in the state of the recursive specification, and report its success |
| HotTier.Manager.ProcessParquetFile | src/hottier.rs:359-414 | a download cleans up when disk or quota is short, and stores file, figures, counter and manifest entry, or nothing |
| HotTier.CleanupTracks | src/hottier.rs:556-626 | from any state: `used + available` is conserved, the disk loses exactly the evicted files' directories, and evicted files are older than the download where both paths name a minute |
| HotTier.OldestFirst | src/hottier.rs:556-626 | all that is evicted comes, by date and path, before all listed files left; success means more room than asked or nothing listed left |
| HotTier.CleanupEnds | src/hottier.rs:556-626 | no file is evicted after one that made enough room; a cleanup succeeds if and only if it evicted and has room or nothing listed is left, and else the oldest listed file left is at least as young as the download, or there was nothing to evict |
| HotTier.DatesCover | src/hottier.rs:602-611 | in every case `used` stays at least the bytes on disk, and stays equal with one file per directory |
| HotTier.CreditExact | src/hottier.rs:602-609 | an eviction keeps `used` equal to the bytes on disk if and only if its directory holds no other bytes |
| HotTier.ProcessSound | src/hottier.rs:359-414 | with counter equal to `used_size` a download keeps the figures exact, and does not underflow if and only if the file is no larger than the quota |
| HotTier.StaleCounterExact | src/hottier.rs:359-414 | after a download the caller's counter is the stored figure if and only if the file was stored or its cleanup evicted no bytes |
| HotTier.StaleCounterSpreads | src/hottier.rs:383-401 | from any counter the stored figures still add up after a download if and only if the counter was the stored figure, a cleanup read it anew, or nothing was stored |
| HotTier.FailedCleanupEvicts | src/hottier.rs:556-626 | a sound tier and an admissible file exist for which the cleanup evicts, fails, and leaves the counter stale |
| HotTier.QuotaInvariant | src/hottier.rs:359-414 | over every run of downloads `used` is the bytes on disk, `used + available` the quota, neither negative |
| HotScan.SplitCounts | src/hottier.rs:479-508 | each path is in the local part as often as the hot tier lists it, else in the remote part as often as the catalog does, never in both |
| HotScan.ReadOnceExact | src/query/stream_schema_provider.rs:192-232 | for distinct wanted paths every wanted file is read exactly once, and nothing else, if and only if each one the hot tier lists is listed once and on disk |
| HotScan.SplitDescends | src/hottier.rs:493-505 | both parts are sorted by descending path |
| HotScan.EvictionKeepsExact | src/hottier.rs:595-611 | an eviction keeps every listed file on disk if and only if no other listed file lies in the evicted directory |
| HotScan.ListsWhatIsThere | src/hottier.rs:359-414 | over every run of downloads the listed paths are exactly the paths on disk, each listed once |
| HotScan.ScansReadOnce | src/hottier.rs:479-508 | over every such run a scan of distinct paths reads each file once: from disk if it is there, and from the store otherwise |
| SqlText.SpacedReads | src/alerts/alerts_utils.rs:438-487 | tokens written one space apart are read back, whatever a literal holds |
| SqlText.QuotedNameMisread | src/alerts/alerts_utils.rs:486 | a double quote in a name changes the names that are read, whatever follows |
| SqlText.InfixPattern | src/alerts/alerts_utils.rs:445-453 | `%v%` matches exactly the texts that contain v |
| SqlText.PrefixPattern | src/alerts/alerts_utils.rs:454-459 | `v%` matches exactly the texts that start with v |
| SqlText.SuffixPattern | src/alerts/alerts_utils.rs:460-465 | `%v` matches exactly the texts that end with v |
| FilterCompiler.EscapeIsPerChar | src/alerts/alerts_utils.rs:489-495 | the four successive replacements escape every character once |
| FilterCompiler.PatternReads | src/alerts/alerts_utils.rs:489-495 | under ESCAPE the escaped value stands for exactly its own characters |
| FilterCompiler.LikeLiteral | src/alerts/alerts_utils.rs:445-465 | the quoted pattern is one SQL string literal that holds the escaped value between its wildcards |
| FilterCompiler.GetFilterString | src/alerts/alerts_utils.rs:361-377 | succeeds if and only if the operator is AND and every condition is valid, with the joined texts; else reports the first invalid condition |
| FilterCompiler.ValidExact | src/alerts/alerts_utils.rs:379-487 | a condition compiles if and only if null tests have no value, list operators are supported, and typed literals are booleans or numerals, infinities or NaN |
| FilterCompiler.ConditionWritten | src/alerts/alerts_utils.rs:438-487 | a condition's text is exactly its tokens, one space apart |
| FilterCompiler.PredicateReads | src/alerts/alerts_utils.rs:438-487 | those tokens are read as the predicate the condition stands for, its number with the exact value of the condition's own text, if and only if the number is finite and displayed with that value |
| FilterCompiler.FilterReadsExact | src/alerts/alerts_utils.rs:361-377 | the whole text is read as the conjunction of its conditions if and only if there is one, no name holds a double quote, and every number is finite and keeps its own value |
| FilterCompiler.LargeIntegerChanged | src/alerts/alerts_utils.rs:471-475 | an equality with 9007199254740993 whose `f64` is displayed as 9007199254740992 is accepted, and is not read as meant |
| FilterCompiler.FilterMeans | src/alerts/alerts_utils.rs:361-487 | then, for every engine and row, WHERE keeps the row if and only if it contains, starts with, ends with or is less than, equal to or greater than the condition's own value as each condition says, with the NOT forms as complements |
| FilterCompiler.InnerExact | src/alerts/alerts_utils.rs:416-421 | what goes into the array is what the brackets hold if the value is bracketed between blanks, and otherwise the value |
| FilterCompiler.ListReadsExact | src/alerts/alerts_utils.rs:410-436 | the text of a condition on a list is read as the test it asks for, equality or all items, negated or not, on the whole inner text, if and only if its name holds no double quote |
| Ledger.LiveMetrics.UpdateStats | src/metadata.rs:37-63 | rows and bytes are added to the current, daily and lifetime figures alike |
| Ledger.LiveMetrics.UpdateStorageMetrics | src/storage/object_storage.rs:167-191 | stored bytes likewise |
| Ledger.LiveMetrics.UpdateDeletedStats | src/stats.rs:111-171 | the figures of the items of the dates move from current to deleted, and their days' counters go |
| Ledger.LiveMetrics.LoadDailyMetrics | src/metadata.rs:170-186 | each item's figures are added to its day's counters |
| Ledger.ForgottenTotal | src/stats.rs:118-140 | dropping the days of some items takes at least what those items claim off the counters |
| Ledger.BooksBalance | src/catalog/mod.rs:189-210 | over every run of ingestion, upload, snapshot, retention and reload: lifetime is current plus deleted, and items claim at most the day counters, those at most the current gauge |
| Ledger.GaugesExact | src/stats.rs:51-171 | over every run the lifetime gauge is the sum of all that was counted, the deleted one the sum of what retired items claimed, the current one their difference, but for what a reload forgot since the last save |
| Ledger.CastsExact | src/stats.rs:51-109 | over every run whose lifetime figures fit a word, no cast to unsigned changes a figure |
| AlertTasks.Alerts.UpdateState | src/alerts/mod.rs:1212-1275 | requests go out exactly for disabling an enabled alert and re-enabling a disabled one; missing alerts and double disabling are refused |
| AlertTasks.Runtime.Receive | src/sync.rs:295-350 | a task is created unless it exists, and deleted if it does |
| AlertTasks.StepExact | src/alerts/mod.rs:1212-1275 | a step keeps the replayed queue equal to the alerts that are not disabled if and only if it neither triggers nor evaluates a disabled alert |
| AlertTasks.TasksAgree | src/alerts/mod.rs:1097-1118 | over every run without such a step, replaying the queue onto the tasks gives those alerts |
| AlertTasks.StatesExact | src/alerts/mod.rs:1212-1275 | over every run an alert is held in the state it was last loaded, added or updated with, unless removed |
| AlertTasks.RunTask | src/sync.rs:305-336 | the loop stops at the first fourth failure in a row, and sleeps the alert's frequency only as long as nothing has ever failed |
| AlertTasks.FailedLastExact | src/sync.rs:305-336 | the count the loop stops by is how many evaluations in a row have just failed |
| Notifications.TimeoutState.Call | src/alerts/target.rs:214-253 | a trigger notifies and starts a timeout unless one runs; within one, only the first resolve after a trigger notifies |
| Notifications.TimeoutState.Wake | src/alerts/target.rs:264-280 | a task that slept on a triggered alert repeats and awaits a resolve; otherwise the timeout ends |
| Notifications.NotifiesExact | src/alerts/target.rs:214-332 | whatever calls, wake-ups and ends of tasks came before: a trigger notifies, and spawns a task, if and only if none has come since the last timeout ended; a resolve if and only if it is outside a timeout, or the first since it was opened or a task last woke on a triggered alert |
| Notifications.TraceExact | src/alerts/target.rs:214-332 | over every interleaving of calls and tasks the shared timeout is that of the run's events |
| Notifications.SentExact | src/alerts/target.rs:214-332 | over every interleaving the triggers sent, and the resolves sent within timeouts, are those the events allow and those tasks send |
| Notifications.RoundsMade | src/alerts/target.rs:255-330 | over every interleaving a task sends once for each time it found its alert triggered, has as many rounds left as it has not made, and is over if and only if it ended or lost its alert |
| Notifications.EndsExact | src/alerts/target.rs:312-332 | a task ends of itself if and only if its configuration is finite and it has made all its rounds |
| Notifications.NotificationBound | src/alerts/target.rs:214-332 | over every interleaving: resolves within timeouts plus an awaited one do not exceed triggers sent and about to be sent; finite tasks repeat at most their rounds; a silenced target has a live task |
| Notifications.WakingMatters | src/alerts/target.rs:264-310 | whenever a repeat task has rounds to make, some run breaks the bound that does not count the triggers about to be sent |
| Notifications.StrictBoundExact | src/alerts/target.rs:214-332 | over every interleaving, resolves never outnumber triggers sent if and only if repeat tasks make no round |
| Notifications.DefaultExact | src/alerts/target.rs:312-332 | they make none if and only if the target is configured for one time |
| Notifications.RoundsExact | src/alerts/target.rs:312-313 | a finite task has one round less than its times if and only if there is at least one |
| Recovery.AlertStateEntry.UpdateState | src/alerts/alert_structs.rs:793-811 | a state is recorded, and reported as changed, exactly when it differs from the last, so neighbours always differ |
| Recovery.GetRecoveryTimes | src/alerts/alert_structs.rs:820-864 | the loop over the sorted history yields the positive whole seconds of its recoveries, in order |
| Recovery.RecoveriesExact | src/alerts/alert_structs.rs:828-861 | what is collected are exactly the triggered states followed, through disabled ones only, by a not-triggered one |
| Recovery.RecoveriesDisjoint | src/alerts/alert_structs.rs:828-861 | of two recoveries one ends before the other begins |
| Recovery.TimesExact | src/alerts/alert_structs.rs:820-864 | a time is reported if and only if it is positive and some recovery lasts that many whole seconds |
| Recovery.TimesFitSpan | src/alerts/alert_structs.rs:820-864 | every time is positive, and their sum is within the span between two instants of the history |
| Recovery.FromRecoveryTimes | src/alerts/alert_structs.rs:636-671 | total, sum, extremes that occur, the median as the mean of the two middle values by rank with half of the times on either side, count·min ≤ sum ≤ count·max |
| Recovery.FromAlertStates | src/alerts/alert_structs.rs:729-753 | the overall statistics are those of all times together; alerts with incidents are counted; each id keeps its last history's statistics |
| Recovery.WithIncidentsExact | src/alerts/alert_structs.rs:729-753 | the alerts counted are the histories that have recoveries |
| Recovery.OverallExact | src/alerts/alert_structs.rs:729-753 | overall incidents equal the sum over the map if and only if no id has two histories with incidents |

## Left out

- Object store, metastore, HTTP, Kafka, disk probing and clocks: abstract maps, inputs or fresh names.
- Arrow, Parquet and DataFusion internals, JSON, Int96 decoding, NaN in statistics: floating statistics are over exact reals.
- Several nodes writing one stream, manifests of older formats, and concurrent read-modify-write of one stream's metadata: updates and retention do not overlap.
- CatalogRuns.SnapshotInvariant: assumes distinct paths among a batch's changes of a day that is not listed yet; what happens otherwise is RepeatedPathExact.
- LiveTailMachine.GapSignalling: assumes that no poll step falls between the two halves of a send; GapSignallingExact says of every other run whether it signals.
- TimeFilters.ExtractedAdmit: nanosecond and text literals are compared by the engine, whose agreement with instants is assumed.
- PlanRewrite.RoundTripExact: filters without a bound are not written as expressions; the source stops there as unimplemented, and no caller passes one.
- PlanRewrite.TransformMeans: filters are conjunctions over rows; qualification of column names by table is not modelled.
- Partitions.PartitionedFiles: the conversion of bounds to the column's arrow type and the Windows path rewriting.
- Staging.Staging.Convert: file operations succeed here; failures and crashes are steps of StagingMachine.
- Staging.Staging.Flush: finishing a writer succeeds here; that it fails is a step of StagingMachine.
- StagingMachine.ExactlyOnce: rows of merged files are kept as a multiset of their counts; the order by time in which they are merged is not modelled.
- Zero-length arrow files, which hold no rows and are removed, and the merged schema file.
- `filename_by_partition`: names are inputs; only what follows their first dot matters.
- One conversion job at a time for each stream: a shutdown conversion that overlaps a regular one is not modelled.
- HotTier.QuotaInvariant: each download starts from the stored figure; when a sync pass goes on with a stale counter is StaleCounterExact. Each file has a directory to itself; what an eviction does otherwise is CreditExact and EvictionKeepsExact.
- HotTier.OldestFirst: assumes that paths name a minute of the date they are filed under.
- Several manifest files in one date directory of the hot tier, and writes that fail half way.
- FilterCompiler.ListReadsExact: the items of a list are pasted into the text as they are, so they are read as one text; what the engine makes of it is not covered.
- Wording of error messages: the methods say when they fail, and which condition is reported.
- SqlText.SpacedReads: words of SQL are read as separated by spaces or quotes, which is how the text is written.
- Where the engine puts a cell in the order of a literal, what text LIKE sees of a cell, and which characters ILIKE identifies: parameters.
- Rounding to floating-point numbers and their display: a parameter, assumed to give a numeral or a word for what is not finite.
- Ledger.BooksBalance: a reload starts a new process, with counters at zero.
- AlertTasks.TasksAgree: update steps are atomic and persistence succeeds; a task that gave up keeps its handle, and is counted as running.
- Sending of notifications, messages, target formats, and the alert state shown to users.
- Recovery.FromRecoveryTimes: mean and median are exact, as sum and count and as twice the median, not floating-point.
- Migration, OpenTelemetry, options, role-based access, correlations, UI and analytics: field rewriting and single checks.
