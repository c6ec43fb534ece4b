# Watertown incremental pipeline: a verified model

Watertown keeps derived data cheap: exports, rollups, query results and format caches are all updated
in part instead of being recomputed. Each of these fast forms must agree with something simple. This
project models them in Dafny and proves that agreement over whole runs, including crashes, tampering,
concurrent readers and failing writers where the code has to cope with them.

| part | files | the simple thing it must equal |
|---|---|---|
| incremental export | Calendar, Partitions, PartitionWriter, Export, ExportRight, ExportRun, HintFlow | all current rows grouped by calendar partition |
| segment store and rollup levels | SizeTier, SegmentCache, SourceSet, ResDirectory, Rollup, LevelBuild, LevelCost, RollupChain | direct aggregation of the current sources |
| incremental query kernel | Aggregate, Locality, Impact, LocalRecipe, Frontier, PartialStore, Planner | full reduction of the new source state |
| transactional materialization | Materialize, MaterializeRun | the source rows |
| sidecar cache | Sidecar, SidecarCache, SidecarWatermark, SidecarRace | the rows of the live versions, each once |
| table renaming | SqlRename | the original query, resolved |

Conventions. Files are maps from names to content and a content digest is the content itself, that is,
an injective function of it. Partials are exact integers instead of floating point. A failing call, a
crash point, a clock or a stream is a parameter. Rows written so far, the content a manifest stands for
and the state a source identity denotes are ghost parameters or specification functions. Event times
and window arithmetic of the query kernel are 64-bit with every checked step written out.

## Findings

Six promises do not hold as the code or its documentation states them. Each has a run or a query that
shows it and the exact condition under which the promise holds.

- A change hint is told once per level, not once per output. Two outputs over one chain of levels can be
  seeded at the same time; once one has been built, the build of another at the same or a finer level is told
  nothing changed, adopts a tree that lacks the change, and records the new digest. From then on the digests
  agree, so no later comparison of them notices, however often it is built (`HintFlow.TwoOutputs`). After each
  build an output is right exactly when what the build left standing agreed with the current rows
  (`HintFlow.TurnRightIff`). What an export can test is whether it carries the digest its level had published;
  if that held at every build since the last full one, the output is right (`HintFlow.RunFaithful`), and a
  row once wrong stays until a build of that output reads its time again (`HintFlow.StaysShown`).
- A file added to an export directory is not noticed. A bounded rebuild lists and serves it
  (`ExportRun.StrayServed`), and later builds adopt it with the rest (`ExportRun.StrayStays`). With truthful
  hints an export is right exactly when no such file is listed: full builds clear them, adopting builds keep
  them, bounded builds keep those that end at or before the changed point and take in all that are unlisted
  (`ExportRun.RunBuilds`).
- The segment cache documents that nothing in it is a dead end. A wipe that dies after the hot file but
  before the manifest is one (`RollupChain.Strand`, `RollupChain.WipeThenBuild`).
- The reduction planner never compares the requested window grid with the contract's. Patching the dirty
  ranges is right for every change exactly when the requested windows tile the contract's
  (`Impact.PatchWorksIff`).
- A read above a version watermark is meant to return only what was written since. Collapsing versions that
  were already read gives their rows a fresh, higher version number, and the next such read returns them again
  (`SidecarWatermark.CollapseRepeats`). It returns exactly the rows written since if and only if no version
  holding rows and read before was merged since (`SidecarWatermark.WatermarkExact`).
- Source replacement in SQL adds no alias, so a qualified reference to `source` stops resolving
  (`SqlRename.SourceReplacementLosesQualifier`, `SqlRename.RewriteExact`).

Partition lists that skip a calendar level are accepted by the code but do not describe intervals
(`Partitions.ExactIffNested`); export runs are proved for the nested lists and for no list at all.

## Model

| member | source | states |
|---|---|---|
| `Calendar.CivilUnique` | crates/provider/src/export.rs:1052-1083 | a valid civil time is the only one with its timestamp: reading the calendar fields of the timestamp built from it gives it back, over leap years and all centuries |
| `Partitions.BoundsExact` | crates/provider/src/export.rs:976-1157 | for year, then quarter or month, then day below month, hour, minute, second with none skipped, the bounds read back from a partition directory contain a time exactly when that time has the same tuple; a dated row always has bounds |
| `Partitions.BoundsReadIff` | crates/provider/src/export.rs:1052-1157 | for such a list, bounds are read back exactly when the year lies between 1 and the last one the date library has and the partition is not the one that holds its last instant |
| `Partitions.NestedExact` | crates/provider/src/export.rs:976-1157 | hence every nested part list has exact intervals, across December and fourth-quarter rollover |
| `Partitions.NotNestedNotExact` | crates/provider/src/export.rs:1088-1157 | any other non-empty list has a concrete pair of times on which the recovered bounds and the tuple disagree |
| `Partitions.ExactIffNested` | crates/provider/src/export.rs:506-512 | the part lists whose directories are exact intervals are the nested ones and no others |
| `PartitionWriter.RunEnd` | crates/provider/src/export.rs:716-777 | the run found in a batch is maximal: one tuple throughout, a different one right after |
| `PartitionWriter.PartitionTree.WriteRun` | crates/provider/src/export.rs:805-859 | appending, closing and opening the single writer keeps the tree equal to the grouping of the rows seen so far; it refuses only a partition that was already on disk |
| `PartitionWriter.PartitionTree.WriteBatch` | crates/provider/src/export.rs:716-777 | a batch is consumed run by run keeping the tree equal to the grouping of the rows seen so far; it stops only at a partition that was already on disk |
| `PartitionWriter.PartitionTree.Stream` | crates/provider/src/export.rs:716-777 | for contiguous rows cut into batches anywhere, the result is the grouping of all rows by tuple, each file written once; it fails exactly when a tuple is already on disk |
| `Export.OrderedIsContiguous` | crates/provider/src/export.rs:676-714 | rows ordered by partition tuple and time form one run per tuple |
| `Export.QueryExists` | crates/provider/src/export.rs:676-714 | for every source, watermark and partition list there are batches that answer the export query: the wanted rows once each, ordered by partition values and then time |
| `Export.PartitionedUnique` | crates/provider/src/export.rs:676-714 | two partitionings of one source have the same files, and each file the same column of times; only rows of one instant can change places |
| `Export.FullRewrite` | crates/provider/src/export.rs:614-664 | a full rewrite leaves, for every tuple of the source and no other, a file with exactly its rows in time order |
| `Export.EntrySpans` | crates/provider/src/export.rs:917-966 | a manifest entry spans exactly the times whose rows belong in its file |
| `Export.KeptIffPast` | crates/provider/src/export.rs:514-548 | a listed partition is reused exactly when every instant of it is before the changed point |
| `Export.FlatNeverKept` | crates/provider/src/export.rs:514-548 | without partitions nothing is reused |
| `Export.StreamAvoidsReused` | crates/provider/src/export.rs:825-832 | over a right tree, no row streamed from the rewrite watermark on falls into a reused partition, so the already-exists error cannot fire |
| `Export.BelowIsReused` | crates/provider/src/export.rs:514-605 | whatever alien files are listed too, no row of the exported source below the watermark is lost: its partition is one of the reused ones |
| `Export.MostlyRight` | crates/provider/src/export.rs:506-512 | a tree that holds the files of the source and some files of other origin is the partitioning of the source exactly when there are none of those |
| `Export.TailStep` | crates/provider/src/export.rs:514-605 | if old and new source agree before the changed point, a tail build of a tree with alien files leaves the files of the new source, the unlisted files it found, those alien files that end at or before the changed point, and nothing else |
| `ExportRun.ExportDir.VerifyAll` | crates/provider/src/export.rs:863-877 | accepts exactly when every listed partition still has its recorded content |
| `ExportRun.ExportDir.Sweep` | crates/provider/src/export.rs:514-580 | keeps exactly the partitions ending at or before the changed point, removes the other listed ones, leaves unlisted files alone, and returns the lowest start among the removed; it fails exactly when a kept one was modified |
| `ExportRun.ExportDir.Discover` | crates/provider/src/export.rs:917-966 | the new manifest describes exactly the files on disk, reusing recorded entries and counting them, and fails exactly when a directory has no date |
| `ExportRun.ExportDir.ReuseAll` | crates/provider/src/export.rs:321-381 | serves exactly the listed files, verified one by one, under the new digest, whatever else lies in the directory; fails exactly when one of them is missing or modified, and then changes nothing |
| `ExportRun.ExportDir.Reconcile` | crates/provider/src/export.rs:514-605 | for any manifest that describes some tree, any hint and any directory: what stands are the listed files ending at or before the changed point and all unlisted ones, the rest is streamed from the watermark; exactly the former are reported as reused; it fails exactly on a damaged reusable partition, a stream that meets a standing file, or a tree that cannot be listed |
| `ExportRun.ExportDir.Rewrite` | crates/provider/src/export.rs:614-664 | after clearing and writing everything again the tree is the grouping of all current rows and the manifest describes exactly it, whatever lay there before; it fails exactly when that tree is empty or has an undated directory |
| `ExportRun.MadeRightIff` | crates/provider/src/export.rs:303-501 | in each mode, what a finished build serves is right exactly when: the listed files were already the current partitioning (adopt); every file left standing is a right file of the current source and no current row below the watermark lies outside them (tail); always (full) |
| `ExportRun.ExportDir.ExportSeries` | crates/provider/src/export.rs:303-501 | for any manifest that describes some tree, whatever the hint is worth and whatever was modified, deleted or added: when the build fails, which tree it leaves, that what it serves is right exactly under the condition of its mode, and that it reuses everything under an unchanged digest or a hint of no change and exactly the past partitions under a bounded hint; a failed build leaves no new partition list |
| `ExportRun.StrayServed` | crates/provider/src/export.rs:578-601 | a file added to the export directory is listed and served by a successful build with a truthful bounded hint |
| `ExportRun.StrayStays` | crates/provider/src/export.rs:355-381 | and from then on no file is unlisted, yet the next build, told truthfully that nothing changed, adopts the directory and serves it again |
| `ExportRun.StepHolds` | crates/provider/src/export.rs:303-501 | one successful build with a truthful hint, from any directory: the listed tree is the files of the source and the alien ones, where a full build clears the alien files, an adopting build keeps them, and a tail build keeps those ending at or before the changed point and takes in every unlisted file |
| `ExportRun.FailureTroubled` | crates/provider/src/export.rs:303-501 | with a truthful hint a build fails only if the source is empty or has an undated row, a listed file is missing or modified, a file waits unlisted, or an alien file is listed |
| `ExportRun.RunBuilds` | crates/provider/src/export.rs:303-501 | over any run of builds with truthful hints, whatever happens to the files in between, every success leaves the right tree exactly when no alien file is listed, and the first failure is of a build in trouble from the start |
| `ExportRight.PartitionDeterminesSource` | crates/provider/src/export.rs:506-512 | one tree is the partitioning of at most one source |
| `ExportRight.RestRightIff` | crates/provider/src/export.rs:514-605 | standing files plus the stream from the watermark are the partitioning of the current source exactly when every standing file is one of its files and every row below the watermark is in one; nothing else is assumed |
| `ExportRight.TailSplices` | crates/provider/src/export.rs:514-605 | a tail upon a right and untouched tree, whatever the hint is worth, meets nothing in its way and shows the old rows below the watermark and the current ones from it on |
| `ExportRight.SpliceRight` | crates/provider/src/export.rs:514-605 | that is the current source exactly when the two agree below the watermark |
| `HintFlow.AnchoredIsTruthful` | crates/provider/src/factory/temporal_reduce/mod.rs:1398-1448 | for a tree seeded from the very artifacts the level had published, the published hint is truthful, whichever change it reports |
| `HintFlow.ExportLevel` | crates/provider/src/export.rs:355-392 | building any resolution of a chain and exporting it into any directory: when it fails, what it leaves, when that is right and how much it reuses; a full build, or an anchored one over a seeded tree without unlisted files, leaves a tree seeded from what was just built |
| `HintFlow.BuildShows` | crates/provider/src/export.rs:303-501 | an output nobody touched shows after a build the current rows, the rows it had, or a splice of the two, by the mode its hint selects, and the build fails exactly when those rows are none or undated |
| `HintFlow.TurnRightIff` | crates/provider/src/export.rs:303-501 | after its turn an output shows the rows of its level exactly when: full; or adopting and it showed them already; or a tail, and it agreed with them below the watermark |
| `HintFlow.TurnFaithful` | crates/provider/src/factory/temporal_reduce/mod.rs:1398-1448 | a full turn, or an anchored turn of an output that showed what its digest stands for, leaves it right and showing what its digest stands for |
| `HintFlow.RunFaithful` | crates/provider/src/factory/temporal_reduce/mod.rs:1337-1396 | over any run of any number of outputs at any resolutions of one chain, in any order: an output whose every build since its last full one was anchored shows the rows of its digest, and was right at each of its builds |
| `HintFlow.StaysShown` | crates/provider/src/factory/temporal_reduce/mod.rs:1337-1396 | over any such run, what an output shows of a row does not change until one of its own builds reads that time again: a full one, or a tail whose watermark is at or below it |
| `HintFlow.PlayTurn` | crates/provider/src/factory/temporal_reduce/mod.rs:1337-1396 | one build of one of many outputs raises the levels up to its own, leaves coarser levels and other outputs alone, and shows what its hint makes it show |
| `HintFlow.RunOutputs` | crates/provider/src/factory/temporal_reduce/mod.rs:1337-1396 | building outputs over a chain from nothing is such a run, and when no process dies it stops only at a build whose rows are none or undated |
| `HintFlow.TwoOutputs` | crates/provider/src/factory/temporal_reduce/mod.rs:1788-1818 | for any two sources with different rows: two outputs built from the first, one at a level at least as coarse as the other, the coarser advanced to the second, then the finer built, and built again any number of times: every build succeeds, every one but the first is anchored, and it still shows the old rows |
| `SizeTier.SizeClass` | crates/provider/src/size_tier.rs:33-44 | the loop returns the unique power-of-ten class of the size, at most nineteen |
| `SizeTier.ChosenUnique` | crates/provider/src/size_tier.rs:71-106 | the specification of a choice admits one answer: the oldest ten of the oldest full same-class run, else the leftmost cheapest window, else none |
| `SizeTier.FirstFullRun` | crates/provider/src/size_tier.rs:71-88 | the scan finds the oldest start of ten adjacent segments of one class, or that there is none |
| `SizeTier.CheapestWindow` | crates/provider/src/size_tier.rs:89-106 | the backstop finds the leftmost of the cheapest windows |
| `SizeTier.ChooseMergeWindow` | crates/provider/src/size_tier.rs:71-106 | together they return that choice, and a window always holds at least two segments |
| `SizeTier.RunMergesUp` | crates/provider/src/size_tier.rs:33-44 | ten non-empty segments of class c merge into class exactly c + 1 |
| `SizeTier.WriteAmplification` | crates/provider/src/size_tier.rs:71-88 | over any run of appends and same-class merges, bytes rewritten never exceed class times bytes appended, so at most nineteen times |
| `SizeTier.MergeKeepsDescending` | crates/provider/src/size_tier.rs:71-88 | merging the oldest full run keeps classes non-increasing from oldest to newest |
| `SizeTier.NinePerClass` | crates/provider/src/size_tier.rs:71-88 | a descending list without a full run has at most nine segments per class |
| `SizeTier.LogarithmicSegments` | crates/provider/src/partial_aggregate_cache.rs:220-226 | appending one class and compacting to a fixpoint keeps at most nine segments per class up to the class of the total, plus the one just appended |
| `SegmentCache.ReadExact` | crates/provider/src/partial_aggregate_cache.rs:491-534 | a file list that holds every key exactly once reads as that content |
| `SegmentCache.ReadTwo` | crates/provider/src/partial_aggregate_cache.rs:491-534 | reading two files as one gives the reduction of the rows behind both, so a key in both counts the rows of both |
| `SegmentCache.ServedExactly` | crates/provider/src/partial_aggregate_cache.rs:491-534 | an ordered ladder of segments below the watermark plus the hot file above it yields every bucket partial exactly once |
| `SegmentCache.CompactKeepsSealed` | crates/provider/src/partial_aggregate_cache.rs:228-240 | replacing a window of segments by their union keeps the ladder ordered, disjoint, covering the same span with the same partials |
| `SegmentCache.SealKeepsSealed` | crates/provider/src/factory/temporal_reduce/mod.rs:1498-1602 | freezing the buckets below a new watermark into one segment keeps the ladder faithful, also when there is nothing to freeze |
| `SegmentCache.PrefixKeepsSealed` | crates/provider/src/factory/temporal_reduce/mod.rs:2251-2320 | cutting a straddling segment at the dirty bucket keeps everything below it |
| `SegmentCache.UnsealKeepsSealed` | crates/provider/src/factory/temporal_reduce/mod.rs:4074-4131 | dropping the segments at or past the dirty bucket leaves a faithful ladder under the lowered watermark |
| `Aggregate.MergeLaws` | crates/query-foundation/src/partial.rs:55-62 | merging partials is commutative and associative with the empty partial as unit, and adds row counts |
| `Aggregate.FoldConcat` | crates/query-foundation/src/partial.rs:55-62 | reducing a concatenation is merging the two reductions, key by key |
| `Aggregate.KeyMeans` | crates/query-foundation/src/partial.rs:452-471 | a row has a key exactly when it has its group and lies in the window that starts at its bucket |
| `Aggregate.MembersCount` | crates/query-foundation/src/partial.rs:42-62 | the rows of a key are the rows inside its window and group, each as often as it occurs |
| `Aggregate.ValuesMean` | crates/query-foundation/src/partial.rs:42-52 | the values of rows are those that are not null |
| `Aggregate.FoldMeans` | crates/query-foundation/src/partial.rs:42-62 | the partial of a key holds, of the rows of its window and group: their number, how many have a value, the sum, the least and the greatest value |
| `Aggregate.ReduceMeans` | crates/query-foundation/src/partial.rs:42-62 | a reduction has exactly the keys that have rows, each with that summary of them |
| `Aggregate.RefinesIff` | crates/query-foundation/src/partial.rs:435-450 | the divisibility tests hold exactly when no window of the finer grid straddles an edge of the coarser |
| `Aggregate.RollUpIsReduce` | crates/query-foundation/src/partial.rs:435-479 | folding a finer reduction to any coarser aligned grid is the direct coarser reduction |
| `Aggregate.FoldTo` | crates/query-foundation/src/partial.rs:452-471 | the entry-by-entry fold loop computes that roll-up in any order |
| `SourceSet.DirtyLoUs` | crates/provider/src/factory/temporal_reduce/mod.rs:4033-4058 | the loop returns the lowest time any added, removed or re-ranged version may hold, or nothing when some version has no recorded range |
| `SourceSet.DirtyLoUnique` | crates/provider/src/factory/temporal_reduce/mod.rs:4033-4058 | that answer is determined by the two source sets |
| `SourceSet.NotedIff` | crates/provider/src/factory/temporal_reduce/mod.rs:4033-4058 | a version takes part exactly when the two sets record something else of it, and some version does exactly when the sets differ |
| `SourceSet.UnreachedBuckets` | crates/provider/src/factory/temporal_reduce/mod.rs:4033-4058 | buckets below the bucket of the dirty point reduce to the same partials before and after |
| `SourceSet.PruningLosesNothing` | crates/provider/src/factory/temporal_reduce/mod.rs:1864-1873 | reading only versions whose recorded maximum reaches the watermark reduces to the same partials in every bucket from it on |
| `SourceSet.RetainedIff` | crates/provider/src/factory/temporal_reduce/mod.rs:1864-1873 | a read bounded to a second skips exactly the versions whose last recorded instant lies in an earlier second |
| `SourceSet.AllRowsHold` | crates/provider/src/factory/temporal_reduce/mod.rs:1727-2010 | the rows behind a set of versions are those of each version once, in whatever order they are listed |
| `SourceSet.DirectMeans` | crates/provider/src/factory/temporal_reduce/mod.rs:1727-2010 | what is served for a window and group is the number, sum, least and greatest of the rows of all versions that lie in it |
| `SourceSet.GroupBy` | crates/provider/src/factory/temporal_reduce/mod.rs:1727-2010 | the row-by-row grouping equals the direct reduction of all rows |
| `ResDirectory.ResDir.WriteAtomic` | crates/provider/src/version_cache.rs:423-457 | a crash leaves the named file untouched; otherwise it holds the new content and nothing else changed |
| `ResDirectory.ResDir.Wipe` | crates/provider/src/partial_aggregate_cache.rs:483-489 | a crash part way only removes files, in any order |
| `ResDirectory.ResDir.ReadSegments` | crates/provider/src/partial_aggregate_cache.rs:491-534 | reads every named segment or reports that one is missing |
| `ResDirectory.ResDir.Serve` | crates/provider/src/partial_aggregate_cache.rs:393-417 | on any directory reachable through crashes: rows served are the direct aggregation of that manifest's source, each partial read once; rebuild exactly when there is no manifest or the hot file disagrees with it; corruption exactly when a named file is missing |
| `ResDirectory.DiskPublish` | crates/provider/src/partial_aggregate_cache.rs:446-456 | replacing the manifest by one whose segments are on disk keeps the directory readable |
| `Rollup.PartitionClean` | crates/provider/src/factory/temporal_reduce/mod.rs:4074-4131 | splits the segments into those entirely below the dirty bucket and the rest, in order |
| `Rollup.NewWatermark` | crates/provider/src/factory/temporal_reduce/mod.rs:4074-4131 | the new watermark is the dirty bucket or the lowest start dropped, and undefined exactly when the whole axis is dirty |
| `Rollup.UnsealFrom` | crates/provider/src/factory/temporal_reduce/mod.rs:4074-4131 | what remains sealed is faithful to the new content, nothing at or past the dirty bucket stays frozen, no bucket below it is opened without need, and the bytes dropped are counted as hot again |
| `Rollup.PreservePrefix` | crates/provider/src/factory/temporal_reduce/mod.rs:2251-2320 | rewrites the one straddling segment to its clean prefix under a fresh name, crash-safe, failing only when that segment is missing; no straddling segment with a clean row is left, and every name is in the list or set aside for deletion |
| `Rollup.Unseal` | crates/provider/src/factory/temporal_reduce/mod.rs:2251-2320 | both steps together leave a working manifest; the remaining segments are present exactly when the clean ones were; every bucket sealed below the dirty point stays sealed; the hot bytes grow by exactly the bytes of the segments no longer named; a change past the watermark reopens nothing |
| `LevelBuild.Seal` | crates/provider/src/factory/temporal_reduce/mod.rs:1498-1602 | sealing happens exactly when enough bytes or days are open and a full window is old enough, then up to the last window that is; it keeps the manifest faithful and readable across a crash at any step |
| `LevelBuild.SealPromise` | crates/provider/src/factory/temporal_reduce/mod.rs:1520-1549 | no bucket that may still be late is sealed, and what stays open is short, or no full window is old enough; an open part over the target size is sealed whenever a full window is old enough |
| `LevelBuild.Compact` | crates/provider/src/factory/temporal_reduce/mod.rs:1627-1710 | compaction is a trail of merges, each replacing the window the policy chooses for the sizes of that moment by one segment over its span; it stops where the policy chooses none, with at most one or the allowed number of segments, the same content, and every superseded name listed |
| `LevelBuild.MergeWindow` | crates/provider/src/factory/temporal_reduce/mod.rs:1640-1700 | one merge writes the union of the window under a fresh name, keeps the content, and fails exactly when an input is missing |
| `LevelBuild.RemoveSuperseded` | crates/provider/src/partial_aggregate_cache.rs:468-480 | deletes exactly the superseded segment files; crashing anywhere, it never touches a file the published manifest names |
| `LevelBuild.Publish` | crates/provider/src/factory/temporal_reduce/mod.rs:1498-1602 | the manifest is durable before anything it stops naming is deleted; the served content is that of its sources, and without a crash it fails exactly when a segment it names is missing |
| `LevelBuild.Advance` | crates/provider/src/factory/temporal_reduce/mod.rs:1498-1602 | seal, write hot, compact, publish, clean up: the served content is the direct reduction of the current sources; without a crash it fails exactly when a needed segment is missing |
| `LevelBuild.BuildFromSource` | crates/provider/src/factory/temporal_reduce/mod.rs:1727-2010 | from any crash-reachable directory a build yields the direct reduction of the current sources, publishes them, and reports a truthful change: none exactly when its output is the one published before, everything when it starts over or a changed version has no recorded start, else from the window of the dirty point on; a change past the sealed part only adds a seal and the merges the policy chooses; no segment file it gave up or made in between is left; without a crash it succeeds exactly when the segments it must read are there; an up-to-date level is served without writing |
| `LevelBuild.Open` | crates/provider/src/factory/temporal_reduce/mod.rs:1788-1870 | reopening from the dirty bucket, or wiping when nothing usable is there, leaves a manifest faithful to the current sources and the exact change; a crash at any step leaves a sound directory |
| `LevelBuild.ManifestServes` | crates/provider/src/partial_aggregate_cache.rs:491-534 | a valid manifest's files read as the direct reduction of its sources |
| `LevelCost.GrewGrows` | crates/provider/src/factory/temporal_reduce/mod.rs:1498-1710 | a build that continues a manifest is a growth of its segment list: at most one sealed segment of its file size, then merges the policy chose |
| `LevelCost.LevelAmplification` | crates/provider/src/size_tier.rs:71-88 | over any run of builds of a level, the bytes its merges rewrite are at most the size class of the bytes sealed times those bytes, so at most nineteen times |
| `LevelCost.LevelCount` | crates/provider/src/partial_aggregate_cache.rs:220-226 | over any run of builds sealing segments of one class, after each build the level has at most nine segments for each class up to that of its bytes, and never exceeded the limit |
| `RollupChain.CoarseTransfers` | crates/provider/src/factory/temporal_reduce/mod.rs:2035-2226 | the lower of the finer level's change and the source change is enough to keep the rest of a coarser level sealed |
| `RollupChain.MinChangeMeans` | crates/provider/src/factory/temporal_reduce/mod.rs:341-354 | the combined change reaches exactly the times either change reaches |
| `RollupChain.AlignChangeMeans` | crates/provider/src/factory/temporal_reduce/mod.rs:2128-2156 | the aligned change reaches exactly the windows in which the change reaches a time |
| `RollupChain.SourceChangeMeans` | crates/provider/src/factory/temporal_reduce/mod.rs:2128-2146 | the change of the sources reaches exactly the windows in or after the one where some added, removed or re-ranged version begins |
| `RollupChain.FinerIsEnough` | crates/provider/src/factory/temporal_reduce/mod.rs:2035-2226 | a coarser level folded from the finer level's output is the direct reduction of the sources |
| `RollupChain.Prepare` | crates/provider/src/factory/temporal_reduce/mod.rs:2035-2226 | reopening or wiping leaves the coarser level ready to be folded, with a truthful change; without a crash it is then complete exactly when the members it must read were there |
| `RollupChain.BuildFromFiner` | crates/provider/src/factory/temporal_reduce/mod.rs:2035-2226 | a coarser build yields the direct reduction of the current sources with a truthful change, which is everything when it starts over and else the lower of the finer and the source change; folded already from the same finer output it reports no change and the same output; no segment file it gave up is left; without a crash it succeeds exactly when the members it must read are there |
| `RollupChain.ReuseCoarse` | crates/provider/src/factory/temporal_reduce/mod.rs:2035-2226 | an unchanged finer output lets the coarser level be re-adopted for the new sources without rereading |
| `RollupChain.BuildChain` | crates/provider/src/factory/temporal_reduce/mod.rs:1337-1396 | building up to any level gives that level's direct reduction, leaves coarser levels alone, and reports a change that is true of what the level had published; over levels settled on the same sources it reports no change and the same output, at every resolution; if nothing dies and no file is missing it always succeeds |
| `RollupChain.History` | crates/provider/src/factory/temporal_reduce/mod.rs:1337-1396 | over any history of requests, sources, policies and crashes, each successful build serves the direct reduction of its own sources; if none dies, every build succeeds |
| `RollupChain.Strand` | crates/provider/src/partial_aggregate_cache.rs:44-46 | false as documented: a rebuild under another lateness that dies after deleting the hot file leaves a level that is up to date by its manifest and fails every further build of the same sources under the first policy |
| `RollupChain.WipeThenBuild` | crates/provider/src/partial_aggregate_cache.rs:483-489 | after a wipe that may die anywhere, a build of any sources succeeds exactly when the manifest went, is unusable or disagrees with the hot file, or everything the build reads survived; a failure for the same sources changes nothing |
| `Locality.NormalizedUnique` | crates/query-foundation/src/locality.rs:432-450 | two normalized lists covering the same points are the same list |
| `Locality.NormalizeIntervals` | crates/query-foundation/src/locality.rs:432-450 | the result covers exactly the same points and is sorted with a real gap between neighbours, without overflow at the largest time |
| `Impact.ExpandExact` | crates/query-foundation/src/locality.rs:395-430 | the expansion is the smallest block of whole windows around the interval; it errs exactly when one of the alignment steps leaves 64 bits |
| `Impact.AffectedOutputRanges` | crates/query-foundation/src/locality.rs:353-392 | dirty ranges are normalized and cover exactly the points some relevant change reaches; no impact, complete impact and overflow each have their reason |
| `LocalRecipe.PointwiseRanges` | crates/query-foundation/src/locality.rs:376-382 | for a row-local or timestamp-local contract the ranges hold a time exactly when some relevant bounded change holds it |
| `LocalRecipe.LocalPatch` | crates/query-foundation/src/locality.rs:203-207 | for any recipe whose output at a time depends on the rows of that time: the old output outside the ranges and the new one inside are together the new output |
| `LocalRecipe.LocalPatchIff` | crates/query-foundation/src/locality.rs:376-382 | a set of ranges is right for every such recipe and every change the extents allow exactly when it covers every declared time |
| `LocalRecipe.MappedLocal` | crates/query-foundation/src/locality.rs:203-207 | a recipe that maps rows one by one, keeping their times, is such a recipe |
| `Impact.DirtyIsWhole` | crates/query-foundation/src/locality.rs:395-430 | a point is dirty exactly when the start of its request window is: dirty ranges are unions of whole windows |
| `Impact.CleanWindowKeeps` | crates/query-foundation/src/locality.rs:353-392 | a window outside the dirty ranges keeps its aggregate |
| `Impact.DirtyWindowRecomputes` | crates/query-foundation/src/orchestration.rs:136-163 | the raw rows inside the dirty ranges are all the rows of the dirty windows and of no other |
| `Impact.IncrementalIsFull` | crates/query-foundation/src/orchestration.rs:136-163 | patching only dirty windows from new raw rows gives the full reduction of the new state, whenever the declared extents cover every differing row |
| `Impact.NoImpactNoChange` | crates/query-foundation/src/locality.rs:368-392 | changes without extent leave the reduction of every grid as it was |
| `Impact.CutFails` | crates/query-foundation/src/orchestration.rs:68-163 | the planner does not compare the request grid with the contract grid: when a contract window edge cuts a request window, a change of one row with 64-bit times defeats the patch of its dirty windows |
| `Impact.PatchWorksIff` | crates/query-foundation/src/orchestration.rs:136-163 | patching dirty windows is right for every change and every pair of source states exactly when the request windows tile the contract windows |
| `Frontier.Settle` | crates/query-foundation/src/frontier.rs:76-97 | accepts exactly a settled position at or below an existing observed position |
| `Frontier.ClassifyByTimes` | crates/query-foundation/src/frontier.rs:114-171 | append, unsealed disorder and each reason of refusal are equivalent to a condition on the times in the change; the frontier overflow error is unreachable and saturation never changes a verdict |
| `Frontier.RepairSplits` | crates/query-foundation/src/frontier.rs:153-170 | a repair's retroactive and unsealed parts split the change at the frontier with nothing lost or shared |
| `PartialStore.PatchHonestIff` | crates/query-foundation/src/partial.rs:576-680 | a patched store holds full reductions exactly when the patch turns the old reduction into the new one |
| `PartialStore.RetagHonestIff` | crates/query-foundation/src/partial.rs:620-635 | moving manifests to a new state without buckets is honest exactly when none of their reductions changed |
| `PartialStore.CompatibleIff` | crates/query-foundation/src/partial.rs:707-721 | a stored state can be folded to the request exactly when it is of the same identity, finer, its windows tile the requested ones and the origins are a 64-bit distance apart |
| `PartialStore.BucketAlignedIff` | crates/query-foundation/src/partial.rs:756-768 | a bucket is aligned exactly when some row falls into it and its offset from the origin is a 64-bit value |
| `PartialStore.PatchPartials` | crates/query-foundation/src/partial.rs:654-670 | the loop applies every update and counts upserts and effective removals exactly |
| `PartialStore.FoldManifest` | crates/query-foundation/src/partial.rs:435-479 | folding yields a valid manifest of the roll-up and errs exactly when a bucket leaves 64 bits |
| `PartialStore.PartialStateStore.Publish` | crates/query-foundation/src/partial.rs:570-572 | replaces the manifest of that width and keeps the store honest |
| `PartialStore.PartialStateStore.ApplyPatch` | crates/query-foundation/src/partial.rs:576-680 | accepted exactly for an authoritative manifest of the prior state; advances it, drops stale resolutions and reports exact work; a refused patch changes nothing |
| `PartialStore.PartialStateStore.Candidate` | crates/query-foundation/src/partial.rs:707-721 | finds the coarsest stored width that folds to the request, if any |
| `PartialStore.PartialStateStore.RawCause` | crates/query-foundation/src/partial.rs:737-752 | names the most specific reason nothing stored can serve |
| `PartialStore.PartialStateStore.Resolve` | crates/query-foundation/src/partial.rs:683-753 | a reused or folded answer is the full reduction of the requested identity with exact work counters; it is reused exactly when stored, raw input is asked for exactly when nothing stored is or folds to it, and it errs exactly on a non-positive width or an overflowing fold of the coarsest candidate |
| `Planner.AsksByTimes` | crates/query-foundation/src/orchestration.rs:172-196 | an added chunk asks for repair exactly when it holds a settled time, for append exactly when all its times are unseen, else for disorder; any other kind asks for a membership patch; an empty added chunk asks for nothing |
| `Planner.ClassifyRelevant` | crates/query-foundation/src/orchestration.rs:167-197 | fails exactly when some relevant change is refused; otherwise keeps the strongest reason asked for |
| `Planner.StrongestMeans` | crates/query-foundation/src/orchestration.rs:199-216 | repair outranks membership, membership outranks disorder, and append is chosen only when nothing else is asked for |
| `Planner.StrongestAnyOrder` | crates/query-foundation/src/orchestration.rs:199-216 | the kept reason does not depend on the order of the changes |
| `Planner.TiledDirtySuffices` | crates/query-foundation/src/orchestration.rs:136-163 | when request windows tile contract windows, any patch recomputed for the dirty ranges completes the reduction |
| `Planner.ReuseState` | crates/query-foundation/src/orchestration.rs:92-135 | with nothing relevant changed: unresolved exactly when the store cannot answer, unpatched exactly for an empty new identity, raw exactly when nothing is stored, and otherwise the new state is answered exactly and without raw input |
| `Planner.PlanReduction` | crates/query-foundation/src/orchestration.rs:68-163 | the store stays honest; each of the eight errors and each decision has its exact condition, and the two missing-reason errors never occur; reuse is the full reduction of the new state; dirty ranges are exact with the strongest reason and the right prior |
| `Planner.DirtyPatchLands` | crates/query-foundation/src/orchestration.rs:136-163 | applying the recomputed dirty windows, even none, leaves an honest store that answers the request at the new state exactly |
| `Impact.EmptyPatchNoChange` | crates/query-foundation/src/partial.rs:620-635 | a recomputed patch with nothing in it means no row differs between the two states |
| `Materialize.ValidatePublication` | crates/query-foundation/src/materialize.rs:459-480 | accepts exactly the non-empty normal forms |
| `Materialize.PublishNormalized` | crates/query-foundation/src/materialize.rs:459-480 | a non-empty list of intervals, once normalized, is always accepted and admits exactly its own points |
| `Materialize.ValidateBatch` | crates/query-foundation/src/materialize.rs:482-503 | accepts exactly when every event time lies inside the publication |
| `Materialize.EventTimeBounds` | crates/query-foundation/src/materialize.rs:549-557 | the bounds are tight: both ends occur and every time lies between |
| `Materialize.UnionBounds` | crates/query-foundation/src/materialize.rs:559-561 | the union of two tight bounds is tight for both batches together |
| `Materialize.Consume` | crates/query-foundation/src/materialize.rs:385-409 | a batch is written exactly when it is legible, inside the publication and the write succeeds; the running bounds stay tight |
| `Materialize.Drain` | crates/query-foundation/src/materialize.rs:377-410 | all rows are staged with exact counts and bounds exactly when every batch is acceptable and no write fails |
| `Materialize.MaterializeStream` | crates/query-foundation/src/materialize.rs:350-449 | each begun stage ends in exactly one commit or one abort, commits only after everything was written and closed, publishes exact metadata, and on any failure nothing becomes visible; succeeds exactly when nothing fails; the non-empty NoOutput error never occurs; a failing abort is reported on top |
| `MaterializeRun.SelectedIsPermitted` | crates/query-foundation/src/materialize.rs:253-285 | what the plan reads is what its publication admits, and the publication is well formed |
| `MaterializeRun.PlanByTimes` | crates/query-foundation/src/materialize.rs:253-285 | an extent past everything observed is appended, admitting exactly what is newer and reading it up to the end of the extent; any other is replaced, reading and admitting exactly its own times |
| `MaterializeRun.PlanEmpty` | crates/query-foundation/src/materialize.rs:253-285 | an empty extent reads and admits nothing |
| `MaterializeRun.AppendRightIff` | crates/query-foundation/src/materialize.rs:260-269 | an append publishes the new source exactly when nothing already published lies in the range it reads |
| `MaterializeRun.StepRefines` | crates/query-foundation/src/materialize.rs:253-285 | every planned change, append, disorder, repair or empty replacement, turns output equal to the old source into output equal to the new one |
| `MaterializeRun.MaterializeChange` | crates/query-foundation/src/materialize.rs:350-449 | one change through plan, stream and commit: success publishes the new source, failure changes nothing, and without faults only a refused classification fails |
| `MaterializeRun.MaterializeAll` | crates/query-foundation/src/materialize.rs:222-285 | after any sequence of changes the published output equals the source at the last success |
| `Sidecar.NameInjective` | crates/provider/src/version_cache.rs:175-184 | a sidecar name determines the version, its content key, the content hash where both have one and, in a shared directory, the node |
| `Sidecar.OwnedExactly` | crates/provider/src/version_cache.rs:191-202 | a node owns its own sidecars and, in a shared directory, no other node's |
| `SidecarCache.Cache.Stale` | crates/provider/src/version_cache.rs:219-238 | lists exactly the node's own files that no live version names, each once and in name order |
| `SidecarCache.Cache.Reconcile` | crates/provider/src/version_cache.rs:253-274 | succeeds exactly when no stale file is stuck; then removes exactly the stale files, reports each once in order, touches nothing else and returns the live versions without a file; a failure removes only stale files |
| `SidecarCache.Cache.WriteSidecar` | crates/provider/src/version_cache.rs:303-319 | a crash leaves only a temporary file; otherwise the sidecar is complete |
| `SidecarCache.Cache.Fill` | crates/provider/src/format_cache.rs:124-136 | writing the missing versions, crashing anywhere, keeps every sidecar honest |
| `SidecarCache.Cache.ReadThrough` | crates/provider/src/format_cache.rs:100-118 | after reconcile and fill the directory is a projection of the live versions and the named files read exactly their rows |
| `SidecarCache.CachedSetFor` | crates/provider/src/version_cache.rs:281-297 | every retained live version is named once, either as a file or as missing |
| `SidecarCache.RetainedIff` | crates/tinyfs/src/file.rs:103-125 | a bounded read opens exactly the live versions numbered above the watermark whose recorded times reach the bound or are not recorded |
| `SidecarWatermark.BoundsCombine` | crates/tinyfs/src/file.rs:103-125 | a read under both bounds opens exactly what is opened under each |
| `SidecarCache.PruneExactIff` | crates/provider/src/format_cache.rs:164-180 | pruning by an event-time bound and then filtering equals filtering the full read exactly when no pruned version reaches the bound |
| `SidecarCache.PruneLosesNothing` | crates/tinyfs/src/file.rs:106-128 | truthful recorded maxima make it so, and a version without one is always kept |
| `SidecarCache.HistoryConserves` | crates/provider/src/version_cache.rs:70-97 | after any history of writes and collapses the live versions hold every row ever written, once and in order |
| `SidecarCache.ReadSeries` | crates/provider/src/format_cache.rs:164-180 | a read after any such history, with the live versions listed in any order, returns every row written exactly once, or exactly those from the bound on; in the order written when the versions are |
| `SidecarCache.GlobCachedSet` | crates/provider/src/format_cache.rs:218-234 | the union over several nodes names every retained version of each and reports what is not on disk |
| `SidecarCache.GlobScan` | crates/provider/src/format_cache.rs:218-234 | a glob read with nothing missing is the concatenation of its members' live rows |
| `SidecarWatermark.WatermarkRead` | crates/tinyfs/src/file.rs:94-125 | for ascending versions, the rows up to the watermark followed by those read above it are all live rows in order |
| `SidecarWatermark.WatermarkSplits` | crates/tinyfs/src/file.rs:94-125 | in any order, each row is in one of the two parts, once |
| `SidecarWatermark.GlobWatermark` | crates/provider/src/format_cache.rs:218-234 | the same over several nodes under one watermark |
| `SidecarWatermark.WatermarkExact` | crates/sitegen/src/factory/mod.rs:1098-1132 | after any history, a second read above the watermark of a first returns exactly the rows written in between if and only if no version with rows that the first one read was merged since |
| `SidecarWatermark.CollapseRepeats` | crates/tlogfs/src/schema.rs:273-295 | two versions read and then collapsed are returned again by the next read above the watermark, although nothing was written |
| `SidecarRace.RunKeeps` | crates/provider/src/version_cache.rs:240-274 | the invariant of concurrent reconcilers holds at every state of every interleaving |
| `SidecarRace.ReconcilersConverge` | crates/provider/src/version_cache.rs:240-274 | at every moment nothing but stale files is gone, each by exactly one reader's report; once any reader is done no stale file is left |
| `SidecarRace.NeverStale` | crates/provider/src/version_cache.rs:191-202 | live sidecars, non-Parquet files and other nodes' sidecars in a shared directory are never stale |
| `SidecarRace.ReadersFinish` | crates/provider/src/version_cache.rs:253-274 | no interleaving has more reader steps than one listing and one unlink per stale file for each reader |
| `SqlRename.RenameMeans` | crates/provider/src/sql_transform.rs:135-170 | the name lookup renames exactly the mapped names or, without mappings, exactly the source |
| `SqlRename.PrintedJoins` | crates/provider/src/sql_transform.rs:135-137 | a name prints as its parts joined by dots, first part first |
| `SqlRename.RewriteIff` | crates/provider/src/sql_transform.rs:73-174 | where replacements denote the originals, a safe query resolves every table and qualified column as before, at any scope; and only a safe one does, when no name outside the stable set is unmoved |
| `SqlRename.RewriteExact` | crates/provider/src/sql_transform.rs:73-174 | for any two catalogs in which replacements denote the originals, the rewritten query resolves as the original exactly when no renamed reference is captured by a common table expression, every other free reference is unmoved, and no qualified column names a changed qualifier |
| `SqlRename.RewritePreserves` | crates/provider/src/sql_transform.rs:73-174 | without looking at the catalogs: it is enough that other references are not named by the options on either side |
| `SqlRename.QualifierKeptIff` | crates/provider/src/sql_transform.rs:141-170 | an item loses its qualifier exactly when it has no alias and is a mapped name of several parts or the source under another replacement |
| `SqlRename.SourceReplacementLosesQualifier` | crates/provider/src/sql_transform.rs:163-170 | SELECT source.x FROM source stops resolving under a source replacement, which adds no alias, and keeps resolving under the same table mapping |
| `SqlRename.PlainIsSafe` | crates/provider/src/sql_transform.rs:73-128 | with mappings, expression names apart from mapped and replacement names, and references in FROM, JOIN or derived tables, the rewrite is safe |
| `SqlRename.ReplaceInQuery` | crates/provider/src/sql_transform.rs:73-87 | the traversal rewrites every common table expression and the body as specified |
| `SqlRename.ReplaceInBody` | crates/provider/src/sql_transform.rs:89-108 | set operations, nested queries and selects are rewritten through, anything else is left alone |
| `SqlRename.ReplaceInFrom` | crates/provider/src/sql_transform.rs:110-128 | the relation and every join of a FROM item are rewritten |
| `SqlRename.ReplaceTableName` | crates/provider/src/sql_transform.rs:130-174 | mappings take precedence over the source replacement, and only a mapping adds an alias |

## Left out

- DataFusion, Arrow, Parquet, object stores and async scheduling: only the rows, files and trees they carry are modelled.
- Floating-point aggregation: partials are exact integers, so rounding and not-a-number values are not captured.
- Digest algorithms: BLAKE3 and the export hash are treated as injective.
- Export crash recovery: a build interrupted half way is not modelled, and neither is a hint computed after one.
- Ties in ORDER BY: rows of one partition are in time order; the order among equal times is left open.
- Rows with a null timestamp and timestamp columns other than seconds in exports.
- Export schemas, templates, capture filtering and the `ExportSet` trie.
- The rollup's source-snapshot shortcut, wildcard discovery, SQL text of the aggregation and DataFusion memory limits.
- Cache readers racing a segment builder: readers run between builds or after a crash.
- Decimal sizes of segments: file sizes come from an arbitrary function of content.
- WriteAmplification: takes a merged segment's size as the sum of its inputs and the backstop as not firing, the setting the bound is documented for.
- LogarithmicSegments: the same, with all appended segments in one size class.
- LevelAmplification: carries that bound to the builds of a level under the same setting: merged files as large as their inputs together, and lists within the limit, which `LevelCount` guarantees for segments of one class; a build that reopens sealed segments ends one such run and starts another.
- LevelCount: merged files as large as their inputs together, sealed segments in one size class, and a limit above the bound.
- Contracts over several inputs: rows of all inputs of a contract are one multiset.
- Row-local and timestamp-local recipes are arbitrary functions of the rows of one timestamp; recipes that move rows to other timestamps are not local and not modelled.
- `required_input_ranges`, `state_contract` and the identity strings of changes: easy next to what is proved.
- Event-time columns of second, millisecond or nanosecond type: a batch is either legible as 64-bit times or not.
- The live-set decision of the storage layer: a collapse is any replacement of a run of live versions by one holding the same rows.
- Readers with different live sets: convergence is proved for readers that agree on what is live; a file one of them lacks is reported as missing.
- ReplaceInQuery and the other rewriting methods return the updated tree; the source updates the same owned tree in place, where no aliasing is possible.
- RunBuilds: stops at the first failure, because a tail build that fails half way leaves files that the next one would find unlisted; a single build from such a directory is covered by `ExportSeries`.
- RunOutputs: stops at the first failure likewise, and takes outputs nobody else touches; touched ones are covered build by build in `ExportLevel`.
- Unlisted export files are modelled by partition directory; a second file name inside a listed directory is not.
- Candidate: visits the stored manifests in any order instead of by width, which does not change the coarsest one.
- SQL text: parsing, printing, quoting, case folding and statements after the first; replacement names with a dot, which print as qualified names; recursive common table expressions; columns of correlated subqueries; qualifiers inside parenthesised joins.
