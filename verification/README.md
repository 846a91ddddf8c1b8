# Verified models of NUFS

NUFS is a distributed file system written in Go. This project models the parts of `nufs-core`
whose correctness is hardest to see from the code, and proves what they promise: the write-back
buffer over committed chunks, erasure coding with windowed reads and repair, the compare-and-set
protocols of the metadata store, S3 backup publication, and the placement, balancing and index
code. `dafny verify dfyconfig.toml` checks everything.

Objects that the source updates in place are classes here (`BufferedFile`, `ShardStores`,
`V2Store`, `HeartbeatReporter`, `TaskStore`, `DirectoryPartitionStore`); protocols whose steps
interleave are state machines whose runs are arbitrary event sequences; the Reed-Solomon
primitive is a per-column code passed as a parameter, with one instance proved to meet its
contract.

## How the files fit together

| files | what they model |
|---|---|
| `Bytes`, `Lex` | bytes, options, zero padding; byte-wise string order |
| `BufferImage`, `BufferReads`, `BufferOps`, `BufferFlush`, `BufferSpill` | the buffered file as values: its flat image, the read walk, hydrate/copy/spill, the flush, writes over spilled chunks |
| `ChunkServices`, `BufferedFile`, `BufferRuns` | the chunk store, inode row and read cache; the buffer class; whole runs against a flat array |
| `ErasureCode`, `ErasureStripe`, `ErasureChunks`, `ErasureWindows`, `ErasureReads`, `ErasureRepair` | the column code and its exclusive-or instance, stripes, encode/decode/quorum/full read, window reads at a true or a too large size, the read that tries the window and falls back, 6+3 repair |
| `ShardPlanner` | the 6+3 placement planner and when it stops |
| `S3Publish`, `S3Recovery` | claim, stage, copy, marker, reconcile, cleanup, janitor; which disturbed publications can still be completed |
| `ChunkMoves`, `DiskRebalance` | concurrent writes and moves of one chunk; the sequential rebalance driver |
| `ChunkTombstones`, `ChunkPurge` | fenced batches on chunk/tombstone pairs; purging against a changing backup catalog |
| `BackupTasks` | racing coordinators on one durable backup task |
| `MigrationPlanner`, `Heartbeat`, `TaskQueue`, `DirectoryRanges` | migration plans, heartbeat deltas, the task queue index, directory ranges |

## Findings

Properties that the code does not have as one might state them. Each has a concrete failing input
or run, and the exact condition under which the property does hold.

- A read that starts in the middle of an unbuffered chunk and crosses into the next one can skip a
  dirty buffer: it is exact for every file if and only if it is aligned or stays in one chunk
  (`BufferReads.ReadWindowExactIff`, `BufferReads.MidChunkReadStale`).
- A write rebuilds a touched chunk that is in the staging directory, or that its own budget test
  sends there, from the committed bytes. It is exact for every file with the same resident and
  spilled chunks if and only if it overwrites each such chunk whole
  (`BufferSpill.SpilledWriteExactIff`). `BufferRuns.EvictingRun` loses a chunk of ones with a budget
  of one chunk and two writes.
- An empty write past the end of a clean file moves its size, and a flush leaves that uncommitted
  (`BufferRuns.EmptyWriteUncommitted`): a successful flush commits the whole image if and only if
  the file was dirty or not larger than committed (`BufferedFile.BufferedFile.Flush`).
- `readECChunk` documents that a record whose size is the allocation cap is read in full; the code
  tries the window path first. That path answers with the bytes of an earlier place when the range
  starts past the first shard of the recorded size and fits inside one real shard, and for no other
  range inside the data (`ErasureReads.WindowExactIff`, `ErasureReads.ReadChunk`).
  `ErasureReads.CapSizedMisread` reads byte 4 of six and gets byte 3.
- The located generation of a chunk can go back when two Writes of it overlap, even without moves:
  an idempotent repeat of an overtaken Write re-points the chunk (`ChunkMoves.OverlapGoesBack`); it
  never does in all runs with at most n Writes in flight if and only if n is at most one
  (`ChunkMoves.ForwardIffSerialized`).
- The shard planner loops forever on candidate sets that pass its own guards
  (`ShardPlanner.GuardsAdmitEndlessLoop`); it stops if and only if the nodes can take nine shards
  between them (`ShardPlanner.HaltsIff`).
- A purge checks one catalog and commits against another when the catalog changes and changes back
  between its two raw reads (`ChunkPurge.RestoredCatalogUnsafe`). Runs that install only given
  catalogs are safe if and only if, whenever one of them admits the purge of a chunk deleted at t,
  the backups of every other one are later than t too (`ChunkPurge.SafeIffAgree`); whatever is
  installed, later reconciliation times on every replacement are enough (`ChunkPurge.FreshRunSafe`).
- A backup whose claim put took effect but reported an error can never be published
  (`S3Recovery.LostClaimReply`, `S3Recovery.AbandonedForever`). After any history it is published or
  still can be if and only if its claim is not held by an attempt that has ended without a marker
  (`S3Recovery.PublishableIff`).
- A persisted backup task is compared without its update time, so success can be reported for a
  record that was never durable (`BackupTasks.UpdateTimeMayDiffer`). Success means the desired
  initial record itself was durable if and only if no other valid record that the calls desire
  differs from it in the update time alone (`BackupTasks.ExactIffDistinct`).
- Re-putting a background task whose queue key is unchanged deletes its queue entry, because the
  batch applies deletes after sets (`TaskQueue.RePutLosesEntry`); the index stays right if and only
  if the task is new or its key changes (`TaskQueue.TaskStore.Put`).
- A heartbeat that was applied but not acknowledged leaves metadata wrong exactly when a live chunk
  goes back to its last acknowledged state (`Heartbeat.UnackedReportIff`,
  `Heartbeat.ReturnedChunkStale`).
- A chunk that is gone is marked failed by a delta tick and never by a full-sync tick
  (`Heartbeat.GoneMarkedIff`); a chunk deleted before a forced sync stays ready in metadata
  (`Heartbeat.DeletionMissed`), and so does, in a busy cluster, one deleted before every seventh tick
  (`Heartbeat.SeventhTickMissesDeletion`).
- Round-robin chunk assignment repeats a chunk if and only if a source's run is longer than its list
  (`MigrationPlanner.NoRepeatIff`, `MigrationPlanner.OneEntryTwice`).
- A directory split keeps one owner per name if and only if the split point is on or between the
  range's bounds (`DirectoryRanges.SplitExactIff`, `DirectoryRanges.EmptySplitShares`).

## Model

| member | source | states |
|---|---|---|
| `BufferImage.CommittedByRef` | nufs-core/chunkstore/buffered.go:531-552 | the committed byte at a position is the one its covering reference holds, whichever is found |
| `BufferReads.CommittedReadResumes` | nufs-core/chunkstore/buffered.go:719-758 | a window cut short by a cached entry only splits the walk: resuming inside the reference gives the same bytes |
| `BufferReads.CommittedReadInChunk` | nufs-core/chunkstore/buffered.go:678-779 | inside one chunk the committed walk gives exactly the committed bytes, placeholders and holes included |
| `BufferReads.ViewIsSlice` | nufs-core/chunkstore/buffered.go:781-825 | with nothing spilled, a read that is aligned, inside one chunk or starting in a buffer is the slice of the image |
| `BufferReads.ReadWindowExactIff` | nufs-core/chunkstore/buffered.go:781-825 | a read starting in an unbuffered chunk is exact for every file if and only if it is aligned or stays in one chunk |
| `BufferReads.MidChunkReadStale` | nufs-core/chunkstore/buffered.go:781-825 | a read of one chunk's length from position 1 misses the dirty byte at the start of the next chunk |
| `BufferOps.HydratedChunk` | nufs-core/chunkstore/buffered.go:535-596 | an overlapping reference starts on the base, and its payload over zeros is the chunk's committed image |
| `BufferOps.NewBasesAre` | nufs-core/chunkstore/buffered.go:444-456 | the walk that counts new buffers finds exactly the touched bases without one |
| `BufferOps.CopyFromIs` | nufs-core/chunkstore/buffered.go:492-503 | the piecewise copy puts every data byte at its file position and leaves all other buffer bytes alone |
| `BufferOps.SpillKeepsImage` | nufs-core/chunkstore/buffered.go:295-318 | moving a dirty buffer to the staging directory leaves the image unchanged |
| `BufferOps.LoadKeepsImage` | nufs-core/chunkstore/buffered.go:322-343 | loading it back leaves the image unchanged and undoes the spill |
| `BufferOps.TouchedImage` | nufs-core/chunkstore/buffered.go:1139-1149 | preallocated buffers change nothing but the size: the image is zero-extended |
| `BufferOps.WrittenImage` | nufs-core/chunkstore/buffered.go:436-513 | a write, with at most one eviction, splices the data into the image minus the spill files it shadows, and keeps the state valid |
| `BufferOps.ZeroedImage` | nufs-core/chunkstore/buffered.go:1186-1260 | a zero-fill is a write of zeros to the image |
| `BufferOps.RoomBound` | nufs-core/chunkstore/buffered.go:443-477 | after an eviction at most one buffer more than counted is resident |
| `BufferSpill.SpilledWriteExactIff` | nufs-core/chunkstore/buffered.go:443-503 | for any resident and spilled chunks and any evicted one, a write is exact for every such file if and only if it wholly overwrites each touched chunk that is spilled or that the write evicts |
| `BufferSpill.EvictedWriteLosesBytes` | nufs-core/chunkstore/buffered.go:457-487 | nothing is spilled, and a write across the end of a dirty chunk that it evicts zeroes that chunk |
| `BufferFlush.NewRefsOk` | nufs-core/chunkstore/buffered.go:978-995 | the replacement list is aligned, has one reference per base and matches its payloads |
| `BufferFlush.FlushedImage` | nufs-core/chunkstore/buffered.go:899-1010 | after the wholesale replacement the committed references alone give the image, at the larger of the two sizes |
| `BufferFlush.AbandonedImage` | nufs-core/chunkstore/buffered.go:923-973 | a flush that stops part way leaves the image and the committed image as they were |
| `ChunkServices.MemoryChunkStore.WriteChunk` | nufs-core/chunkstore/memory.go:39-54 | stores the payload, or nothing when the hook fails |
| `ChunkServices.MemoryChunkStore.ReadChunkRange` | nufs-core/chunkstore/memory.go:62-82 | the exact range, or the whole payload when the range is out of bounds |
| `ChunkServices.InodeService.AllocateChunksBatch` | nufs-core/metadata/pebble_store.go:2260-2330 | fresh IDs and zero-length references, refused above the batch limit |
| `ChunkServices.InodeService.DeleteChunk` | nufs-core/metadata/pebble_store.go:2878-2887 | tombstones a chunk only if no reference names it |
| `ChunkServices.AllocateRanges` | nufs-core/chunkstore/writer.go:114-137 | one fresh ID per offset in order, in sub-batches that are never refused for size; it succeeds exactly if every sub-batch does, and a failure keeps the earlier ones |
| `ChunkServices.WriteAllocated` | nufs-core/chunkstore/writer.go:145-174 | the returned reference names the chunk, offset and length that were stored |
| `BufferedFile.BufferedFile.GetChunk` | nufs-core/chunkstore/buffered.go:243-254 | the existing or a zero buffer, with dirtyBytes equal to the resident total |
| `BufferedFile.BufferedFile.SpillToDisk` | nufs-core/chunkstore/buffered.go:295-318 | moves exactly one resident buffer, or nothing on error |
| `BufferedFile.BufferedFile.LoadFromDisk` | nufs-core/chunkstore/buffered.go:322-343 | moves it back and keeps the accounting |
| `BufferedFile.BufferedFile.SpillOldestChunk` | nufs-core/chunkstore/buffered.go:347-361 | moves exactly the lowest dirty base if its buffer is resident and the staging directory takes it, and nothing otherwise |
| `BufferedFile.BufferedFile.LoadCommittedChunk` | nufs-core/chunkstore/buffered.go:518-597 | the chunk's committed bytes in a new buffer, if any reference overlaps it |
| `BufferedFile.BufferedFile.SpillForBudgets` | nufs-core/chunkstore/buffered.go:457-472 | both spill attempts together move the oldest buffer or nothing |
| `BufferedFile.BufferedFile.MakeRoom` | nufs-core/chunkstore/buffered.go:443-477 | which chunk is evicted and whether the write is admitted, both as functions of the state before the call; an admitted write fits the budget with the buffers it counted as new |
| `BufferedFile.BufferedFile.Write` | nufs-core/chunkstore/buffered.go:436-513 | the image becomes the old one with the data spliced in when the write wholly overwrites every touched chunk that is spilled or that it evicts, judged before the call; otherwise exactly those chunks' buffered bytes are forgotten; it is refused exactly when the budget does not admit it, and then changes no byte; dirtyBytes stays within the budget plus one chunk; every dirty base stays backed |
| `BufferedFile.BufferedFile.ReadCommitted` | nufs-core/chunkstore/buffered.go:678-779 | byte for byte the committed walk, with or without the read cache |
| `BufferedFile.BufferedFile.ReadView` | nufs-core/chunkstore/buffered.go:630-825 | the view of the range up to the file size; the slice of the image for clipped windows with nothing spilled |
| `BufferedFile.BufferedFile.TouchRange` | nufs-core/chunkstore/buffered.go:1129-1151 | the image zero-extended to the new size, dirty set untouched |
| `BufferedFile.BufferedFile.ZeroRange` | nufs-core/chunkstore/buffered.go:1158-1263 | zeros spliced over the window, clamped to the file unless it may extend it |
| `BufferedFile.BufferedFile.WriteDirty` | nufs-core/chunkstore/buffered.go:932-972 | each dirty chunk's backing bytes, cut to the file size, stored under its own fresh ID; nothing stored before changes; it succeeds exactly if every chunk is resident or loads, and is written and committed |
| `BufferedFile.BufferedFile.Supersede` | nufs-core/chunkstore/buffered.go:1016-1023 | every old chunk is tombstoned unless the new list still references it, and nothing else is |
| `BufferedFile.BufferedFile.Flush` | nufs-core/chunkstore/buffered.go:842-1027 | it succeeds exactly if the file is clean or every allocation, load, chunk write and commit it needs does; on success a dirty file has its old image committed and is clean, and a clean one is committed exactly if its size is not ahead of the committed one; on failure both images and the dirty set are unchanged; no referenced chunk is tombstoned |
| `BufferedFile.SortedBases` | nufs-core/chunkstore/buffered.go:905-910 | the dirty bases once each, in increasing order |
| `BufferRuns.Run` | nufs-core/chunkstore/buffered.go:436-1263 | with spilling off, every run of writes, zero-fills, preallocations, flushes and reads refines one flat zero-filled array: each read in window is its slice at that point; every flush without faults succeeds, and a run without empty writes that ends in one leaves aligned references, one per base, that give the whole array on their own; without a budget no write is refused |
| `BufferRuns.EmptyWriteUncommitted` | nufs-core/chunkstore/buffered.go:842-862 | an empty write past the end of a clean file grows it, and the flush that follows commits nothing |
| `BufferRuns.EvictingRun` | nufs-core/chunkstore/buffered.go:436-513 | two writes under a budget of one chunk leave byte 0 zero where one was written |
| `ErasureCode.SolveIs` | nufs-core/chunkstore/ec_encoder.go:153-155 | any k bytes of a column solve to that column |
| `ErasureCode.XorCodeValid` | nufs-core/chunkstore/ec_encoder.go:60-90 | k data bytes and one exclusive-or parity byte meet the primitive's contract |
| `ErasureStripe.WindowedRebuild` | nufs-core/chunkstore/ec.go:476-485 | reconstructing only a window equals slicing the full reconstruction, whatever the shards hold |
| `ErasureStripe.RebuildIs` | nufs-core/chunkstore/ec_encoder.go:145-155 | any k shards, on any window, rebuild every shard |
| `ErasureChunks.Encode` | nufs-core/chunkstore/ec_encoder.go:60-90 | the contiguous zero-padded stripe with its parity; empty data is an error |
| `ErasureChunks.DecodeIs` | nufs-core/chunkstore/ec_encoder.go:127-176 | any k shards decode to the padded data up to the stripe; fewer shards or a longer request fail |
| `ErasureChunks.WriteDirect` | nufs-core/chunkstore/ec.go:51-160 | acknowledged exactly if the data is not empty, the stripe is planned and recorded, and k nodes acknowledged their shard; every shard that landed is at its own index |
| `ErasureChunks.ReadFull` | nufs-core/chunkstore/ec.go:217-304 | succeeds exactly with k shards, and is right on every range inside the data, also when the recorded size is the cap |
| `ErasureChunks.WriteThenRead` | nufs-core/chunkstore/ec.go:51-304 | a write that k nodes acknowledge is accepted, and then any k landed shards that answer give the written bytes |
| `ErasureWindows.Windows` | nufs-core/chunkstore/ec.go:339-360 | the windows tile the requested range, each inside one data shard |
| `ErasureWindows.JoinTiles` | nufs-core/chunkstore/ec.go:488-493 | the tiles' bytes joined are the slice of the data |
| `ErasureWindows.RebuildWindow` | nufs-core/chunkstore/ec.go:421-486 | a missing owner's window from any k peers; fails exactly with fewer |
| `ErasureWindows.ReadWindow` | nufs-core/chunkstore/ec.go:321-493 | with the true size, a successful window read is exactly the requested slice, and it succeeds when every silent owner has k answering peers; with a larger size it returns the bytes of the places where the windows look, and fails when one lies outside a shard |
| `ErasureReads.WindowExactIff` | nufs-core/chunkstore/ec.go:321-493 | for every range inside the data and every recorded size that covers it: what the window path returns is right for all data if and only if the range does not both start past the first recorded shard and fit inside one real shard |
| `ErasureReads.ReadChunk` | nufs-core/chunkstore/ec.go:184-304 | window path first, full read when it fails: with k shards it succeeds, and inside the data it is exact unless the window path misreads the range, in which case the bytes of an earlier, computed place come back |
| `ErasureReads.CapSizedMisread` | nufs-core/chunkstore/ec.go:184-304 | six bytes recorded as eight over two data shards: reading byte 4 returns byte 3 |
| `ErasureRepair.ReconstructIs` | nufs-core/datanode/ec63.go:124-171 | any k shards rebuild the whole stripe for every claimed length that fits |
| `ErasureRepair.RebuildStripeFrom` | nufs-core/datanode/server_v2.go:883-894 | every claimed length, also one that is unknown or too large, rebuilds the stripe |
| `ErasureRepair.ShardStores.ReadAll` | nufs-core/datanode/server_v2.go:809-824 | every shard that reads back, and exactly the absent ones listed |
| `ErasureRepair.ShardStores.CleanDisk` | nufs-core/datanode/server_v2.go:932-957 | a disk without any record of the shard: the preferred one, else the least used, else none |
| `ErasureRepair.ShardStores.Repair` | nufs-core/datanode/server_v2.go:875-912 | no record is ever overwritten, and every shard that read back still does, also when the repair fails; on success all shards read back as the original encoding, each lost one from its preferred disk if that was clean, else from a least used clean one; it succeeds exactly when at most m are lost, none is unreadable, and each lost one finds a clean disk and a working write |
| `ShardPlanner.GroupIs` | nufs-core/metadata/ec_lifecycle.go:223-257 | one queue per node in node order, holding distinct candidate disks of that node |
| `ShardPlanner.GroupKeepsDisks` | nufs-core/metadata/ec_lifecycle.go:223-257 | every node's queue holds exactly as many disks as the node offers |
| `ShardPlanner.HaltsIff` | nufs-core/metadata/ec_lifecycle.go:259-273 | the placement loop stops if and only if the nodes can take nine shards between them, and then within nine rounds |
| `ShardPlanner.GuardsAdmitEndlessLoop` | nufs-core/metadata/ec_lifecycle.go:223-273 | seven, one and one disks pass the guards and never finish |
| `ShardPlanner.Validate` | nufs-core/metadata/ec_lifecycle.go:132-146 | accepts exactly placements on three or more machines with at most three shards each |
| `ShardPlanner.Pigeonhole` | nufs-core/metadata/ec_lifecycle.go:132-146 | at most three shards per node bounds the shards by three times the nodes |
| `ShardPlanner.PlanSound` | nufs-core/metadata/ec_lifecycle.go:217-284 | a finished plan has indices 0 to 8 on nine distinct candidate disks, at most three per node, three nodes or more, and six shards left after losing any node |
| `ShardPlanner.PlanSpreads` | nufs-core/metadata/ec_lifecycle.go:236-273 | whenever the loop stops, a node more than one shard behind another, or behind a node after it, has all it can take, and each node's disks are used in disk order |
| `ShardPlanner.PlanShards` | nufs-core/metadata/ec_lifecycle.go:217-284 | watched for any number of turns: errors exactly on too few nodes or disks; else never finishes when the nodes cannot take nine shards, and has a sound and even plan within nine rounds when they can |
| `S3Publish.StepKeepsOther` | nufs-core/metadata/backup_s3.go:273-453 | one publisher's step never disturbs what another relies on |
| `S3Publish.StepKeepsSelf` | nufs-core/metadata/backup_s3.go:273-453 | every step, failed or not, keeps what its own publisher relies on |
| `S3Publish.InspectKeeps` | nufs-core/metadata/backup_s3.go:619-666 | a listed staging group whose claim is gone belongs to an attempt that has ended |
| `S3Publish.StepKeeps` | nufs-core/metadata/backup_s3.go:273-986 | the protocol invariant survives every event of publishers and janitors |
| `S3Publish.MarkerMeansPublished` | nufs-core/metadata/backup_s3.go:416-453 | in every reachable state a visible marker has its claim, its manifest and every declared file with its declared content in place, all from its own attempt, nothing else is committed, and the manifest is the one that attempt was asked to publish |
| `S3Publish.PublishedForever` | nufs-core/metadata/backup_s3.go:273-986 | and this stays true in every later state |
| `S3Publish.SuccessMeansPublished` | nufs-core/metadata/backup_s3.go:776-909 | a Publish that reports success: the manifest it was asked for is published |
| `S3Publish.PublishesAlone` | nufs-core/metadata/backup_s3.go:273-453 | after any history that left no claim and no marker, an attempt that meets no fault and no other publisher publishes its manifest and reports success |
| `S3Publish.RepublishAlone` | nufs-core/metadata/backup_s3.go:290-297 | a backup that is published: another attempt changes nothing and reports success exactly for the same manifest |
| `S3Publish.AmbiguousMarkerSettled` | nufs-core/metadata/backup_s3.go:431-451 | a marker put that reports an error is reported as success exactly if it took effect, and otherwise cleaned up |
| `S3Publish.CleansAlone` | nufs-core/metadata/backup_s3.go:961-986 | a failed attempt left alone deletes, in any order, what it staged and committed and then its claim, and nothing else |
| `S3Publish.JanitorSweeps` | nufs-core/metadata/backup_s3.go:619-666 | a listed staging object is deleted exactly if no claim is found afterwards |
| `S3Recovery.LosesRace` | nufs-core/metadata/backup_s3.go:323-333 | an attempt that finds the claim taken changes nothing and reports success exactly if its own manifest is published |
| `S3Recovery.AnyFailureCleans` | nufs-core/metadata/backup_s3.go:339-346 | whichever operation between claim and marker fails, applied or not, the attempt left alone deletes all it put and its claim |
| `S3Recovery.LostClaimReply` | nufs-core/metadata/backup_s3.go:317-334 | a claim put that took effect and reported an error leaves the claim behind |
| `S3Recovery.AbandonedForever` | nufs-core/metadata/backup_s3.go:273-453 | a claim whose attempt ended without a marker is never released, and no marker is ever put |
| `S3Recovery.PublishableIff` | nufs-core/metadata/backup_s3.go:273-986 | after any history of publishers, faults, crashes and janitors the backup is published or still can be if and only if its claim is not held by an attempt that ended without a marker |
| `ChunkMoves.StepKeeps` | nufs-core/datanode/server_v2.go:316-1129 | in every interleaving the located extent is stored, and every call in flight keeps what it relies on |
| `ChunkMoves.ReadsLatest` | nufs-core/datanode/server_v2.go:239-374 | in every run a read of the located extent returns what the last completed Write was asked to write, for any number of concurrent writes and moves |
| `ChunkMoves.MoveKeepsBytes` | nufs-core/datanode/server_v2.go:1047-1129 | a committed move keeps the generation and the bytes read |
| `ChunkMoves.WriteAlone` | nufs-core/datanode/server_v2.go:239-374 | an undisturbed Write lands at the next generation on the chunk's disk, or at the first on the picked one, and is refused exactly when other bytes are stored there |
| `ChunkMoves.MoveAlone` | nufs-core/datanode/server_v2.go:1047-1129 | an undisturbed move takes the located extent to the other disk at its generation, and is refused exactly when other bytes are stored there |
| `ChunkMoves.SerializedWrites` | nufs-core/datanode/server_v2.go:239-374 | with one Write in flight at a time, generations only go forward and each has one payload on every disk |
| `ChunkMoves.SerializedWriteAccepted` | nufs-core/datanode/server_v2.go:239-374 | in a run that never had two Writes in flight, the next one is accepted and read back |
| `ChunkMoves.OverlapGoesBack` | nufs-core/datanode/server_v2.go:239-374 | two overlapping Writes of the same bytes can lower the generation |
| `ChunkMoves.ForwardIffSerialized` | nufs-core/datanode/server_v2.go:239-374 | generations never go back in all runs with at most n Writes in flight if and only if n is at most one |
| `DiskRebalance.ShiftedIs` | nufs-core/datanode/server_v2.go:1123-1127 | moving less than the gap keeps the total and lowers the sum of squares |
| `DiskRebalance.V2Store.Write` | nufs-core/datanode/server_v2.go:239-374 | it succeeds exactly if the disk it goes to is healthy and takes the write: the chunk's own disk at the next generation, or a least used healthy one for a new chunk; usage follows the live size, a failure changes only the disk's failure count, other chunks are untouched |
| `DiskRebalance.V2Store.LeastUsedDisk` | nufs-core/datanode/server_v2.go:1228-1242 | a healthy disk with the fewest bytes, or none |
| `DiskRebalance.ListExtents` | nufs-core/datanode/server_v2.go:1205-1207 | the newest extent of every chunk a disk holds, once each, and nothing else |
| `DiskRebalance.V2Store.PickRebalanceChunk` | nufs-core/datanode/server_v2.go:1181-1226 | a largest extent of a fullest healthy disk that fits strictly inside its gap to a least used one; none only if the gap is within the threshold or nothing fits |
| `DiskRebalance.V2Store.RebalanceOne` | nufs-core/datanode/server_v2.go:1047-1129 | succeeds exactly if the copy works and the chunk is on the source disk and the target is another, healthy one; re-points the chunk at its generation; every chunk reads as before; success clears the target's failure count and a failed copy raises it |
| `DiskRebalance.FailureStreak` | nufs-core/datanode/server_v2.go:325-350 | after n failed writes in a row the next one is refused if and only if n is five or more |
| `DiskRebalance.V2Store.RebalanceBalanced` | nufs-core/datanode/server_v2.go:1143-1174 | ends, conserves the total, keeps healthy disks inside the range they spanned, leaves failed disks alone, and lowers the sum of squares whenever usages change; a balanced node is left alone; when no write fails it stops balanced or with nothing left that fits, chunks on two disks aside, unless it used up one turn per extent |
| `ChunkTombstones.AllocationKeeps` | nufs-core/metadata/chunk_tombstone.go:727-843 | an admitted allocation leaves every tombstoned chunk alone |
| `ChunkTombstones.ChunkBatch` | nufs-core/metadata/chunk_tombstone.go:845-947 | what an admitted update, create or purge does to the store |
| `ChunkTombstones.UpdateIff` | nufs-core/metadata/chunk_tombstone.go:511-532 | an update of a chunk record is stored if and only if it keeps the ID, the record is unchanged and no tombstone exists |
| `ChunkTombstones.CreateIff` | nufs-core/metadata/chunk_tombstone.go:46-134 | a tombstone is stored if and only if it repeats the chunk record that is there, gives a reason and a quarantine of 25 hours, and none exists |
| `ChunkTombstones.PurgeIff` | nufs-core/metadata/chunk_tombstone.go:166-231 | a purge removes chunk and tombstone together if and only if epoch, canonical catalog, chunk and tombstone are all unchanged |
| `ChunkTombstones.AllocationAccepted` | nufs-core/metadata/chunk_tombstone.go:727-843 | an allocation of fresh chunks to an unchanged inode is admitted and stores every record and the longer inode |
| `ChunkTombstones.AllocationLinks` | nufs-core/metadata/chunk_tombstone.go:727-843 | every allocation that goes through adds to one inode exactly the references of chunks that had neither record nor tombstone and now have a record each; all other records are as before |
| `ChunkTombstones.BatchKeeps` | nufs-core/metadata/chunk_tombstone.go:689-947 | every admitted batch keeps each tombstone paired with a matching chunk record |
| `ChunkTombstones.FrozenUntilPurged` | nufs-core/metadata/chunk_tombstone.go:434-457 | through every run a tombstoned chunk is unchanged until both records vanish together |
| `ChunkPurge.StepKeeps` | nufs-core/metadata/chunk_tombstone.go:166-327 | with fresh reconciliation times the catalog checked is the catalog compared at the commit |
| `ChunkPurge.RestoredCatalogUnsafe` | nufs-core/metadata/chunk_tombstone.go:275-327 | the same for two literal catalogs, one retaining a backup from the instant of the deletion |
| `ChunkPurge.FreshRunSafe` | nufs-core/metadata/chunk_tombstone.go:166-327 | in every run whose replacements carry later reconciliation times, each committed purge respects the quarantine and every backup durable at its commit |
| `ChunkPurge.CommitIsNow` | nufs-core/metadata/chunk_tombstone.go:166-231 | a committed purge removed the chunk at the time, and under the catalog, in force at its commit |
| `ChunkPurge.PurgesAlone` | nufs-core/metadata/chunk_tombstone.go:166-273 | after the quarantine an undisturbed purge removes the chunk if and only if the catalog is fresh, retains a backup, and retains none from before the deletion |
| `ChunkPurge.ThreeAttempts` | nufs-core/metadata/chunk_tombstone.go:275-327 | with a catalog that changes during every attempt but the last, the purge commits if and only if fewer than three attempts were disturbed |
| `ChunkPurge.SwappedCatalogUnsafe` | nufs-core/metadata/chunk_tombstone.go:275-327 | any two catalogs that disagree on a deletion one of them admits have a run that commits an unsafe purge |
| `ChunkPurge.SafeIffAgree` | nufs-core/metadata/chunk_tombstone.go:166-327 | every run that installs only given catalogs is safe if and only if they agree on each deletion that one of them admits |
| `BackupTasks.AdvanceKeeps` | nufs-core/metadata/backup_catalog.go:165-252 | every step of a racing call keeps the history legal and its successes backed |
| `BackupTasks.HistoryOnlyAdvances` | nufs-core/metadata/backup_catalog.go:985-1029 | identity never changes, counters, update time and state never go back, nothing follows a terminal record |
| `BackupTasks.EveryRunAdvances` | nufs-core/metadata/backup_catalog.go:733-794 | the same for the durable history of every run, which starts at creating |
| `BackupTasks.EveryRunTransitions` | nufs-core/metadata/backup_catalog.go:985-1029 | in every run neighbouring durable records are in the same state, fail, or take one of the three forward steps, and nothing follows a committed or failed one |
| `BackupTasks.EveryRunComplete` | nufs-core/metadata/backup_catalog.go:940-983 | every record that was ever durable is complete for its state |
| `BackupTasks.OnlyTheLeaderWrites` | nufs-core/metadata/backup_catalog.go:165-252 | in every run a record becomes durable only through a call that began in the term still in force, is the record it was asked to persist, and follows the one before |
| `BackupTasks.PersistsAlone` | nufs-core/metadata/backup_coordinator.go:586-610 | an undisturbed call of the leader makes its record durable and reports success if and only if it may follow the durable one; otherwise nothing changes, and success is reported only for an equal terminal record |
| `BackupTasks.SettlesIff` | nufs-core/metadata/backup_coordinator.go:586-610 | after a conflict or a lost reply a call changes nothing, and reports success exactly if it still leads and the durable record is its own, update time aside |
| `BackupTasks.LostReplySettled` | nufs-core/metadata/backup_coordinator.go:586-610 | when the reply to an undisturbed write is lost, success is reported if the write took effect, or if the same record was durable before |
| `BackupTasks.SuccessWasDurable` | nufs-core/metadata/backup_coordinator.go:586-610 | a call that reports success: the record it was asked to persist, update time aside, was durable at some instant |
| `BackupTasks.ExactIffDistinct` | nufs-core/metadata/backup_coordinator.go:586-610 | success for a valid initial record means that it was itself durable, in every run that desires only given records, if and only if no other valid one differs from it in the update time alone |
| `BackupTasks.DistinctIsExact` | nufs-core/metadata/backup_coordinator.go:586-610 | the same condition is enough for a record in any state |
| `BackupTasks.UpdateTimeMayDiffer` | nufs-core/metadata/backup_coordinator.go:921-933 | every valid initial record has a run that reports its success although it was never durable |
| `MigrationPlanner.Classify` | nufs-core/metadata/balance.go:115-123 | exactly the nodes above 110% and below 90% of the average, with their excess and space preserved |
| `MigrationPlanner.Drain` | nufs-core/metadata/balance.go:127-160 | moves the least of one node's excess, the targets' remaining space and what the cap leaves, lifting no target above the average |
| `MigrationPlanner.PlanRebalance` | nufs-core/metadata/balance.go:105-163 | no source goes below the average, no target above it, one run per source, and the number of moves is the least of max(1, total/10), the total excess and the total space, so never more than a tenth of the chunks or one |
| `MigrationPlanner.AssignChunks` | nufs-core/metadata/balance.go:178-189 | two moves of a source get the same chunk exactly when their positions differ by a multiple of its list's length; with one run per source, no chunk is assigned twice if and only if the list is as long as the run; 0 for an empty list |
| `MigrationPlanner.NoRepeatIff` | nufs-core/metadata/balance.go:168-192 | no chunk of a source is assigned twice if and only if its duplicate-free list is at least as long as its run |
| `MigrationPlanner.OneEntryTwice` | nufs-core/metadata/balance.go:178-189 | two moves over a one-entry list plan the same chunk twice |
| `Heartbeat.AcknowledgeIs` | nufs-core/datanode/heartbeat.go:289-306 | the incremental update leaves exactly the snapshot acknowledged |
| `Heartbeat.DeltaCovers` | nufs-core/datanode/heartbeat.go:190-205 | applying the delta makes the view right on every live chunk; only delta ticks mark chunks that are gone |
| `Heartbeat.GoneMarkedIff` | nufs-core/datanode/heartbeat.go:190-205 | a chunk that is gone ends up marked failed if and only if the tick is not a full sync |
| `Heartbeat.SeventhTickMissesDeletion` | nufs-core/datanode/heartbeat.go:176-205 | in a run of acknowledged ticks over an ever changing store, a deletion is marked by the next tick except by every seventh, whose full sync loses it for good |
| `Heartbeat.DeletionMissed` | nufs-core/datanode/heartbeat.go:190-346 | a chunk deleted before a forced sync stays ready in metadata |
| `Heartbeat.UnackedReportIff` | nufs-core/datanode/heartbeat.go:262-268 | an applied but unacknowledged report is harmless if and only if no live chunk returns to its acknowledged state |
| `Heartbeat.ReturnedChunkStale` | nufs-core/datanode/heartbeat.go:190-268 | a chunk ready, then syncing in an unacknowledged report, then ready again stays syncing in metadata |
| `Heartbeat.RunCovers` | nufs-core/datanode/heartbeat.go:147-346 | every run of acknowledged, lost and unacknowledged reports and forced syncs: an acknowledged tick leaves exactly the snapshot in force known, and the fold of the reports agrees with it on every live chunk unless an unacknowledged report was applied since the last forced sync |
| `Heartbeat.HeartbeatReporter.Send` | nufs-core/datanode/heartbeat.go:147-307 | after an acknowledged tick the known state is the snapshot and metadata agrees on every live chunk; a lost report changes nothing |
| `Heartbeat.HeartbeatReporter.ForceFullSync` | nufs-core/datanode/heartbeat.go:336-346 | whatever the store holds next, the next report names every chunk of it |
| `Heartbeat.Run` | nufs-core/datanode/heartbeat.go:147-346 | the reporter and metadata end a run as the folds over its ticks say; after an acknowledged last tick the known state is the snapshot in force, which metadata covers |
| `TaskQueue.KeyParses` | nufs-core/metadata/background_task.go:58-224 | queue keys parse back to run time and ID, slashes in the ID included |
| `TaskQueue.KeyOrder` | nufs-core/metadata/background_task.go:58-60 | under one type and state keys sort by run time, then by ID |
| `TaskQueue.BeforeIsKeyOrder` | nufs-core/metadata/background_task.go:58-60 | the order in which a scan visits entries is the order of their keys |
| `TaskQueue.PrefixIsScan` | nufs-core/metadata/background_task.go:62-64 | a prefix scan finds the entries of one type and state and no others |
| `TaskQueue.KeysDistinct` | nufs-core/metadata/background_task.go:58-60 | entries with different fields have different keys |
| `TaskQueue.TaskStore.Put` | nufs-core/metadata/background_task.go:66-90 | each task keeps exactly one matching entry if and only if it is new or its key changes |
| `TaskQueue.RePutLosesEntry` | nufs-core/metadata/background_task.go:66-90 | a queued task put twice unchanged is in the table and not in the queue |
| `TaskQueue.TaskStore.FirstDue` | nufs-core/metadata/background_task.go:133-168 | the earliest due eligible task of one state, or none is due |
| `TaskQueue.TaskStore.Lease` | nufs-core/metadata/background_task.go:123-173 | leases the earliest due eligible queued task, failing that the earliest due retrying one; nothing without an owner name |
| `TaskQueue.TaskStore.Complete` | nufs-core/metadata/background_task.go:184-192 | succeeds exactly for a known task, which ends with no owner; the index stays right if and only if its key changed |
| `TaskQueue.TaskStore.Fail` | nufs-core/metadata/background_task.go:194-212 | counts the attempt and dead-letters the task exactly at the limit, three if none is given, else retries it after as many seconds as attempts; the index stays right if and only if its key changed |
| `TaskQueue.FailsUntilDead` | nufs-core/metadata/background_task.go:123-212 | a task that is leased whenever due and always fails is retried one time less than the limit and is then dead, its entry right throughout |
| `DirectoryRanges.PartitionExact` | nufs-core/metadata/directory_partition.go:140-154 | in a partition every name has exactly one owner |
| `DirectoryRanges.SplitPartition` | nufs-core/metadata/directory_partition.go:105-135 | a split strictly inside keeps the sorted partition |
| `DirectoryRanges.SplitExactIff` | nufs-core/metadata/directory_partition.go:105-135 | every name keeps exactly one owner if and only if the split point is non-empty and on or between the bounds |
| `DirectoryRanges.EmptySplitShares` | nufs-core/metadata/directory_partition.go:105-135 | splitting the whole namespace at the empty name gives every name two owners |
| `DirectoryRanges.SplitMovesRightHalf` | nufs-core/metadata/directory_partition.go:105-154 | a split changes the owner only of names in the right half |
| `DirectoryRanges.SplitsPartition` | nufs-core/metadata/directory_partition.go:105-135 | after any run of splits strictly inside their ranges the list is a sorted partition and every name has one owner |
| `DirectoryRanges.SplitsMove` | nufs-core/metadata/directory_partition.go:105-154 | in a whole run a name's shard changes only to that of a split at or before the name |
| `DirectoryRanges.DirectoryPartitionStore.SplitRange` | nufs-core/metadata/directory_partition.go:105-135 | one more version, the range replaced by its two halves in sorted order, refused out of bounds; every name keeps one owner exactly for split points on or between the bounds |
| `DirectoryRanges.DirectoryPartitionStore.Lookup` | nufs-core/metadata/directory_partition.go:140-154 | the shard of the one range that holds the name |

## Left out

- Truncate and AppendWrite: Truncate reslices buffers that later writes take to be full, so it needs a contract of its own.
- Metadata and chunk read errors inside the buffer: reads of referenced chunks succeed in the model; write, load, allocation and commit errors are modelled.
- Writes to spilled chunks are modelled, but the run theorem covers spilling switched off, where the source promises a consistent view.
- An inode commit that reports an error is taken not to have landed; a crash in the middle of a flush is not modelled.
- The global dirty counter of a file is modelled as its own field; other files sharing the counter are not.
- `BufferedFile.BufferedFile.TouchRange` and `ZeroRange`: the caller's inode update is a flag that says whether it landed.
- ErasureReads.ReadChunk: a recorded size below the data length is not covered; ranges that run past the data are covered by ErasureWindows.ReadWindow and ErasureChunks.ReadFull on their own.
- Reed-Solomon arithmetic, checksums, hashes, encryption and the value encodings: abstract, with equal checksums standing for equal bytes.
- The V1 storage paths, the small-file stream, WriteGen, Delete and remove-source migration of the data node.
- Usage accounting under concurrency: it is exact only in sequential runs.
- The capacity guard that may refuse a write to a disk that is nearly full.
- S3 Delete racing Publish, multiple backup IDs in one run, and JSON field validation.
- The legacy (pre-fence) tombstone batches and the inode reference epoch, which the current validators ignore.
- Backup catalog normalisation and repository reconciliation.
- ShardPlanner.PlanShards: candidate disks are distinct; a loop that may not end is watched for a given number of turns. The stripe's state check and its persistence are not modelled.
- MigrationPlanner.PlanRebalance: the floating-point imbalance verdict is a parameter, node IDs are distinct, and the result holds for every order of the nodes, so the sort is not modelled.
- BackupTasks.SuccessWasDurable: update times are not compared, because the source does not compare them; BackupTasks.ExactIffDistinct says when the whole record was durable.
- HTTP, TLS, connection pools, metrics, the file-system backup repository and the cross-shard transaction log: plumbing or easy members.
