# ztierfs, verified

A Dafny model of ztierfs, a content-addressed, deduplicating file system on two storage tiers. Files are chunk
rows over shared blocks; a block is a row plus payload files named by digest on a hot and a cold tier; deletions of
hot files are queued and carried out after commit. The model covers how rows and files change at different moments,
and proves what holds in between.

| part | modules |
|---|---|
| tables, counts, chunk replacement | `Types`, `Schema`, `ChunkTable`, `Metadata` |
| files as byte sequences | `FlatFile`, `FileContent`, `FileView`, `FileHistory`, `FileService`, `NameHistory` |
| blocks, read fallback, cache | `TierRead`, `BlockStore`, `LruCache` |
| disk and database with crashes | `Tiering`, `TieringSafety`, `TruncateHazard`, `Histories`, `StaleDrain` |
| whole operations, cleanup, recovery after a crash | `Presence`, `PresenceHazard`, `Cleanup`, `Recovery` |
| demotion and delete-queue loops | `DemotionLoop`, `PendingDeletions` |
| fsck and scrub | `Fsck`, `Checker`, `FsckHazard`, `HealthyTables`, `Scrub`, `FsckThenScrub` |
| names and lifetimes | `DirectoryTree`, `Lifetime`, `Handles`, `Namespace`, `Readdir` |
| locks | `ReadWriteLock`, `AdvisoryLocks` |

`Tiering` is one transition system for disk and database: files change at once and survive a crash, rows change in
the open transaction and survive only its commit. The methods of `BlockStore`, `FileService`, `DemotionLoop` and
`PendingDeletions` are each shown to take steps of it (`Reaches`), so its invariant covers them at every point where a
crash can fall. `Presence` has the same code as whole operations without crashes (`OpIsSteps`), which is where cleanup belongs,
and `Recovery` leads from a crash in the first system through a repair into the second. Guards stand for what the code does
not check, and each is shown to be exact.

Hypotheses, stated in the model:

- the digest is injective (`Types.Digest` is a free constructor) and compression round-trips (`Types.Payload`);
- the length of a compressed payload is one fixed function: the compression level is never changed (`SizesExact`,
  `BlockStore.GoodCodec`; `ChangedCodecStoresExactly` has the other case);
- whether a tier can be reached is fixed during one operation (`down`);
- parents passed by the kernel are directories, and no two operations on one file overlap (content lock);
- a block is not made hot while the deletion of its hot file is queued, and a left-over file has the encoding of the
  row (`Tiering.Guard`); in `Presence` also no crash, and a copy-up or a read repair, which write their row some time
  after the read that caused them, still find the copies they claim (`Presence.OpGuard`);
- one drainer at a time works on the delete queue (`StaleDrain` has the other case).

Where the code does not meet what it is for, the model keeps the code and a lemma gives the case:

- truncation removes chunks before it re-inserts the boundary block, so a file whose removed chunk equals the
  shortened boundary chunk loses data at the next drain (`TruncateLoses`, `TruncateLosesExample`; the exact condition
  is `TruncateSafeExactly`);
- more generally, re-inserting a block while its hot file is queued for deletion loses it (`QueuedInsertLoses`; exact
  in `InsertSafeExactly`, for the system without cleanup, where a cold file saves the block);
- with cleanup a cold file does not save it: the bytes of a deleted promoted block, written again before its hot file is
  drained, are lost in one cleanup run without any crash (`QueuedReuseLoses`, `QueuedReuseLosesExample`; exact in
  `ReuseSafeExactly`);
- a left-over file in the other encoding makes a fresh row unreadable (`LeftoverUnreadableExample`; exact in
  `FreshBlockReadsExactly`);
- a copy-up runs unconditionally some time after the read that scheduled it: after a write and a cleanup in between it
  claims a cold copy that is gone, and demotion loses the block in a run without crashes (`LateCopyUpLoses`,
  `LateCopyUpLosesExample`; exact in `CopyUpStrictExactly`);
- a read repair recorded after the same two operations does so too (`LateRepairLoses`, `LateRepairLosesExample`; exact
  in `RecordStrictExactly`);
- a second drainer with a stale batch takes the file of a block that was written again (`StaleBatchLoses`,
  `StaleBatchLosesExample`; exact in `LateUnlinkSafeExactly`);
- after a change of the compression level a block that is only on the cold tier cannot be written again
  (`ChangedCodecExample`; exact in `ChangedCodecStoresExactly`);
- cleanup after a crashed demotion, and demotion after a crashed cleanup, lose a block unless fsck runs in between
  (`DemotionCrashThenCleanupLoses`, `CleanupCrashThenDemotionLoses`, each with an example; exact in
  `CleanPromotedKeepsCopyExactly` and `DemoteKeepsCopyExactly`);
- fsck keeps queue rows, so it restores the presence invariant exactly when no hot file it would rely on is queued
  (`FsckRestoresBitsExactly`; `RepairFallsShort`, `RepairFallsShortExample`);
- fsck with repair fails as a whole, rather than report one block, when the cold tier is unreachable and a referenced
  row claims only a hot copy that is not there (`RepairRefusedWhileAway`, `RepairRefusedExample`; exact in
  `RepairSafeExactly`);
- fsck drops the claim of a hot copy, or reports the block missing, when it merely cannot look at the hot tier
  (`HotAwayReportedMissing`, `HotAwayExample`; exact in `HotClaimKeptExactly`);
- a file that was unlinked while open stays behind after a crash, and neither mount nor fsck removes it
  (`UnlinkedStaysSilent`, `UnlinkedStaysExample`; exact in `CrashKeepsSoundExactly`);
- fsck reports missing chunks on a healthy file system that holds nothing but holes (`HolesReportedExample`; exact in
  `HealthyIsSilentExactly`);
- advisory locks with a negative length unlock nothing (`NegativeUnlockExample`; exact in
  `UnlockMeetsFcntlExactly`).

## Model

| member | source | states |
|---|---|---|
| `ChunkTable.ReplaceKeepsRefsExact` | ztierfs/metadata/chunks.py:73-143 | Through any batch (removals, overwritten chunks, a `delete_from` range overlapping replacements, several chunks naming one block) every refcount stays the number of rows naming the block, and the missing-block and negative-refcount errors cannot occur |
| `ChunkTable.ReplaceLeavesOnlyGarbage` | ztierfs/metadata/blocks.py:197-264 | After a batch a row nobody refers to exists only as a cold block marked as garbage |
| `ChunkTable.CloneKeepsRefsExact` | ztierfs/metadata/namespace.py:259-324 | A clone shares every block of its source and the counts stay exact |
| `ChunkTable.ReplaceRowsExactly` | ztierfs/metadata/blocks.py:197-264 | Row by row and from the number of chunks naming a block before and after only: which rows stay, go, become cold garbage or lose that mark, in which columns they change, and which hot files join the delete queue |
| `ChunkTable.CloneRowsExactly` | ztierfs/metadata/namespace.py:259-324 | The same for a clone: counts and garbage marks follow the naming rows, no other column changes, nothing is queued |
| `Metadata.ReplacedExactly` | ztierfs/metadata/chunks.py:73-143 | Chunk by chunk: a put wins over a removal of its range, a removal and the rows from `delete_from` on go, every other row of any file stays |
| `Metadata.MetadataStore.ReplaceChunks` | ztierfs/metadata/chunks.py:73-143 | Fails exactly on bad arguments or missing keys when counts are exact, and otherwise leaves the tables of the replacement with exact counts |
| `Metadata.MetadataStore.ApplyBlockRefcountDeltas` | ztierfs/metadata/blocks.py:197-264 | The per-digest loop succeeds exactly when every negative delta is acceptable, and then has the combined effect of all deltas on rows and delete queue |
| `Metadata.MetadataStore.ApplyNegative` | ztierfs/metadata/blocks.py:270-283 | Last reference gone: the row becomes cold garbage or goes, and a hot file is queued for deletion |
| `FlatFile.WriteRefines` | ztierfs/file_content.py:447-463 | Storing the touched chunks is a splice of the flat file with zero fill past the old end, through holes, short tails and chunk boundaries |
| `FlatFile.TruncateRefines` | ztierfs/file_content.py:357-397 | The rows a truncation leaves stand for the first `length` bytes, extended with zeros |
| `FileContent.PlanReadsSlice` | ztierfs/file_content.py:133-183 | The joined parts of a read plan are exactly the requested slice of the flat file |
| `FileContent.PatchedIsWritten` | ztierfs/file_content.py:301-338 | Padding the old chunk and overwriting the planned range gives the chunk of the spliced file, for every kind of chunk write |
| `FileContent.PlannedWriteFacts` | ztierfs/file_content.py:227-299 | Chunk lengths, in-chunk ranges, source positions and the kind of each chunk write, in terms of file size, offset and data length |
| `FileHistory.EffectRefines` | ztierfs/file_content.py:349-355 | Each operation on rows is the operation on plain bytes, and every other file keeps its bytes |
| `FileHistory.HistoryRefines` | ztierfs/file_content.py:357-397 | Any history of creations, writes, truncations, clones and deletions over files sharing blocks in any way ends with the bytes of the plain history |
| `FileView.CloneDone` | ztierfs/metadata/namespace.py:259-324 | The clone reads like its source and no other file changes |
| `FileView.DeleteDone` | ztierfs/file_ops.py:126-133 | Deleting a file changes the bytes of no other file |
| `FileService.FileContentService.PlanRead` | ztierfs/file_content.py:133-183 | Errors, empty plans and the planned chunks of a read clamped at the end of the file |
| `FileService.FileContentService.ReadFile` | ztierfs/file_content.py:185-213 | A read returns the clamped slice of the file, and fails exactly when the block of a chunk in the range cannot be read |
| `FileService.FileContentService.PlanWriteFile` | ztierfs/file_content.py:227-299 | Errors and plan of a write; the running data position is where each chunk takes its bytes |
| `FileService.FileContentService.PrepareFileWrite` | ztierfs/file_content.py:301-338 | The prepared chunks are those of the spliced file; fails exactly when a partly overwritten chunk cannot be read |
| `FileService.FileContentService.SetPreparedChunks` | ztierfs/file_content.py:447-463 | Blocks first, then one batch of rows: exact rows, exact counts, and a guarded run of the transition system |
| `FileService.FileContentService.WriteInode` | ztierfs/inode_fuse.py:368-380 | A write splices exactly its file, or fails and changes nothing; under the guards it is a run of the transition system wherever a crash falls |
| `FileService.FileContentService.TruncateInode` | ztierfs/inode_fuse.py:252-299 | Truncation cuts or zero-extends exactly its file, or fails and changes nothing; error cases; under its guard a run of the transition system |
| `FileService.FileContentService.RemoveFileChunks` | ztierfs/file_content.py:478-486 | Rows from an index on go and the others stay, with exact counts |
| `FileService.FileContentService.RewriteLast` | ztierfs/file_content.py:357-397 | The boundary chunk is rewritten with exactly the bytes that stay |
| `BlockStore.Snapshot` | ztierfs/block_store.py:198-265 | A successful read returns the block itself cut or zero-filled to size, whatever is unreachable or left over |
| `BlockStore.SafeRowReads` | ztierfs/block_store.py:198-265 | Under the crash invariant with both tiers reachable every read succeeds |
| `BlockStore.SnapshotExactly` | ztierfs/block_store.py:198-265 | On any disk and any row: a read succeeds if and only if the copy it turns to is framed as the row says and has the length the row says, and then returns those bytes |
| `BlockStore.PreparedExactly` | ztierfs/block_store.py:552-565 | Which blocks are compressed, which are kept in the row, and the sizes recorded |
| `BlockStore.RowsAfterExactly` | ztierfs/block_store.py:387-435 | Column by column, every row after the blocks of a write were stored |
| `BlockStore.FilesStoredExactly` | ztierfs/block_store.py:387-435 | File by file: exactly the hot files that are needed and not there appear, with the payload of their row |
| `BlockStore.BlockStore.UniqueBlocks` | ztierfs/block_store.py:387-435 | Two prepared blocks with one digest must agree |
| `BlockStore.BlockStore.EnsureExisting` | ztierfs/block_store.py:458-482 | Reusing a row makes it hot again with a payload in the encoding of the row and notes the bytes written; it succeeds exactly when sizes agree and the tier is reachable; in columns and paths |
| `BlockStore.ChangedCodecStoresExactly` | ztierfs/block_store.py:484-500 | A block that is only on the cold tier can be written again under another codec if and only if its row is not compressed or the compressed length came out the same |
| `BlockStore.ChangedCodecExample` | ztierfs/block_store.py:484-500 | One compressed byte and a codec whose output is one byte longer |
| `BlockStore.BlockStore.EnsurePreparedBlocks` | ztierfs/block_store.py:387-435 | Afterwards every block has its row and the file it needs, nothing else changed and no file was overwritten; demotion is requested exactly when the bytes written since the last request reach the limit, in whatever order the blocks are stored; steps of the transition system under the guards |
| `BlockStore.BlockStore.NoteHotWrite` | ztierfs/block_store.py:680-687 | The request and the counter after a write; the counter stays below the limit |
| `BlockStore.BlockStore.WriteBlockFile` | ztierfs/block_file_io.py:40-62 | A file that is there stays untouched |
| `BlockStore.BlockStore.CopyUpColdBlock` | ztierfs/block_store.py:313-331 | The row claims the hot copy only when the file is there, and then demotion is requested; steps of the transition system |
| `BlockStore.BlockStore.ScheduleColdCopyUp` | ztierfs/block_store.py:301-311 | Schedules exactly the cold reads small enough for the hot tier, once per block |
| `BlockStore.InsertMany` | ztierfs/metadata/blocks.py:135-177 | Inserting many rows is a guarded run of single insertions |
| `LruCache.LruCache.Get` | ztierfs/block_store.py:633-642 | A hit returns the bytes of the block and becomes the most recent entry |
| `LruCache.LruCache.Put` | ztierfs/block_store.py:644-656 | Just enough of the oldest entries go; recorded size is the sum of lengths and within the limit |
| `LruCache.LruCache.ReadBlockSnapshot` | ztierfs/block_store.py:198-265 | The cache never changes the bytes of a read; it can only let one succeed that would have failed; a successful read of the cold copy, cached or not, schedules its copy-up |
| `LruCache.AccessTierExactly` | ztierfs/block_store.py:198-265 | Which tier an access is recorded under: with a cached payload the preferred one, else the one whose file was read |
| `TierRead.ReadTiered` | ztierfs/block_store.py:857-877 | Read fallback succeeds exactly when the preferred copy is present, or it is missing and the other is present, or it is unavailable and the other is declared and present; which tier, which repair and which error in each case |
| `TierRead.AfterRead` | ztierfs/block_store.py:368-385 | A repair clears a bit only for a confirmed missing copy, keeps the schema check and leaves the preference at a declared copy |
| `TierRead.AfterReadExactly` | ztierfs/block_store.py:368-385 | The row after a read, column by column: it changes only when the preferred copy is confirmed missing and the other one was found |
| `TierRead.ReadsKeepMetadataSound` | ztierfs/block_store.py:348-356 | The same over any sequence of reads |
| `Tiering.InvGivesNoLoss` | ztierfs/metadata/store.py:127-172 | In every state of the crash invariant each committed reference has its payload |
| `TieringSafety.StepKeepsInv` | ztierfs/metadata/store.py:127-172 | Every sub-step of writing, demotion, copy-up, late read repair, draining, commit, rollback and crash keeps the crash invariant |
| `TieringSafety.NothingIsLost` | ztierfs/block_store.py:387-435 | Over every guarded run from the empty file system no committed reference loses its last copy, every committed block reads back and counts are exact |
| `TieringSafety.ReachesKeepsInv` | ztierfs/block_store.py:693-734 | So do all states reached from an invariant state, in particular those the methods here reach |
| `TieringSafety.LateRepairIsSafe` | ztierfs/block_store.py:368-385 | A repair that a read decided in one state can be recorded in every later state, whatever happened to the block in between |
| `TieringSafety.InsertSafeExactly` | ztierfs/block_store.py:399-414 | Inserting a fresh hot row is safe in all continuations if and only if the deletion of its hot file is not queued or a cold file exists |
| `TieringSafety.QueuedInsertLoses` | ztierfs/block_store.py:399-414 | Otherwise a reference, a commit and a drain lose the block: neither insert nor reuse cancels a queue row |
| `TieringSafety.FreshBlockReadsExactly` | ztierfs/block_file_io.py:40-62 | A fresh row reads back in all continuations if and only if left-over files have its encoding and its hot file is not queued or backed by a cold one |
| `TieringSafety.LeftoverUnreadableExample` | ztierfs/block_file_io.py:40-62 | A write that crashed leaves a plain file; the same bytes written again under compression cannot be read |
| `StaleDrain.LateUnlinkSafeExactly` | ztierfs/block_store.py:693-734 | The unlink of a second drainer that works from a batch read before is safe in all continuations if and only if by then the block has no tiered row, or a cold file |
| `StaleDrain.StaleBatchLoses` | ztierfs/pending_deletions.py:28-55 | Two drainers read the same batch; one finishes, the file is written again, and the other takes the only copy of the new block |
| `StaleDrain.StaleBatchLosesExample` | ztierfs/pending_deletions.py:28-55 | One byte in one file is enough, by a run from the empty file system |
| `TruncateHazard.RemovalQueuesExactly` | ztierfs/metadata/blocks.py:197-264 | Removing a range of chunks drops the row of a block and queues its hot file exactly when the removed rows held all its references, it is hot and has no cold copy |
| `TruncateHazard.TruncateSafeExactly` | ztierfs/file_content.py:357-397 | A truncation that stores its boundary chunk as a new block is safe in all continuations if and only if the hot file of that block was not queued and the removed chunks were not all that referred to it, or a cold copy exists |
| `TruncateHazard.TruncateLoses` | ztierfs/file_content.py:357-397 | Truncating to bytes whose block only the removed chunks referred to loses the block at the next drain, from any healthy state |
| `TruncateHazard.TruncateLosesExample` | ztierfs/file_content.py:357-397 | A concrete healthy file, bytes 7 8 7 with chunk size two, for which truncation to one byte does so |
| `Presence.OpKeepsStrict` | ztierfs/maintenance/cleanup.py:39-175 | Every whole operation, both cleanups included, keeps presence bits true under its guard: a hot bit means an unqueued hot file, a cold bit a cold file |
| `Presence.OpIsSteps` | ztierfs/block_store.py:399-414 | Every whole operation but the cleanups is, where the bits are true and its guard holds, a guarded run of sub-steps of the crash model, with the same effect on rows and files |
| `Presence.MakingHotStrictExactly` | ztierfs/block_store.py:399-414 | The guards are exact: the bits stay true if and only if the deletion of the hot file is not queued (and, for a new row, left-over files have its encoding), and for the row of a copy-up if and only if both files are there and the deletion is not queued |
| `PresenceHazard.ReuseSafeExactly` | ztierfs/block_store.py:458-482 | Reusing the row of a cold block is safe for every guarded continuation, both cleanups included, if and only if the deletion of its hot file is not queued: neither the write nor the row update cancels a queue row, and a cold file does not help |
| `PresenceHazard.QueuedReuseLoses` | ztierfs/block_store.py:458-482 | A deleted promoted block whose hot file is still queued is written again: the drain takes the hot file, the promoted pass of the same cleanup run the cold one, and the block is lost without any crash |
| `PresenceHazard.QueuedReuseLosesExample` | ztierfs/maintenance/cleanup.py:92-133 | One byte in one file is enough, from the empty store: written, demoted, copied up, removed, written again |
| `Presence.CopyUpStrictExactly` | ztierfs/block_store.py:313-331 | A whole copy-up, whenever it runs, keeps the bits true if and only if it finds no file, or it finds the cold one and the deletion of the hot one is not queued |
| `Presence.CopyUpAtReadIsSafe` | ztierfs/block_store.py:301-311 | It does when it runs at once, on the state of the read that schedules it |
| `PresenceHazard.LateCopyUpLoses` | ztierfs/block_store.py:313-331 | Before it runs, a write makes the block hot and cleanup drops the cold copy: the copy-up then claims a cold copy that is gone, and the next demotion loses the block without any crash |
| `PresenceHazard.LateCopyUpLosesExample` | ztierfs/block_store.py:313-331 | One byte in one file is enough, from the empty store |
| `Presence.RecordStrictExactly` | ztierfs/block_store.py:368-385 | Recording a read repair keeps the bits true if and only if the schema refuses it or the copies it declares are still there |
| `Presence.RepairAtReadIsTrue` | ztierfs/block_store.py:857-877 | They are there when the read decides the repair, whatever row it had planned with |
| `PresenceHazard.LateRepairLoses` | ztierfs/block_store.py:348-356 | Between that read and its record the block is written and cleaned up: the recorded claim loses the block after one more write and one demotion, without any crash |
| `PresenceHazard.LateRepairLosesExample` | ztierfs/block_store.py:348-356 | One byte in one file is enough, from the empty store |
| `Presence.CrashFreeRuns` | ztierfs/maintenance/cleanup.py:218-275 | Over crash-free runs within the guards bits stay true and every referenced block reads back |
| `Presence.CleanPromotedKeepsCopyExactly` | ztierfs/maintenance/cleanup.py:92-133 | After a crash, cleanup of a promoted copy leaves a copy if and only if the hot file it did not look for is there |
| `Presence.DemoteKeepsCopyExactly` | ztierfs/block_store.py:777-791 | Demotion leaves a copy if and only if the cold file is there, or the row claims none and the hot file can be copied |
| `PresenceHazard.DemotionCrashThenCleanupLoses` | ztierfs/maintenance/cleanup.py:92-133 | A crash inside the demotion of a promoted block followed by cleanup without fsck loses the block |
| `PresenceHazard.DemotionCrashThenCleanupLosesExample` | ztierfs/block_store.py:777-791 | One byte in one file is enough, by a guarded run from the empty file system whose crash loses nothing by itself |
| `PresenceHazard.CleanupCrashThenDemotionLoses` | ztierfs/block_store.py:777-791 | A crash inside cleanup followed by demotion without fsck loses the block |
| `PresenceHazard.CleanupCrashThenDemotionLosesExample` | ztierfs/maintenance/cleanup.py:92-133 | One byte in one file is enough, from the empty store |
| `Cleanup.Cleaner.CleanupPromotedCopies` | ztierfs/maintenance/cleanup.py:39-175 | One run drains the queue, drops promoted cold copies and then cold garbage: each pass removes exactly the candidates of its query whose path can be reached, with the rows and files in columns, a dry run nothing; all counts of the report, reclaimed bytes and remaining garbage included; true bits stay true and referenced blocks read back |
| `Cleanup.Cleaner.CleanPromotedRows` | ztierfs/maintenance/cleanup.py:92-133 | Of the promoted rows exactly the reachable ones lose their cold file and cold bit and nothing else; as whole operations |
| `Cleanup.Cleaner.DrainPendingDeletions` | ztierfs/maintenance/cleanup.py:178-215 | Unlinks and dequeues exactly the queued hot files that can be reached; no row and no cold file changes |
| `Cleanup.Cleaner.CleanupColdGarbage` | ztierfs/maintenance/cleanup.py:218-275 | At most `max_deletes` of the candidates are looked at, the oldest ones, and exactly the reachable among them lose row and cold file |
| `Cleanup.CoveredIsSwept` | ztierfs/maintenance/cleanup.py:39-175 | A pass over any rows, as whole operations, changes exactly the reachable ones: promoted rows lose cold bit and file, garbage loses row and file |
| `Cleanup.ReclaimedMore` | ztierfs/maintenance/cleanup.py:218-275 | The bytes reported: each reachable row adds its stored size, an unreachable one nothing |
| `DemotionLoop.Demoter.DemoteColdBlocks` | ztierfs/block_store.py:740-815 | Terminates; moves one first candidate at a time while the hot sum is too large; at most `max_blocks`; stops only at or below hot_min, on budget, without a candidate or on an unreachable tier, the last with a new request; a run of the transition system |
| `DemotionLoop.TraceEffect` | ztierfs/block_store.py:740-815 | Exactly the moved blocks change: different blocks, each hot, unprotected and old enough; rows go from hot to cold and files with them |
| `DemotionLoop.Demoter.DemotionCandidate` | ztierfs/metadata/blocks.py:353-395 | A row that may move, in columns, such that no other has fewer reads, or as many and a later first chunk, or the same and an older access; none exactly when no row may move |
| `DemotionLoop.BestExactly` | ztierfs/metadata/blocks.py:353-395 | The order of the query against any other row that may move: reads first, then the first chunk index descending, then the access time |
| `DemotionLoop.Demoter.HotTierStoredSize` | ztierfs/metadata/blocks.py:343-351 | The sum of stored sizes over hot tiered rows |
| `DemotionLoop.HotSumDemoted` | ztierfs/block_store.py:798-806 | Taking the stored size off the running total keeps it the hot sum |
| `PendingDeletions.DeletionQueue.DrainFiles` | ztierfs/pending_deletions.py:28-55 | The three id lists and the unlinked files, in order |
| `PendingDeletions.DeletionQueue.CommitBatch` | ztierfs/metadata/gc.py:55-62 | Only rows of unlinked files leave the queue; the others get a new timestamp |
| `PendingDeletions.DeletionQueue.Pending` | ztierfs/metadata/gc.py:31-46 | Exactly the first rows of the chosen tier within the limit, by id, a negative limit being none |
| `PendingDeletions.FirstOfTier` | ztierfs/metadata/gc.py:31-46 | A row of the tier that was left out has a higher id than every row of the batch, which is as long as the limit |
| `PendingDeletions.OutcomeExactly` | ztierfs/pending_deletions.py:28-55 | Of a batch, which ids are removed, deferred and unavailable: by whether the unlink failed and whether the path could be reached |
| `PendingDeletions.DeletionQueue.DrainPendingDeletions` | ztierfs/block_store.py:693-734 | Terminates; removes at most `max_deletions` rows, only of the tier and only after their unlink; keeps every failed row; without a budget stops only when the next batch has nothing to remove, and empties the tier when fewer rows fail than a batch holds; a run of the transition system |
| `PendingDeletions.FewFailures` | ztierfs/block_store.py:693-734 | A batch without progress that is longer than the number of failing rows is the whole queue |
| `Fsck.OnePassRepairs` | ztierfs/maintenance/checker.py:159-363 | One repair pass deletes no file of a referenced block, whatever is unreachable, and where its paths can be reached leaves exact count, presence bits equal to the disk and an existing preferred copy, with nothing left to report |
| `Fsck.OnePassCounts` | ztierfs/maintenance/checker.py:159-363 | Counts are exact after one pass |
| `Fsck.ReportedExactly` | ztierfs/maintenance/checker.py:159-363 | Each code is reported if and only if its condition on row columns, chunk count, the two files and their reachability holds; in particular a referenced block whose files are gone, a wrong count, wrong bits and an absent preferred copy are reported |
| `Fsck.RepairedColumns` | ztierfs/maintenance/checker.py:159-363 | When repair drops a row, and each column of a row it keeps, from the same columns and files |
| `Fsck.FilesAfterExactly` | ztierfs/maintenance/checker.py:421-439 | Which files are left after a repair, from rows, chunks and files before it: one goes if and only if it can be reached and no tiered record names it, or nothing refers to that record, which is no cold garbage and leaves no doubt about a cold copy |
| `Fsck.UnverifiedStays` | ztierfs/maintenance/checker.py:159-363 | A record that claims a cold copy which cannot be looked at keeps that claim, its preference and its files, referenced or not |
| `Fsck.HotClaimKeptExactly` | ztierfs/maintenance/checker.py:159-363 | With the hot tier there is no such care: a hot copy that cannot be looked at loses its claim or is reported missing, unless nobody refers to the block, it is no garbage and its cold copy cannot be looked at either |
| `FsckHazard.HotAwayReportedMissing` | ztierfs/maintenance/checker.py:159-363 | A block that was just written is reported missing while the hot tier is away, though its file is there |
| `FsckHazard.HotAwayExample` | ztierfs/maintenance/checker.py:159-363 | One byte in one file reaches that state from the empty file system |
| `Fsck.RepairSafeExactly` | ztierfs/maintenance/checker.py:159-363 | A pass keeps every block safe, whatever it cannot reach, if and only if it would not clear the only presence bit of a referenced row, which the schema refuses |
| `FsckHazard.RepairRefusedWhileAway` | ztierfs/maintenance/checker.py:838-849 | A crashed demotion and then an unreachable cold tier are such a case: repair fails as a whole, and would succeed with the tier back |
| `FsckHazard.RepairRefusedExample` | ztierfs/maintenance/checker.py:838-849 | One byte in one file is enough |
| `Fsck.FsckRestoresBitsExactly` | ztierfs/maintenance/checker.py:813-836 | From any state a crash can leave, a pass that reaches every file makes the bits true again if and only if no row that is referenced, or is cold garbage with a hot file, has its hot file queued for deletion |
| `FsckHazard.RepairFallsShort` | ztierfs/maintenance/checker.py:813-836 | A guarded run from the empty file system reaches a state that one pass does not put right |
| `FsckHazard.RepairFallsShortExample` | ztierfs/maintenance/checker.py:813-836 | One byte in one file is enough |
| `Recovery.RepairedRunsLoseNothing` | ztierfs/maintenance/checker.py:105-157 | Any guarded run, a crash at any point, one repair with every path reachable, then any guarded crash-free run with both cleanups: if the repair relies on no queued hot file, the repair keeps every committed chunk and every chunk reads back afterwards |
| `Recovery.DrainedRunsLoseNothing` | ztierfs/maintenance/checker.py:105-157 | In particular from the empty file system when the delete queue was empty at the crash |
| `Checker.Checker.CheckBlockRecords` | ztierfs/maintenance/checker.py:159-363 | The loop has exactly the verdicts per record, reports an issue if and only if it is due by columns, count and files, or stops exactly when some repair is refused |
| `Checker.Checker.CheckDiskOrphans` | ztierfs/maintenance/checker.py:421-439 | Deletes exactly the reachable files no tiered record names |
| `Checker.Checker.ScanDiskBlocks` | ztierfs/maintenance/checker.py:733-779 | The digests found on the tiers that can be scanned, and the tiers that cannot |
| `Checker.Checker.CheckInlinePayloads` | ztierfs/maintenance/checker.py:365-419 | Tiered records lose their inline payload and are reported, no others; nonempty files without chunks are reported when there was no record at all |
| `Checker.Checker.CheckNlinks` | ztierfs/maintenance/checker.py:512-539 | Reports exactly the inodes whose stored link count is wrong and corrects them |
| `Checker.Checker.Run` | ztierfs/maintenance/checker.py:105-157 | Fails exactly when a repair is refused, and then no row has changed and only files of unreferenced records may be gone; otherwise the repaired store, right link counts, an issue for a record if and only if it is due in the store as it was, and reports on exactly the bad rows of the other tables; without repair nothing changes |
| `Checker.LostBlockIsReported` | ztierfs/maintenance/checker.py:159-363 | A run reports every tiered block that a chunk refers to and of which no tier has a file |
| `Checker.MetadataReportedExactly` | ztierfs/maintenance/checker.py:441-510 | Each list of the other reports holds exactly the rows its query is for: chunks without block, inode or with a wrong size or of no file, entries without directory or inode, wrong link counts, files without chunks |
| `Checker.SecondPassIsSilent` | ztierfs/maintenance/checker.py:159-363 | A second pass reports nothing about a referenced block that has a file and can be reached |
| `HealthyTables.HealthyIsSilentExactly` | ztierfs/maintenance/checker.py:441-510 | On tables with the invariants of names, lifetimes, counts and sizes the checks of inodes, chunks and directory entries report nothing if and only if there is a block record or every file is empty |
| `HealthyTables.HolesReportedExample` | ztierfs/maintenance/checker.py:365-419 | A new file extended by truncation is healthy and is reported as missing its chunks |
| `HealthyTables.UnlinkedStaysSilent` | ztierfs/maintenance/checker.py:512-539 | A file that was unlinked while open outlives a crash: the tables are not sound, yet none of these checks reports it and a repair of link counts leaves it |
| `HealthyTables.UnlinkedStaysExample` | ztierfs/maintenance/checker.py:512-539 | One empty file, unlinked while open |
| `Scrub.DroppedExactly` | ztierfs/maintenance/checker.py:541-590 | By columns and files: a copy is dropped if and only if it is looked at and fails while the copy on the other tier is looked at and passes |
| `Scrub.GoodCopiesStay` | ztierfs/maintenance/checker.py:851-870 | A copy whose length is the stored size and which is plain of the raw size, or decodes to it, is never removed, over any set of blocks |
| `Scrub.DroppedIsReplaced` | ztierfs/maintenance/checker.py:851-870 | Where a copy was dropped the row no longer claims it and prefers the other tier, no other column changes, and the other tier holds a copy that passes by the columns |
| `Scrub.ResultExactly` | ztierfs/maintenance/checker.py:670-711 | What one copy gets: not looked at, passed, or which code, each if and only if a condition on columns, stored length and decoded length holds |
| `Scrub.TieredExactly` | ztierfs/maintenance/checker.py:592-648 | The copies of a block that go and the issues reported, by those conditions |
| `Scrub.OtherRowsStay` | ztierfs/maintenance/checker.py:851-870 | A row none of whose copies must go stays as it is |
| `Scrub.InlineIssuesExactly` | ztierfs/maintenance/checker.py:541-590 | The issues of a payload kept in its row, in the same terms |
| `Scrub.SecondPassDropsNothing` | ztierfs/maintenance/checker.py:541-590 | A second scrub drops nothing |
| `Scrub.Scrubber.ScrubTiered` | ztierfs/maintenance/checker.py:592-648 | Both tiers of one block: exactly the copies that must go are removed, exactly the issues due are reported, in columns and lengths |
| `Scrub.Scrubber.ScrubBlockPayloads` | ztierfs/maintenance/checker.py:541-590 | The loop removes exactly the files that must go by columns and lengths, changes exactly their rows and reports exactly the issues of each block; it drops nothing without repair |
| `Scrub.RepairedExactly` | ztierfs/maintenance/checker.py:541-590 | Under repair an issue is marked repaired exactly when its copy is dropped |
| `FsckThenScrub.ScrubKeepsRowCheck` | ztierfs/maintenance/checker.py:105-157 | A scrub with repair never violates a CHECK constraint of a block row, because the fsck pass before it makes the row claim the copy that stays |
| `ReadWriteLock.RunsAreSafe` | ztierfs/metadata/connection.py:209-271 | For any number of threads a writer is alone, and while anybody sleeps there is a holder, who will notify, or a woken writer that finds the lock free |
| `ReadWriteLock.NoReaderPassesWriter` | ztierfs/metadata/connection.py:242-247 | A thread starts to read only while no writer holds the lock or waits |
| `ReadWriteLock.ReadEntersExactly` | ztierfs/metadata/connection.py:242-247 | A read test lets the thread in if and only if no thread writes or waits to write, awake or asleep, whoever reads |
| `ReadWriteLock.WriteEntersExactly` | ztierfs/metadata/connection.py:256-265 | A write test lets the thread in if and only if no thread holds the lock |
| `ReadWriteLock.LeavingWakesExactly` | ztierfs/metadata/connection.py:217-271 | A thread that leaves wakes every sleeper if nobody else holds the lock, and otherwise no one |
| `ReadWriteLock.ReadersOnlyLeave` | ztierfs/metadata/connection.py:242-247 | While a writer waits the set of readers only shrinks |
| `ReadWriteLock.StepKeepsInv` | ztierfs/metadata/connection.py:217-271 | Every action keeps counters equal to thread counts and loses no wake-up |
| `ReadWriteLock.Lock.TestRead` | ztierfs/metadata/connection.py:242-247 | One test of the read loop as an action of the system; it answers true if and only if no thread writes or waits to write |
| `ReadWriteLock.Lock.BeginWrite` | ztierfs/metadata/connection.py:256-265 | Queueing a writer as an action of the system; it enters at once if and only if no thread holds the lock |
| `ReadWriteLock.Lock.LeaveRead` | ztierfs/metadata/connection.py:249-254 | Notifies everybody if and only if no other thread holds the lock |
| `ReadWriteLock.Lock.LeaveWrite` | ztierfs/metadata/connection.py:267-271 | A leaving writer notifies everybody |
| `AdvisoryLocks.AdvisoryLockTable.Apply` | ztierfs/locks.py:45-94 | What each command answers and leaves, for every range: with a proper one F_SETLK refuses exactly when F_GETLK reports a conflict, which is exactly when some byte conflicts; granted and released bytes are exactly those requested; the table stays a compatible map |
| `AdvisoryLocks.UnlockExact` | ztierfs/locks.py:122-158 | Unlocking clears exactly the requested bytes of that owner |
| `AdvisoryLocks.LockGrants` | ztierfs/locks.py:45-94 | After a grant the requested bytes have the requested type and the others are as before |
| `AdvisoryLocks.ConflictExact` | ztierfs/locks.py:104-120 | The table finds a conflict exactly when some byte really conflicts |
| `AdvisoryLocks.OverlapsExactly` | ztierfs/locks.py:160-170 | Records overlap exactly when they share a byte |
| `AdvisoryLocks.AdvisoryLockTable.Conflict` | ztierfs/locks.py:104-120 | The first blocking record, if any |
| `AdvisoryLocks.DescribedExactly` | ztierfs/locks.py:63-76 | What F_GETLK answers about a lock describes exactly its bytes, kind and owner |
| `AdvisoryLocks.AdvisoryLockTable.Unlock` | ztierfs/locks.py:122-158 | The rebuilt list clears exactly the range |
| `AdvisoryLocks.AdvisoryLockTable.ReleaseOwner` | ztierfs/locks.py:96-102 | The owner loses every lock on the inode and nobody else loses any |
| `AdvisoryLocks.UnlockMeetsFcntlExactly` | ztierfs/locks.py:122-158 | Unlocking clears the bytes fcntl asks for, on every table, if and only if the length is not negative |
| `AdvisoryLocks.NegativeUnlockExample` | ztierfs/locks.py:122-158 | One lock and one unlock of its bytes by a negative length, after which it is still held |
| `DirectoryTree.MoveTreeExactly` | ztierfs/metadata/namespace.py:382-400 | A move keeps the directory tree if and only if a moved directory does not go to itself or below itself |
| `DirectoryTree.InsertKeepsTree` | ztierfs/metadata/namespace.py:228-257 | A new inode keeps the tree and exact link counts |
| `DirectoryTree.LinkKeepsTree` | ztierfs/metadata/namespace.py:326-335 | So does a hard link |
| `DirectoryTree.UnlinkKeepsTree` | ztierfs/metadata/namespace.py:367-380 | So does removing an entry |
| `DirectoryTree.RmdirKeepsTree` | ztierfs/inode_fuse.py:617-634 | So does removing an empty directory |
| `Namespace.FileSystem.IsDescendant` | ztierfs/metadata/namespace.py:423-439 | Terminates and decides exactly whether one directory is or lies below another |
| `Namespace.FileSystem.Rename` | ztierfs/inode_fuse.py:646-683 | Each error if and only if its condition on the tables holds, in the order of the checks: RENAME_NOREPLACE with an existing target, a directory below itself, a directory over a file and the reverse, a target that is not empty; on an error nothing changes, otherwise the entry has moved and a replaced inode is unlinked; the tables stay sound |
| `Namespace.RenamedIsMoved` | ztierfs/metadata/namespace.py:382-400 | The tables of a rename, in plain entries, inodes and chunks: one entry moves, the target loses one link or, as its last, its inode and chunks, nothing else changes |
| `Namespace.RenameKeepsSound` | ztierfs/inode_fuse.py:646-683 | A rename that meets the checks, stated on the tables, keeps everything sound, replacing a target or not |
| `Namespace.OpenTargetSurvives` | ztierfs/inode_fuse.py:646-683 | A replaced target that is open keeps its inode and all its chunks |
| `Namespace.FileSystem.RemoveChild` | ztierfs/inode_fuse.py:617-634 | Each error of unlink and rmdir if and only if its condition on the tables holds; otherwise entry and link, and with the last link of an inode nobody has open inode and chunks, are gone and nothing else |
| `Namespace.FileSystem.Link` | ztierfs/inode_fuse.py:756-770 | Each error of link if and only if its condition on the tables holds; otherwise one entry and one link more |
| `Namespace.FileSystem.MakeNode` | ztierfs/inode_fuse.py:447-464 | Errors and effect of mkdir, mknod and symlink |
| `Namespace.FileSystem.CreateFile` | ztierfs/inode_fuse.py:406-438 | Each error of create if and only if its condition holds; otherwise a new empty file, or the existing one, emptied under O_TRUNC; a fresh handle bound to it |
| `Namespace.FileSystem.CloneFile` | ztierfs/namespace_ops.py:19-50 | Each error of clonefile if and only if its condition on the tables holds; otherwise a new inode with the chunks of the source and one entry |
| `Namespace.FileSystem.OpenFile` | ztierfs/inode_fuse.py:310-324 | Errors of open, after which nothing has changed; with O_TRUNC a file that is not empty loses its chunks and its size; a fresh handle bound to the inode |
| `Namespace.FileSystem.Release` | ztierfs/file_ops.py:73-99 | The locks of the owner go, and the last handle of an inode without links takes inode and references with it |
| `Namespace.FileSystem.RemoveEntryNode` | ztierfs/file_ops.py:101-117 | Without links and handles the inode and its references go |
| `Lifetime.UnlinkKeepsSound` | ztierfs/file_ops.py:101-117 | An inode goes exactly when its last link went and nobody has it open; nothing else is unsound afterwards |
| `Lifetime.ReleaseKeepsSound` | ztierfs/file_ops.py:119-124 | After a release the inode exists exactly if it is still open or has an entry |
| `Lifetime.CrashKeepsSoundExactly` | ztierfs/file_ops.py:119-124 | A crash, which closes every handle, keeps the tables sound if and only if every file that was open has a name |
| `Lifetime.CloneKeepsSound` | ztierfs/metadata/namespace.py:259-324 | A clone keeps tree, link counts, lifetimes and reference counts |
| `NameHistory.EmptiedIsTruncation` | ztierfs/inode_fuse.py:406-438 | O_TRUNC in create and open is truncation to no bytes |
| `NameHistory.UnlinkedIsEffect` | ztierfs/file_ops.py:101-117 | Unlinking deletes exactly the file that had this as its last link and is not open, and else changes no byte of any file |
| `NameHistory.RenamedIsEffect` | ztierfs/inode_fuse.py:646-683 | A rename deletes at most the file it replaces, and moves no bytes |
| `NameHistory.ReleasedIsEffect` | ztierfs/file_ops.py:119-124 | The last release of a file without links deletes it; any other release changes no byte |
| `NameHistory.ClonedIsEffect` | ztierfs/namespace_ops.py:19-50 | clonefile is the clone of the histories of bytes |
| `NameHistory.CreatedIsEffect` | ztierfs/inode_fuse.py:406-438 | create of a missing name makes an empty file |
| `NameHistory.LinkedIsEffect` | ztierfs/inode_fuse.py:756-770 | A hard link changes no byte of any file |
| `NameHistory.OtherNodeIsEffect` | ztierfs/inode_fuse.py:447-464 | Neither does a new directory or symbolic link |
| `Handles.HandleTable.New` | ztierfs/handles.py:40-59 | A handle number never used before; open counts are the live handles |
| `Handles.HandleTable.Release` | ztierfs/handles.py:61-80 | Exactly that binding goes; an unknown handle changes nothing |
| `Handles.HandleTable.HasOpenFile` | ztierfs/handles.py:110-113 | True exactly while some live handle is bound to the inode |
| `Readdir.ScanIsComplete` | ztierfs/inode_fuse.py:552-582 | A scan, stated over the replies of the calls and the offsets they returned, lists its names in increasing order, and every name present throughout at exactly one place, whatever is added or removed between calls and however much of a reply is consumed |
| `Readdir.AnswersIs` | ztierfs/inode_fuse.py:552-582 | The conditions on a reply (dots, entries numbered from the offset on, names in order from the cursor, cursors that resume at each entry) admit one reply only |
| `Readdir.FallbackAgrees` | ztierfs/metadata/namespace.py:137-151 | On an unchanging directory a reply without a cursor for its offset has the entries of the reply with one |
| `Readdir.OffsetsArePlaces` | ztierfs/inode_fuse.py:552-582 | While the directory does not change, the offset of every entry is its place in the sorted listing |
| `Readdir.DirHandle.ReadDir` | ztierfs/inode_fuse.py:552-582 | The reply of one call by its conditions; every child returned under an offset has its own name as cursor of that offset, so that resuming there continues behind it |

## Left out

- SQLite, SHA-256, zstd and fsync themselves: tables are maps, the digest and the codec are free constructors, a file appears or goes atomically.
- File errors other than an unreachable tier in the write, demotion and copy-up paths: they raise and roll back.
- Writers overlapping on one inode: `create` with O_TRUNC takes no content lock, which the model of one call cannot show.
- The transition system `Tiering` does not include cleanup and fsck: they appear as whole operations in `Presence`, `Cleanup` and `Fsck`, with their crash cases as separate lemmas.
- A scan of a tier directory that fails after it has listed some files, and errors of fsck other than an unreachable path or a refused repair.
- Cleanup errors other than an unreachable path.
- Scrub sees a payload through its stored length and decoded length only, as the code does; a copy with wrong bytes of the right sizes passes there too.
- BlockStore.Snapshot: a left-over file in the other encoding that happens to decode to the raw length of its row (a compressed frame exactly as long as the plain block, say) is unreadable in the model, while the code returns its bytes.
- The last tie-break by hash in the garbage query: rows of one age come in any order.
- A path that vanishes between probe and read inside one scrub or read.
- Exceptions raised inside a condition wait of the read/write lock, connection pool timeouts and PRAGMAs.
- Nested transactions, after-commit hooks and deferred access statistics: demotion takes arbitrary read counts and access times.
- Read-ahead and the thresholds for parallel preparation and reading: results are those of the sequential path.
- Access checks, owners, modes, timestamps, xattrs, symlink targets and the trash directories.
- FUSE callbacks, statfs, configuration, command line, profiling and logging.
- Blocking of F_SETLKW and `l_whence`: the code treats the first as non-blocking and ignores the second.
- Name order is by character code; SQLite compares the UTF-8 bytes, which order the same way.
