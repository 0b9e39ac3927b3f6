/** `FileContentService`: the plans of FileContent carried out against the metadata store and the block store. */
module FileService {
  import opened Types
  import opened Schema
  import opened ChunkTable
  import opened FlatFile
  import opened Tiering
  import opened TieringSafety
  import opened Metadata
  import opened BlockStore
  import opened FileContent
  import opened FileView
  import opened FileHistory

  /** None of the error answers of a truncation applies. */
  predicate CanTruncate(db: Database, id: InodeId, length: int) {
    id in db.inodes && db.inodes[id].kind == File && length >= 0
  }

  /** None of the error answers of a write applies. */
  predicate CanWrite(db: Database, id: InodeId, data: Bytes, offset: int) {
    id in db.inodes && offset >= 0 && (data == [] || db.inodes[id].kind == File)
  }

  class FileContentService {
    const meta: MetadataStore
    const store: BlockStore
    const cs: int

    constructor (meta: MetadataStore, store: BlockStore, chunkSize: int)
      requires chunkSize > 0 && store.meta == meta
      ensures this.meta == meta && this.store == store && this.cs == chunkSize
    {
      this.meta, this.store, this.cs := meta, store, chunkSize;
    }

    ghost predicate Valid()
      reads this, meta, store
    {
      && cs > 0 && store.meta == meta && GoodCodec(store.codec)
      && WellKept(store.codec, meta.db) && FilesFit(meta.db, cs) && Addressed(store.disk)
    }

    /** No transaction is open. */
    ghost predicate Idle()
      reads this, meta, store
    {
      meta.db == meta.committed && store.written == map[] && store.demotion == NotDemoting
    }

    /** A chunk's bytes cut or filled to the expected size; a hole is zeros. */
    method ReadPlanned(id: InodeId, index: int, row: Option<ChunkRow>, expected: nat) returns (r: Result<Bytes>)
      requires Addressed(store.disk) && InlineAddressed(meta.db) && row == RowAt(meta.db.chunks, id, index)
      ensures r.Ok? <==> Readable(meta.db, store.disk, store.down, row)
      ensures r.Ok? ==> r.value == Fit(Part(meta.db.chunks, id, index), expected)
      ensures r.Err? ==> r.errno == EIO
    {
      if row.None? {
        return Ok(Zeros(expected));
      }
      if row.value.digest !in meta.db.blocks {
        return Err(EIO);
      }
      r := Snapshot(store.disk, store.down, row.value.digest, meta.db.blocks[row.value.digest], expected);
      AnySize(store.disk, store.down, row.value.digest, meta.db.blocks[row.value.digest], expected);
    }

    method PlanReadOf(id: InodeId, size: nat, offset: nat, end: nat, index: int) returns (r: ChunkRead)
      requires cs > 0 && offset < end <= size && offset / cs <= index <= (end - 1) / cs
      ensures r == PlannedRead(meta.db.chunks, cs, id, size, offset, end, index)
    {
      PlannedReadFacts(meta.db.chunks, cs, id, size, offset, end, index);
      var start := index * cs;
      var expected := Min(start + cs, size) - start;
      var from, to := Max(offset - start, 0), Min(end - start, expected);
      r := ChunkRead(RowAt(meta.db.chunks, id, index), index, expected, from, to);
    }

    /** `plan_read`: one entry per chunk that the clamped range touches. */
    method PlanRead(id: InodeId, size: int, offset: int) returns (r: Result<seq<ChunkRead>>)
      requires Valid() && id in meta.db.inodes
      ensures r.Err? <==> size > 0 && (offset < 0 || meta.db.inodes[id].kind != File)
      ensures r.Err? ==> r.errno == if offset < 0 then EINVAL else EISDIR
      ensures r.Ok? && (size <= 0 || offset >= meta.db.inodes[id].size) ==> r.value == []
      ensures r.Ok? && size > 0 && offset < meta.db.inodes[id].size ==>
        var end := Min(offset + size, meta.db.inodes[id].size);
        IsReadPlan(meta.db.chunks, cs, id, meta.db.inodes[id].size, offset, end, r.value)
        && |r.value| == (end - 1) / cs - offset / cs + 1
    {
      if size <= 0 {
        return Ok([]);
      }
      if offset < 0 {
        return Err(EINVAL);
      }
      var node := meta.db.inodes[id];
      if node.kind != File {
        return Err(EISDIR);
      }
      if offset >= node.size {
        return Ok([]);
      }
      var end := Min(offset + size, node.size);
      var first, last := offset / cs, (end - 1) / cs;
      WholePlanStops(cs, offset, end);
      var plan: seq<ChunkRead> := [];
      for index := first to last + 1
        invariant |plan| == index - first
        invariant IsReadPlan(meta.db.chunks, cs, id, node.size, offset, end, plan)
      {
        var planned := PlanReadOf(id, node.size, offset, end, index);
        PlanMore(meta.db.chunks, cs, id, node.size, offset, end, plan, planned);
        plan := plan + [planned];
      }
      return Ok(plan);
    }

    /** The part of one planned chunk that the read returns. */
    method ExecuteOne(id: InodeId, c: ChunkRead) returns (r: Result<Bytes>)
      requires Addressed(store.disk) && InlineAddressed(meta.db)
      requires c.start <= c.stop <= c.expected && c.row == RowAt(meta.db.chunks, id, c.index)
      ensures r.Ok? <==> Readable(meta.db, store.disk, store.down, c.row)
      ensures r.Ok? ==> r.value == PlannedPart(meta.db.chunks, id, c)
      ensures r.Err? ==> r.errno == EIO
    {
      var chunk := ReadPlanned(id, c.index, c.row, c.expected);
      r := if chunk.Ok? then Ok(chunk.value[c.start..c.stop]) else Err(chunk.errno);
    }

    /** `execute_read_plan`. */
    method ExecuteReadPlan(id: InodeId, plan: seq<ChunkRead>) returns (r: Result<Bytes>)
      requires Addressed(store.disk) && InlineAddressed(meta.db)
      requires WellPlanned(meta.db.chunks, id, plan)
      ensures r.Ok? <==> AllReadable(meta.db, store.disk, store.down, plan)
      ensures r.Ok? ==> r.value == Joined(meta.db.chunks, id, plan)
      ensures r.Err? ==> r.errno == EIO
    {
      var data: Bytes := [];
      for i := 0 to |plan|
        invariant Executed(meta.db, store.disk, store.down, id, plan, i, data)
      {
        var part := ExecuteOne(id, plan[i]);
        ExecutedMore(meta.db, store.disk, store.down, id, plan, i, data);
        if part.Err? {
          return Err(part.errno);
        }
        data := data + part.value;
      }
      ExecutedAll(meta.db, store.disk, store.down, id, plan, data);
      return Ok(data);
    }

    /** A read is a slice of the file's bytes clamped at its end.  It fails on bad arguments, and otherwise exactly
        when the block of some chunk in the range cannot be read. */
    method ReadFile(id: InodeId, size: int, offset: int) returns (r: Result<Bytes>)
      requires Valid() && id in meta.db.inodes
      ensures r.Ok? && offset >= 0 ==> r.value == FlatRead(FileBytes(meta.db, cs, id), size, offset)
      ensures r.Ok? && offset < 0 ==> size <= 0 && r.value == []
      ensures size > 0 && offset < 0 ==> r == Err(EINVAL)
      ensures size > 0 && offset >= 0 && meta.db.inodes[id].kind != File ==> r == Err(EISDIR)
      ensures size > 0 && offset >= 0 && meta.db.inodes[id].kind == File ==>
        (r.Ok? <==> RangeReadable(meta.db, store.disk, store.down, cs, id, offset,
          Min(offset + size, meta.db.inodes[id].size)))
      ensures store.down == {} && TablesSafe(meta.db, store.disk) && offset >= 0 && meta.db.inodes[id].kind == File ==>
        r.Ok?
    {
      if store.down == {} && TablesSafe(meta.db, store.disk) && offset >= 0 {
        SafeRange(meta.db, store.disk, cs, id, offset, Min(offset + size, meta.db.inodes[id].size));
      }
      var plan := PlanRead(id, size, offset);
      if plan.Err? {
        return Err(plan.errno);
      }
      if size <= 0 || offset >= meta.db.inodes[id].size {
        r := ExecuteReadPlan(id, []);
        return;
      }
      ghost var end := Min(offset + size, meta.db.inodes[id].size);
      r := ReadRange(id, meta.db.inodes[id].size, offset, end, plan.value);
    }

    method ReadRange(id: InodeId, ghost size: nat, ghost offset: nat, ghost end: nat, plan: seq<ChunkRead>)
      returns (r: Result<Bytes>)
      requires cs > 0 && Addressed(store.disk) && InlineAddressed(meta.db)
      requires offset < end <= size && IsReadPlan(meta.db.chunks, cs, id, size, offset, end, plan)
      requires |plan| == (end - 1) / cs - offset / cs + 1
      ensures r.Ok? <==> RangeReadable(meta.db, store.disk, store.down, cs, id, offset, end)
      ensures r.Ok? ==> r.value == Contents(meta.db.chunks, cs, id, size)[offset..end]
      ensures r.Err? ==> r.errno == EIO
    {
      PlanReadsSlice(meta.db.chunks, cs, id, size, offset, end, plan);
      WholePlanStops(cs, offset, end);
      PlanCoversRange(meta.db, store.disk, store.down, cs, id, size, offset, end, plan);
      r := ExecuteReadPlan(id, plan);
    }

    /** `plan_write_file`: one entry per touched chunk, with the position in the data where its bytes start. */
    method PlanWriteFile(id: InodeId, data: Bytes, offset: int) returns (r: Result<seq<ChunkWrite>>)
      requires cs > 0 && id in meta.db.inodes
      ensures r.Err? <==> offset < 0 || (data != [] && meta.db.inodes[id].kind != File)
      ensures r.Err? ==> r.errno == if offset < 0 then EINVAL else EISDIR
      ensures r.Ok? && data == [] ==> r.value == []
      ensures r.Ok? && data != [] ==>
        IsWritePlan(meta.db.chunks, cs, id, meta.db.inodes[id].size, data, offset, r.value)
    {
      if offset < 0 {
        return Err(EINVAL);
      }
      if data == [] {
        return Ok([]);
      }
      var node := meta.db.inodes[id];
      if node.kind != File {
        return Err(EISDIR);
      }
      var first, last := offset / cs, (offset + |data| - 1) / cs;
      Monotone(offset, offset + |data| - 1, cs);
      var plan: seq<ChunkWrite> := [];
      var dataPos := 0;
      for index := first to last + 1
        invariant |plan| == index - first
        invariant forall i ::
          0 <= i < |plan| ==> PlansChunk(meta.db.chunks, cs, id, node.size, data, offset, first + i, plan[i])
        invariant dataPos == Consumed(cs, |data|, offset, index)
      {
        var w;
        w, dataPos := PlanChunk(id, node.size, data, offset, index, dataPos);
        plan := plan + [w];
      }
      return Ok(plan);
    }

    method PlanChunk(id: InodeId, size: nat, data: Bytes, offset: nat, index: int, dataPos: int)
      returns (w: ChunkWrite, nextPos: int)
      requires cs > 0 && Touches(cs, data, offset, index) && dataPos == Consumed(cs, |data|, offset, index)
      ensures PlansChunk(meta.db.chunks, cs, id, size, data, offset, index, w)
      ensures nextPos == Consumed(cs, |data|, offset, index + 1)
    {
      PlannedWriteFacts(meta.db.chunks, cs, id, size, data, offset, index);
      TouchedBounds(cs, data, offset, index);
      assert (index + 1) * cs == index * cs + cs;
      var start := index * cs;
      var chunkLen := Min(start + cs, Max(size, offset + |data|)) - start;
      var existingLen := Max(0, Min(cs, size - start));
      var writeStart := Max(offset - start, 0);
      var writeStop := Min(offset + |data| - start, chunkLen);
      w := ChunkWrite(index, chunkLen, existingLen, writeStart, writeStop, dataPos,
                      RowAt(meta.db.chunks, id, index), KindOf(chunkLen, existingLen, writeStart, writeStop));
      nextPos := dataPos + (writeStop - writeStart);
    }

    /** The bytes a partial write starts from. */
    method ReadOldPart(id: InodeId, w: ChunkWrite) returns (r: Result<Bytes>)
      requires Addressed(store.disk) && InlineAddressed(meta.db) && w.row == RowAt(meta.db.chunks, id, w.index)
      requires w.existingLen <= w.chunkLen
      ensures r.Ok? ==> r.value == OldPart(meta.db.chunks, id, w)
      ensures r.Ok? <==> w.existingLen == 0 || Readable(meta.db, store.disk, store.down, w.row)
      ensures r.Err? ==> r.errno == EIO
    {
      var oldChunk: Bytes := [];
      if w.existingLen > 0 {
        var read := ReadPlanned(id, w.index, w.row, w.existingLen);
        if read.Err? {
          return Err(read.errno);
        }
        oldChunk := read.value;
      }
      OldPartIs(meta.db.chunks, id, w, oldChunk);
      if |oldChunk| < w.chunkLen {
        oldChunk := oldChunk + Zeros(w.chunkLen - |oldChunk|);
      }
      return Ok(oldChunk);
    }

    /** One chunk of `prepare_file_write`: the new bytes alone, or spliced into the old ones. */
    method PatchChunk(id: InodeId, w: ChunkWrite, data: Bytes) returns (r: Result<Bytes>)
      requires Addressed(store.disk) && InlineAddressed(meta.db) && w.row == RowAt(meta.db.chunks, id, w.index)
      requires w.writeStart <= w.writeStop <= w.chunkLen && w.sourceStart + w.writeStop - w.writeStart <= |data|
      requires w.existingLen <= w.chunkLen
      ensures r.Ok? ==> r.value == Patched(OldPart(meta.db.chunks, id, w), w, data)
      ensures r.Ok? <==>
        w.kind == FullChunkReplace || w.existingLen == 0 || Readable(meta.db, store.disk, store.down, w.row)
      ensures r.Err? ==> r.errno == EIO
    {
      var source := data[w.sourceStart..w.sourceStart + w.writeStop - w.writeStart];
      if w.kind == FullChunkReplace {
        return Ok(source);
      }
      var oldChunk := ReadOldPart(id, w);
      r := if oldChunk.Ok? then Ok(Spliced(oldChunk.value, source, w.writeStart)) else Err(oldChunk.errno);
    }

    /** `prepare_file_write`: each touched chunk of the file as the write leaves it. */
    method PrepareFileWrite(id: InodeId, data: Bytes, offset: nat, plan: seq<ChunkWrite>)
      returns (r: Result<seq<(int, Bytes)>>)
      requires cs > 0 && data != [] && id in meta.db.inodes && Addressed(store.disk) && InlineAddressed(meta.db)
      requires IsWritePlan(meta.db.chunks, cs, id, meta.db.inodes[id].size, data, offset, plan)
      ensures r.Ok? ==> |r.value| == |plan| && ArePending(FileBytes(meta.db, cs, id), cs, data, offset, r.value)
      ensures r.Ok? <==> AllPatchable(meta.db, store.disk, store.down, plan)
      ensures r.Err? ==> r.errno == EIO
    {
      var pending: seq<(int, Bytes)> := [];
      ghost var before := FileBytes(meta.db, cs, id);
      for i := 0 to |plan|
        invariant |pending| == i && ArePending(before, cs, data, offset, pending)
        invariant AllPatchable(meta.db, store.disk, store.down, plan[..i])
      {
        assert PlansChunk(meta.db.chunks, cs, id, meta.db.inodes[id].size, data, offset, offset / cs + i, plan[i]);
        var part := PatchPlanned(id, data, offset, offset / cs + i, plan[i]);
        PatchableMore(meta.db, store.disk, store.down, plan, i);
        if part.Err? {
          return Err(part.errno);
        }
        pending := pending + [(plan[i].index, part.value)];
      }
      assert plan[..|plan|] == plan;
      return Ok(pending);
    }

    method PatchPlanned(id: InodeId, data: Bytes, offset: nat, ghost index: int, w: ChunkWrite)
      returns (r: Result<Bytes>)
      requires cs > 0 && id in meta.db.inodes && Addressed(store.disk) && InlineAddressed(meta.db)
      requires PlansChunk(meta.db.chunks, cs, id, meta.db.inodes[id].size, data, offset, index, w)
      ensures r.Ok? ==> IsPending(FileBytes(meta.db, cs, id), cs, data, offset, index, (w.index, r.value))
      ensures r.Ok? <==> Patchable(meta.db, store.disk, store.down, w)
      ensures r.Err? ==> r.errno == EIO
    {
      PlannedWriteFacts(meta.db.chunks, cs, id, meta.db.inodes[id].size, data, offset, index);
      PatchedIsWritten(meta.db.chunks, cs, id, meta.db.inodes[id].size, data, offset, index);
      r := PatchChunk(id, w, data);
    }

    method BuildBatch(chunks: seq<(int, PreparedBlock)>) returns (batch: map<int, Replacement>)
      requires ChunksPrepared(store.codec, chunks)
      ensures IsBatch(batch, chunks)
    {
      batch := map[];
      for i := 0 to |chunks|
        invariant IsBatch(batch, chunks[..i])
      {
        batch := batch[chunks[i].0 := Put(chunks[i].1.digest, |chunks[i].1.rawData|)];
        assert chunks[..i + 1] == chunks[..i] + [chunks[i]];
      }
      assert chunks[..|chunks|] == chunks;
    }

    /** The payloads and block rows of a batch. */
    method StoreChunkBlocks(chunks: seq<(int, PreparedBlock)>, now: int) returns (r: Result<()>)
      requires store.meta == meta && GoodCodec(store.codec) && WellKept(store.codec, meta.db)
      requires Addressed(store.disk) && ChunksPrepared(store.codec, chunks)
      modifies meta`db, store`disk, store`written, store`hot
      ensures Addressed(store.disk)
      ensures r.Ok? ==> WellKept(store.codec, meta.db)
      ensures r.Ok? ==> meta.db == old(meta.db).(blocks := meta.db.blocks)
      ensures r.Ok? ==> forall i :: 0 <= i < |chunks| ==> chunks[i].1.digest in meta.db.blocks
      ensures store.demotion == NotDemoting && ChunkGuards(old(store.View()), chunks) ==>
        Reaches(old(store.View()), store.View())
      ensures ChunksStorable(old(meta.db).blocks, store.codec, store.down, chunks) ==> r.Ok?
    {
      ghost var from := store.View();
      var blocks := seq(|chunks|, i requires 0 <= i < |chunks| => chunks[i].1);
      BlocksOf(store.codec, chunks, blocks);
      if ChunkGuards(from, chunks) {
        GuardsOf(from, chunks, blocks);
      }
      if ChunksStorable(from.db.blocks, store.codec, store.down, chunks) {
        StorableOf(from.db.blocks, store.codec, store.down, chunks, blocks);
      }
      var ensured := store.EnsurePreparedBlocks(blocks, now);
      if ensured.Err? {
        return Err(ensured.errno);
      }
      EnsureKeepsTables(store.codec, from.db, ensured.value, now);
      EnsureKeepsSizes(store.codec, from.db, ensured.value, now);
      forall i | 0 <= i < |chunks| ensures chunks[i].1.digest in meta.db.blocks {
        assert blocks[i].digest in ensured.value;
      }
      return Ok(());
    }

    /** `set_prepared_chunks`: payloads and block rows first, then the chunk rows in one batch. */
    method SetPreparedChunks(id: InodeId, chunks: seq<(int, PreparedBlock)>, now: int) returns (r: Result<()>)
      requires store.meta == meta && GoodCodec(store.codec) && WellKept(store.codec, meta.db)
      requires id in meta.db.inodes && Addressed(store.disk) && ChunksPrepared(store.codec, chunks)
      modifies meta`db, store`disk, store`written, store`hot
      ensures Addressed(store.disk)
      ensures r.Ok? ==> WellKept(store.codec, meta.db)
      ensures r.Ok? ==> meta.db.inodes == old(meta.db).inodes && meta.db.entries == old(meta.db).entries
      ensures r.Ok? ==> RowsPut(old(meta.db).chunks, meta.db.chunks, id, chunks)
      ensures store.demotion == NotDemoting && ChunkGuards(old(store.View()), chunks) ==>
        Reaches(old(store.View()), store.View())
      ensures ChunksStorable(old(meta.db).blocks, store.codec, store.down, chunks) ==> r.Ok?
    {
      ghost var from := store.View();
      r := StoreChunkBlocks(chunks, now);
      if r.Err? {
        return;
      }
      var batch := BuildBatch(chunks);
      r := PutChunks(from, id, chunks, batch, now);
    }

    method PutChunks(ghost from: State, id: InodeId, chunks: seq<(int, PreparedBlock)>, batch: map<int, Replacement>,
                     now: int)
      returns (r: Result<()>)
      requires store.meta == meta && WellKept(store.codec, meta.db) && id in meta.db.inodes
      requires ChunksPrepared(store.codec, chunks)
      requires IsBatch(batch, chunks)
      requires forall i :: 0 <= i < |chunks| ==> chunks[i].1.digest in meta.db.blocks
      modifies meta`db
      ensures r.Ok? && meta.db.inodes == old(meta.db).inodes && meta.db.entries == old(meta.db).entries
      ensures WellKept(store.codec, meta.db)
      ensures RowsPut(old(meta.db).chunks, meta.db.chunks, id, chunks)
      ensures Reaches(from, old(store.View())) ==> Reaches(from, store.View())
    {
      BatchIsValid(meta.db, store.codec, id, chunks, batch);
      var error := meta.ReplaceChunks(id, batch, None, now);
      BatchRows(old(meta.db).chunks, id, chunks, batch);
      ReplaceKeepsInline(old(meta.db), id, batch, None, now);
      ReplaceKeepsSizes(store.codec, old(meta.db), id, batch, None, now);
      if Reaches(from, old(store.View())) {
        PutReaches(from, old(store.View()), id, batch, None, now, meta.db);
      }
      return Ok(());
    }

    method SetNodeSize(id: InodeId, size: nat)
      requires store.meta == meta && id in meta.db.inodes
      modifies meta`db
      ensures meta.db == old(meta.db).(inodes := old(meta.db).inodes[id := old(meta.db).inodes[id].(size := size)])
    {
      meta.db := meta.db.(inodes := meta.db.inodes[id := meta.db.inodes[id].(size := size)]);
    }

    /** The end of a write transaction: COMMIT, or ROLLBACK after an exception. */
    method EndTransaction(ok: bool)
      requires store.meta == meta
      modifies meta, store`written, store`demotion
      ensures Idle() && meta.db == if ok then old(meta.db) else old(meta.committed)
      ensures store.View() == Next(old(store.View()), if ok then Commit else Abort)
    {
      if ok {
        meta.Commit();
      } else {
        meta.Rollback();
      }
      store.written, store.demotion := map[], NotDemoting;
    }

    /** `commit_prepared_write` of a nonempty write, and the end of its transaction. */
    method CommitPreparedWrite(id: InodeId, newSize: nat, prepared: seq<(int, PreparedBlock)>, now: int)
      returns (r: Result<()>)
      requires Valid() && Idle() && id in meta.db.inodes && ChunksPrepared(store.codec, prepared)
      modifies meta, store`disk, store`written, store`hot, store`demotion
      ensures Idle() && Addressed(store.disk)
      ensures r.Err? ==> meta.db == old(meta.db)
      ensures r.Ok? ==> WellKept(store.codec, meta.db)
      ensures r.Ok? ==> RowsPut(old(meta.db).chunks, meta.db.chunks, id, prepared)
      ensures r.Ok? ==> Resized(old(meta.db), meta.db, id, newSize)
      ensures ChunkGuards(old(store.View()), prepared) ==> Reaches(old(store.View()), store.View())
      ensures store.down == {} ==> r.Ok?
    {
      ghost var from := store.View();
      AlwaysStorable(store.codec, meta.db, prepared);
      r := SetPreparedChunks(id, prepared, now);
      ghost var at := store.View();
      if r.Ok? {
        SetNodeSize(id, newSize);
        ResizedKeeps(store.codec, from.db, at.db, id, newSize);
      }
      ghost var done := store.View();
      EndTransaction(r.Ok?);
      if ChunkGuards(from, prepared) {
        FinishReaches(from, at, done, r.Ok?);
      }
    }

    /** `_write_inode`: a write splices the data into the file, filling any gap with zeros, and no other file
        changes; or it fails and nothing changes. */
    method WriteInode(id: InodeId, data: Bytes, offset: int, compress: bool, now: int) returns (r: Result<nat>)
      requires Valid() && Idle()
      modifies meta, store`disk, store`written, store`hot, store`demotion
      ensures Valid() && Idle()
      ensures id !in old(meta.db).inodes ==> r == Err(ENOENT)
      ensures id in old(meta.db).inodes && offset < 0 ==> r == Err(EINVAL)
      ensures id in old(meta.db).inodes && offset >= 0 && data != [] && old(meta.db).inodes[id].kind != File ==>
        r == Err(EISDIR)
      ensures r.Ok? ==> id in old(meta.db).inodes && r.value == |data| && offset >= 0
      ensures r.Ok? && data != [] ==>
        Files(meta.db, cs) == old(Files(meta.db, cs))[id := FlatWrite(old(FileBytes(meta.db, cs, id)), data, offset)]
      ensures r.Ok? && data != [] ==> Effect(old(meta.db), meta.db, cs, WriteOp(id, data, offset))
      ensures r.Err? || data == [] ==> meta.db == old(meta.db)
      ensures CanWrite(old(meta.db), id, data, offset) && store.down == {} && old(TablesSafe(meta.db, store.disk)) ==>
        r.Ok?
      ensures old(CanWrite(meta.db, id, data, offset) ==>
        WriteGuards(store.View(), store.codec, cs, FileBytes(meta.db, cs, id), data, offset, compress))
        ==> Reaches(old(store.View()), store.View())
    {
      ghost var from := store.View();
      ReachesSelf(from);
      if id !in meta.db.inodes {
        return Err(ENOENT);
      }
      var plan := PlanWriteFile(id, data, offset);
      if plan.Err? {
        return Err(plan.errno);
      }
      if data == [] {
        return Ok(0);
      }
      r := WritePlanned(id, data, offset, compress, plan.value, now);
    }

    method WritePlanned(id: InodeId, data: Bytes, offset: nat, compress: bool, plan: seq<ChunkWrite>, now: int)
      returns (r: Result<nat>)
      requires Valid() && Idle() && id in meta.db.inodes && data != [] && meta.db.inodes[id].kind == File
      requires IsWritePlan(meta.db.chunks, cs, id, meta.db.inodes[id].size, data, offset, plan)
      modifies meta, store`disk, store`written, store`hot, store`demotion
      ensures Valid() && Idle()
      ensures r.Ok? ==> r.value == |data|
      ensures r.Ok? ==>
        Files(meta.db, cs) == old(Files(meta.db, cs))[id := FlatWrite(old(FileBytes(meta.db, cs, id)), data, offset)]
      ensures r.Ok? ==> Effect(old(meta.db), meta.db, cs, WriteOp(id, data, offset))
      ensures r.Err? ==> meta.db == old(meta.db)
      ensures store.down == {} && old(TablesSafe(meta.db, store.disk)) ==> r.Ok?
      ensures old(WriteGuards(store.View(), store.codec, cs, FileBytes(meta.db, cs, id), data, offset, compress))
        ==> Reaches(old(store.View()), store.View())
    {
      ReachesSelf(store.View());
      var prepared := PrepareWrite(id, data, offset, compress, plan);
      if prepared.Err? {
        return Err(prepared.errno);
      }
      r := CommitWrite(id, data, offset, compress, prepared.value, now);
    }

    method CommitWrite(id: InodeId, data: Bytes, offset: nat, ghost compress: bool, prepared: seq<(int, PreparedBlock)>,
                       now: int)
      returns (r: Result<nat>)
      requires Valid() && Idle() && id in meta.db.inodes && data != [] && meta.db.inodes[id].kind == File
      requires IsPreparedWrite(store.codec, cs, FileBytes(meta.db, cs, id), data, offset, compress, prepared)
      requires ChunksPrepared(store.codec, prepared)
      modifies meta, store`disk, store`written, store`hot, store`demotion
      ensures Valid() && Idle()
      ensures r.Ok? ==> r.value == |data|
      ensures r.Ok? ==>
        Files(meta.db, cs) == old(Files(meta.db, cs))[id := FlatWrite(old(FileBytes(meta.db, cs, id)), data, offset)]
      ensures r.Ok? ==> Effect(old(meta.db), meta.db, cs, WriteOp(id, data, offset))
      ensures r.Err? ==> meta.db == old(meta.db)
      ensures store.down == {} ==> r.Ok?
      ensures ChunkGuards(old(store.View()), prepared) ==> Reaches(old(store.View()), store.View())
    {
      ghost var before := meta.db;
      var newSize := Max(meta.db.inodes[id].size, offset + |data|);
      var committed := CommitPreparedWrite(id, newSize, prepared, now);
      if committed.Err? {
        return Err(committed.errno);
      }
      WriteEffect(store.codec, before, meta.db, cs, id, data, offset, compress, prepared);
      return Ok(|data|);
    }

    /** `prepare_file_write`, payloads and blocks. */
    method PrepareWrite(id: InodeId, data: Bytes, offset: nat, compress: bool, plan: seq<ChunkWrite>)
      returns (r: Result<seq<(int, PreparedBlock)>>)
      requires Valid() && id in meta.db.inodes && data != []
      requires IsWritePlan(meta.db.chunks, cs, id, meta.db.inodes[id].size, data, offset, plan)
      ensures r.Ok? ==> IsPreparedWrite(store.codec, cs, FileBytes(meta.db, cs, id), data, offset, compress, r.value)
      ensures r.Ok? ==> ChunksPrepared(store.codec, r.value)
      ensures store.down == {} && TablesSafe(meta.db, store.disk) ==> r.Ok?
      ensures r.Ok? && WriteGuards(store.View(), store.codec, cs, FileBytes(meta.db, cs, id), data, offset, compress)
        ==> ChunkGuards(store.View(), r.value)
    {
      ghost var before := FileBytes(meta.db, cs, id);
      if store.down == {} && TablesSafe(meta.db, store.disk) {
        SafePatchable(meta.db, store.disk, cs, id, data, offset, plan);
      }
      var pending := PrepareFileWrite(id, data, offset, plan);
      if pending.Err? {
        return Err(pending.errno);
      }
      var prepared := store.PrepareBlocks(pending.value, compress);
      PendingIsPrepared(store.codec, cs, before, data, offset, compress, pending.value, prepared);
      PreparedIsPrepared(store.codec, cs, before, data, offset, compress, prepared);
      if WriteGuards(store.View(), store.codec, cs, before, data, offset, compress) {
        WriteGuardsOf(store.View(), store.codec, cs, before, data, offset, compress, prepared);
      }
      return Ok(prepared);
    }

    /** `remove_file_chunks`. */
    method RemoveFileChunks(id: InodeId, first: nat, now: int)
      requires store.meta == meta && WellKept(store.codec, meta.db)
      modifies meta`db
      ensures WellKept(store.codec, meta.db)
      ensures RowsRemoved(old(meta.db).chunks, meta.db.chunks, id, first)
      ensures meta.db.inodes == old(meta.db).inodes && meta.db.entries == old(meta.db).entries
      ensures store.View() == Next(old(store.View()), RemoveStep(id, first, now))
    {
      ghost var before := meta.db;
      var error := meta.ReplaceChunks(id, map[], Some(first), now);
      RemovalRemoves(before.chunks, id, first);
      ReplaceKeepsInline(before, id, map[], Some(first), now);
      ReplaceKeepsSizes(store.codec, before, id, map[], Some(first), now);
    }

    /** `read_chunk`: like a planned read, with the row looked up now. */
    method ReadChunk(id: InodeId, index: int, expected: nat) returns (r: Result<Bytes>)
      requires Addressed(store.disk) && InlineAddressed(meta.db)
      ensures r.Ok? <==> expected == 0 || Readable(meta.db, store.disk, store.down, RowAt(meta.db.chunks, id, index))
      ensures r.Ok? ==> r.value == Fit(Part(meta.db.chunks, id, index), expected)
      ensures r.Err? ==> r.errno == EIO
    {
      if expected == 0 {
        return Ok([]);
      }
      r := ReadPlanned(id, index, RowAt(meta.db.chunks, id, index), expected);
    }

    /** `chunk[:keep]` of the last chunk that stays. */
    method ReadKept(ghost chunks: Chunks, id: InodeId, size: nat, length: nat) returns (r: Result<Bytes>)
      requires cs > 0 && RefsExact(meta.db) && Addressed(store.disk) && InlineAddressed(meta.db)
      requires CutsChunk(cs, size, length)
      requires RowsRemoved(chunks, meta.db.chunks, id, FirstRemoved(length, cs))
      ensures r.Ok? ==> r.value == KeptPart(Contents(chunks, cs, id, size), cs, length)
      ensures store.down == {} && TablesSafe(meta.db, store.disk) ==> r.Ok?
    {
      KeptBytes(chunks, meta.db.chunks, cs, id, size, length);
      var last := length / cs;
      if store.down == {} && TablesSafe(meta.db, store.disk) {
        SafeReadable(meta.db, store.disk, RowAt(meta.db.chunks, id, last));
      }
      var chunk := ReadChunk(id, last, Min(cs, size - last * cs));
      r := if chunk.Ok? then Ok(chunk.value[..length - last * cs]) else Err(chunk.errno);
    }

    /** The bytes of the last chunk that stay, prepared as a block. */
    method PrepareLast(ghost chunks: Chunks, id: InodeId, size: nat, length: nat, compress: bool)
      returns (r: Result<seq<(int, PreparedBlock)>>)
      requires cs > 0 && RefsExact(meta.db) && Addressed(store.disk) && InlineAddressed(meta.db)
      requires CutsChunk(cs, size, length)
      requires RowsRemoved(chunks, meta.db.chunks, id, FirstRemoved(length, cs))
      ensures r.Ok? ==>
        r.value == [(length / cs, Prepare(store.codec, KeptPart(Contents(chunks, cs, id, size), cs, length), compress))]
      ensures store.down == {} && TablesSafe(meta.db, store.disk) ==> r.Ok?
      ensures length / cs >= 0 && KeptPart(Contents(chunks, cs, id, size), cs, length) != []
    {
      KeptBytes(chunks, meta.db.chunks, cs, id, size, length);
      var kept := ReadKept(chunks, id, size, length);
      if kept.Err? {
        return Err(kept.errno);
      }
      var prepared := store.PrepareBlocks([(length / cs, kept.value)], compress);
      return Ok(prepared);
    }

    /** The last chunk of a shortened file is rewritten with the bytes that stay; `chunks` are the rows before
        the removal. */
    method RewriteLast(ghost chunks: Chunks, id: InodeId, size: nat, length: nat, compress: bool, now: int)
      returns (r: Result<()>)
      requires cs > 0 && store.meta == meta && GoodCodec(store.codec) && WellKept(store.codec, meta.db)
      requires id in meta.db.inodes && Addressed(store.disk) && CutsChunk(cs, size, length)
      requires RowsRemoved(chunks, meta.db.chunks, id, FirstRemoved(length, cs))
      modifies meta`db, store`disk, store`written, store`hot
      ensures Addressed(store.disk)
      ensures r.Ok? ==> WellKept(store.codec, meta.db)
      ensures r.Ok? ==> meta.db.inodes == old(meta.db).inodes && meta.db.entries == old(meta.db).entries
      ensures r.Ok? ==> TruncateRows(chunks, meta.db.chunks, id, cs, size, length)
      ensures store.demotion == NotDemoting
        && StoreGuard(old(store.View()),
             Prepare(store.codec, KeptPart(Contents(chunks, cs, id, size), cs, length), compress))
        ==> Reaches(old(store.View()), store.View())
      ensures store.down == {} && old(TablesSafe(meta.db, store.disk)) ==> r.Ok?
    {
      ghost var mid := meta.db.chunks;
      ReachesSelf(store.View());
      var prepared := PrepareLast(chunks, id, size, length, compress);
      if prepared.Err? {
        return Err(prepared.errno);
      }
      LastIsPrepared(store.codec, length / cs, KeptPart(Contents(chunks, cs, id, size), cs, length), compress);
      AlwaysStorable(store.codec, meta.db, prepared.value);
      r := SetPreparedChunks(id, prepared.value, now);
      if r.Ok? {
        TruncateIsPut(store.codec, chunks, mid, meta.db.chunks, cs, id, size, length, prepared.value[0].1);
      }
    }

    /** The removal of `truncate_file`: all chunks, or those past the last one that stays. */
    method RemoveTail(id: InodeId, length: nat, now: int)
      requires cs > 0 && store.meta == meta && WellKept(store.codec, meta.db)
      modifies meta`db
      ensures WellKept(store.codec, meta.db)
      ensures RowsRemoved(old(meta.db).chunks, meta.db.chunks, id, FirstRemoved(length, cs))
      ensures meta.db.inodes == old(meta.db).inodes && meta.db.entries == old(meta.db).entries
      ensures store.View() == Next(old(store.View()), RemoveStep(id, FirstRemoved(length, cs), now))
      ensures Reaches(old(store.View()), store.View())
      ensures old(Inv(store.View())) ==> TablesSafe(meta.db, store.disk)
    {
      ghost var from := store.View();
      ReachesSelf(from);
      FirstOfZero(cs);
      FirstIsNat(length, cs);
      var first := if length == 0 then 0 else (length + cs - 1) / cs;
      RemoveFileChunks(id, first, now);
      RemoveReaches(from, from, id, first, now);
      if Inv(from) {
        StepKeepsInv(from, RemoveStep(id, first, now));
      }
    }

    /** The chunk rows of `truncate_file`. */
    method TruncateChunks(id: InodeId, length: nat, compress: bool, now: int) returns (r: Result<()>)
      requires Valid() && Idle() && id in meta.db.inodes && meta.db.inodes[id].kind == File
      modifies meta`db, store`disk, store`written, store`hot
      ensures Addressed(store.disk)
      ensures r.Ok? ==> WellKept(store.codec, meta.db) && ChunksCut(old(meta.db), meta.db, cs, id, length)
      ensures old(TruncateGuard(store.View(), store.codec, cs, id, length, compress, now)) ==>
        Reaches(old(store.View()), store.View())
      ensures store.down == {} && old(Inv(store.View())) ==> r.Ok?
    {
      ghost var from := store.View();
      var size := meta.db.inodes[id].size;
      RemoveTail(id, length, now);
      if !(length < size && length % cs != 0) {
        return Ok(());
      }
      ghost var mid := store.View();
      r := RewriteLast(from.db.chunks, id, size, length, compress, now);
      if TruncateGuard(from, store.codec, cs, id, length, compress, now) {
        ReachesThen(from, mid, store.View());
      }
    }

    /** `truncate_file` when the length changes, in its own transaction. */
    method TruncateFile(id: InodeId, length: nat, compress: bool, now: int) returns (r: Result<()>)
      requires Valid() && Idle() && id in meta.db.inodes && meta.db.inodes[id].kind == File
      modifies meta, store`disk, store`written, store`hot, store`demotion
      ensures Idle() && Addressed(store.disk)
      ensures r.Ok? ==> WellKept(store.codec, meta.db) && Effect(old(meta.db), meta.db, cs, TruncateOp(id, length))
      ensures r.Err? ==> meta.db == old(meta.db)
      ensures old(TruncateGuard(store.View(), store.codec, cs, id, length, compress, now)) ==>
        Reaches(old(store.View()), store.View())
      ensures store.down == {} && old(Inv(store.View())) ==> r.Ok?
    {
      ghost var from := store.View();
      r := TruncateChunks(id, length, compress, now);
      ghost var at := store.View();
      if r.Ok? {
        SetNodeSize(id, length);
        ResizedIsEffect(store.codec, from.db, at.db, cs, id, length);
      }
      ghost var done := store.View();
      EndTransaction(r.Ok?);
      if Reaches(from, at) {
        FinishReaches(from, at, done, r.Ok?);
      }
    }

    /** Truncation through `setattr` or O_TRUNC: the file keeps its first bytes or is extended with zeros, and no
        other file changes; or it fails and nothing changes. */
    method TruncateInode(id: InodeId, length: int, compress: bool, now: int) returns (r: Result<()>)
      requires Valid() && Idle()
      modifies meta, store`disk, store`written, store`hot, store`demotion
      ensures Valid() && Idle()
      ensures id !in old(meta.db).inodes ==> r == Err(ENOENT)
      ensures id in old(meta.db).inodes && old(meta.db).inodes[id].kind != File ==> r == Err(EISDIR)
      ensures id in old(meta.db).inodes && old(meta.db).inodes[id].kind == File && length < 0 ==> r == Err(EINVAL)
      ensures r.Ok? ==> length >= 0 && id in old(meta.db).inodes
      ensures r.Ok? ==>
        Files(meta.db, cs) == old(Files(meta.db, cs))[id := FlatTruncate(old(FileBytes(meta.db, cs, id)), length)]
      ensures r.Ok? && length != old(meta.db).inodes[id].size ==>
        Effect(old(meta.db), meta.db, cs, TruncateOp(id, length))
      ensures r.Err? ==> meta.db == old(meta.db)
      ensures CanTruncate(old(meta.db), id, length) && store.down == {} && old(Inv(store.View())) ==> r.Ok?
      ensures id in old(meta.db).inodes && length >= 0
        && old(TruncateGuard(store.View(), store.codec, cs, id, length, compress, now))
        ==> Reaches(old(store.View()), store.View())
    {
      ghost var from := store.View();
      ReachesSelf(from);
      if id !in meta.db.inodes {
        return Err(ENOENT);
      }
      if meta.db.inodes[id].kind != File {
        return Err(EISDIR);
      }
      if length < 0 {
        return Err(EINVAL);
      }
      if length == meta.db.inodes[id].size {
        assert FlatTruncate(FileBytes(meta.db, cs, id), length) == FileBytes(meta.db, cs, id);
        return Ok(());
      }
      r := TruncateFile(id, length, compress, now);
      if r.Ok? {
        EffectRefines(from.db, meta.db, cs, TruncateOp(id, length));
      }
    }
  }
}
