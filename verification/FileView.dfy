/** Files as the flat byte sequences their rows stand for, and what batches of prepared chunks do to them. */
module FileView {
  import opened Types
  import opened Schema
  import opened ChunkTable
  import opened FlatFile
  import opened Tiering
  import opened Metadata
  import opened BlockStore
  import opened FileContent

  /** Every file's rows fit its size, and rows belong to files. */
  ghost predicate FilesFit(db: Database, cs: int) {
    && (forall id :: id in db.inodes && db.inodes[id].kind == File ==> ChunksFit(db.chunks, cs, id, db.inodes[id].size))
    && (forall k :: k in db.chunks ==> k.file in db.inodes && db.inodes[k.file].kind == File)
  }

  /** The bytes a file stands for. */
  ghost function FileBytes(db: Database, cs: int, id: InodeId): Bytes
    requires cs > 0 && id in db.inodes
  {
    Contents(db.chunks, cs, id, db.inodes[id].size)
  }

  /** The block can be read now, whatever size is asked for. */
  ghost predicate CanRead(db: Database, disk: Disk, down: set<(Digest, Tier)>, d: Digest) {
    d in db.blocks && forall expected: nat :: Snapshot(disk, down, d, db.blocks[d], expected).Ok?
  }

  /** A hole, or a row whose block can be read. */
  ghost predicate Readable(db: Database, disk: Disk, down: set<(Digest, Tier)>, row: Option<ChunkRow>) {
    row.Some? ==> CanRead(db, disk, down, row.value.digest)
  }

  ghost predicate ChunksPrepared(codec: Codec, chunks: seq<(int, PreparedBlock)>) {
    && (forall i :: 0 <= i < |chunks| ==> chunks[i].0 >= 0 && WellPrepared(codec, chunks[i].1))
    && (forall i, j :: 0 <= i < j < |chunks| ==> chunks[i].0 != chunks[j].0)
    && (forall i, j :: 0 <= i < j < |chunks| && chunks[i].1.digest == chunks[j].1.digest ==> chunks[i].1 == chunks[j].1)
  }

  /** The guards of the steps that store the blocks of a batch. */
  ghost predicate ChunkGuards(s: State, chunks: seq<(int, PreparedBlock)>) {
    forall i :: 0 <= i < |chunks| ==> StoreGuard(s, chunks[i].1)
  }

  /** The `replacements` dictionary of a batch of prepared chunks. */
  ghost predicate IsBatch(batch: map<int, Replacement>, chunks: seq<(int, PreparedBlock)>) {
    && (forall i ::
         0 <= i < |chunks| ==>
           chunks[i].0 in batch && batch[chunks[i].0] == Put(chunks[i].1.digest, |chunks[i].1.rawData|))
    && (forall k :: k in batch ==> exists i :: 0 <= i < |chunks| && chunks[i].0 == k)
  }

  /** `after` holds the batch's rows and is otherwise unchanged. */
  ghost predicate RowsPut(chunks: Chunks, after: Chunks, id: InodeId, batch: seq<(int, PreparedBlock)>) {
    && (forall i ::
         0 <= i < |batch| ==> Key(id, batch[i].0) in after && after[Key(id, batch[i].0)] == RowFor(batch[i].1.rawData))
    && (forall k: Key ::
         (k.file == id ==> forall i :: 0 <= i < |batch| ==> batch[i].0 != k.index) ==> SameRow(chunks, after, k))
  }

  lemma BatchIsValid(db: Database, codec: Codec, id: InodeId, chunks: seq<(int, PreparedBlock)>,
                     batch: map<int, Replacement>)
    requires ChunksPrepared(codec, chunks) && IsBatch(batch, chunks) && id in db.inodes
    requires forall i :: 0 <= i < |chunks| ==> chunks[i].1.digest in db.blocks
    ensures ValidBatch(batch, None) && KeysExist(db, id, batch)
  {
    forall k | k in batch ensures k >= 0 && (batch[k].Put? ==> batch[k].size > 0 && batch[k].digest in db.blocks) {
      var i :| 0 <= i < |chunks| && chunks[i].0 == k;
    }
  }

  lemma BatchRows(chunks: Chunks, id: InodeId, prepared: seq<(int, PreparedBlock)>, batch: map<int, Replacement>)
    requires IsBatch(batch, prepared) && forall i ::
      0 <= i < |prepared| ==> prepared[i].1.digest == Digest(prepared[i].1.rawData)
    ensures RowsPut(chunks, Replaced(chunks, id, batch, None), id, prepared)
  {
    var after := Replaced(chunks, id, batch, None);
    forall i | 0 <= i < |prepared|
      ensures Key(id, prepared[i].0) in after && after[Key(id, prepared[i].0)] == RowFor(prepared[i].1.rawData)
    {
      assert Key(id, prepared[i].0) in PutKeys(id, batch);
    }
    forall k: Key | k.file == id ==> forall i :: 0 <= i < |prepared| ==> prepared[i].0 != k.index
      ensures SameRow(chunks, after, k)
    {
      assert k !in PutKeys(id, batch);
    }
  }

  lemma ReplaceKeepsInline(db: Database, id: InodeId, batch: map<int, Replacement>, from: Option<int>, now: int)
    requires InlineAddressed(db)
    ensures InlineAddressed(ReplaceFileChunks(db, id, batch, from, now))
  {
    var deltas := Deltas(OldRows(db.chunks, id, batch, from), NewRows(id, batch));
    AppliedKeepsInline(db.(chunks := Replaced(db.chunks, id, batch, from)), deltas, now);
  }

  lemma AppliedInlineAt(db: Database, deltas: map<Digest, int>, now: int, d: Digest)
    requires InlineAddressed(db) && d in Applied(db, deltas, now).blocks
    ensures d in db.blocks && Applied(db, deltas, now).blocks[d].inlinePayload == db.blocks[d].inlinePayload
  {
  }

  lemma AppliedKeepsInline(db: Database, deltas: map<Digest, int>, now: int)
    requires InlineAddressed(db)
    ensures InlineAddressed(Applied(db, deltas, now))
  {
    forall d | d in Applied(db, deltas, now).blocks && Applied(db, deltas, now).blocks[d].inlinePayload.Some?
      ensures Applied(db, deltas, now).blocks[d].inlinePayload.value.data == d.data
    {
      AppliedInlineAt(db, deltas, now, d);
    }
  }

  lemma PutReaches(from: State, at: State, id: InodeId, batch: map<int, Replacement>, start: Option<int>, now: int,
                   db: Database)
    requires Reaches(from, at) && db == ReplaceFileChunks(at.db, id, batch, start, now)
    requires forall i :: i in batch && batch[i].Put? ==> batch[i].digest in at.db.blocks
    ensures Reaches(from, at.(db := db))
  {
    ReachesStep(from, at, Replace(id, batch, start, now));
  }

  ghost predicate ChunksStorable(blocks: map<Digest, BlockRow>, codec: Codec, down: set<(Digest, Tier)>,
                                 chunks: seq<(int, PreparedBlock)>)
  {
    forall i :: 0 <= i < |chunks| ==> CanStore(blocks, codec, down, chunks[i].1)
  }

  ghost predicate AreBlocksOf(chunks: seq<(int, PreparedBlock)>, blocks: seq<PreparedBlock>) {
    |blocks| == |chunks| && forall i :: 0 <= i < |chunks| ==> blocks[i] == chunks[i].1
  }

  lemma BlocksOf(codec: Codec, chunks: seq<(int, PreparedBlock)>, blocks: seq<PreparedBlock>)
    requires ChunksPrepared(codec, chunks) && AreBlocksOf(chunks, blocks)
    ensures Agree(blocks) && forall b :: b in blocks ==> WellPrepared(codec, b)
  {
  }

  lemma GuardsOf(s: State, chunks: seq<(int, PreparedBlock)>, blocks: seq<PreparedBlock>)
    requires AreBlocksOf(chunks, blocks) && ChunkGuards(s, chunks)
    ensures forall b :: b in blocks ==> StoreGuard(s, b)
  {
  }

  lemma StorableOf(rows: map<Digest, BlockRow>, codec: Codec, down: set<(Digest, Tier)>,
                   chunks: seq<(int, PreparedBlock)>, blocks: seq<PreparedBlock>)
    requires AreBlocksOf(chunks, blocks) && ChunksStorable(rows, codec, down, chunks)
    ensures forall b :: b in blocks ==> CanStore(rows, codec, down, b)
  {
  }

  /** Storing blocks adds unreferenced rows only. */
  lemma EnsureKeepsTables(codec: Codec, db: Database, unique: map<Digest, PreparedBlock>, now: int)
    requires RefsExact(db) && InlineAddressed(db) && AllPrepared(codec, unique)
    ensures RefsExact(db.(blocks := RowsAfter(db.blocks, unique, now)))
    ensures InlineAddressed(db.(blocks := RowsAfter(db.blocks, unique, now)))
  {
    var rows := RowsAfter(db.blocks, unique, now);
    forall d | d in rows ensures rows[d].refcount == |Naming(db.chunks, d)| {
      EnsuredRowRefs(codec, db, unique, now, d);
    }
    forall d | d in rows && rows[d].inlinePayload.Some? ensures rows[d].inlinePayload.value.data == d.data {
      EnsuredRowRefs(codec, db, unique, now, d);
    }
  }

  lemma EnsuredRowRefs(codec: Codec, db: Database, unique: map<Digest, PreparedBlock>, now: int, d: Digest)
    requires RefsExact(db) && InlineAddressed(db) && AllPrepared(codec, unique)
    requires d in RowsAfter(db.blocks, unique, now)
    ensures var row := RowsAfter(db.blocks, unique, now)[d];
      row.refcount == |Naming(db.chunks, d)| && (row.inlinePayload.Some? ==> row.inlinePayload.value.data == d.data)
  {
    if d in unique {
      assert WellPrepared(codec, unique[d]);
    }
    if d !in db.blocks {
      assert Naming(db.chunks, d) == {};
    }
  }

  /** A chunk is written whole, or has nothing to keep, or its old block can be read. */
  ghost predicate Patchable(db: Database, disk: Disk, down: set<(Digest, Tier)>, w: ChunkWrite) {
    w.kind == FullChunkReplace || w.existingLen == 0 || Readable(db, disk, down, w.row)
  }

  ghost predicate AllPatchable(db: Database, disk: Disk, down: set<(Digest, Tier)>, plan: seq<ChunkWrite>) {
    forall i :: 0 <= i < |plan| ==> Patchable(db, disk, down, plan[i])
  }

  lemma PatchableMore(db: Database, disk: Disk, down: set<(Digest, Tier)>, plan: seq<ChunkWrite>, i: nat)
    requires i < |plan| && AllPatchable(db, disk, down, plan[..i])
    ensures Patchable(db, disk, down, plan[i]) ==> AllPatchable(db, disk, down, plan[..i + 1])
    ensures !Patchable(db, disk, down, plan[i]) ==> !AllPatchable(db, disk, down, plan)
  {
  }

  ghost predicate ArePending(before: Bytes, cs: int, data: Bytes, offset: nat, pending: seq<(int, Bytes)>)
    requires cs > 0
  {
    forall i :: 0 <= i < |pending| ==> IsPending(before, cs, data, offset, offset / cs + i, pending[i])
  }

  ghost predicate IsPending(before: Bytes, cs: int, data: Bytes, offset: nat, index: int, pending: (int, Bytes))
    requires cs > 0
  {
    Touches(cs, data, offset, index) && index >= 0 && pending == (index, WrittenPart(before, data, offset, cs, index))
  }

  /** Data bytes used up by the chunks before `index`. */
  function Consumed(cs: int, n: nat, offset: nat, index: int): int
    requires cs > 0
  {
    if index == offset / cs then 0 else Min(offset + n, index * cs) - offset
  }

  ghost predicate PlansChunk(chunks: Chunks, cs: int, id: InodeId, size: nat, data: Bytes, offset: nat, index: int,
                             w: ChunkWrite)
    requires cs > 0
  {
    Touches(cs, data, offset, index) && w == PlannedWrite(chunks, cs, id, size, data, offset, index)
  }

  ghost predicate IsWritePlan(chunks: Chunks, cs: int, id: InodeId, size: nat, data: Bytes, offset: nat,
                              plan: seq<ChunkWrite>)
    requires cs > 0 && data != []
  {
    && |plan| == (offset + |data| - 1) / cs - offset / cs + 1 > 0
    && forall i :: 0 <= i < |plan| ==> PlansChunk(chunks, cs, id, size, data, offset, offset / cs + i, plan[i])
  }

  lemma AnySize(disk: Disk, down: set<(Digest, Tier)>, d: Digest, row: BlockRow, expected: nat)
    ensures (forall size: nat :: Snapshot(disk, down, d, row, size).Ok?) <==> Snapshot(disk, down, d, row, expected).Ok?
    ensures Snapshot(disk, down, d, row, expected).Err? ==> Snapshot(disk, down, d, row, expected).errno == EIO
  {
  }

  ghost predicate AllReadable(db: Database, disk: Disk, down: set<(Digest, Tier)>, plan: seq<ChunkRead>) {
    forall i :: 0 <= i < |plan| ==> Readable(db, disk, down, plan[i].row)
  }

  lemma ReadableMore(db: Database, disk: Disk, down: set<(Digest, Tier)>, plan: seq<ChunkRead>, i: nat)
    requires i < |plan| && AllReadable(db, disk, down, plan[..i])
    ensures Readable(db, disk, down, plan[i].row) ==> AllReadable(db, disk, down, plan[..i + 1])
    ensures !Readable(db, disk, down, plan[i].row) ==> !AllReadable(db, disk, down, plan)
  {
  }

  lemma JoinedStep(chunks: Chunks, id: InodeId, plan: seq<ChunkRead>, i: nat)
    requires i < |plan| && forall j :: 0 <= j < |plan| ==> plan[j].start <= plan[j].stop <= plan[j].expected
    ensures Joined(chunks, id, plan[..i + 1]) == Joined(chunks, id, plan[..i]) + PlannedPart(chunks, id, plan[i])
  {
    assert plan[..i + 1][..i] == plan[..i];
  }

  ghost predicate WellPlanned(chunks: Chunks, id: InodeId, plan: seq<ChunkRead>) {
    forall i :: 0 <= i < |plan| ==>
      plan[i].start <= plan[i].stop <= plan[i].expected && plan[i].row == RowAt(chunks, id, plan[i].index)
  }

  /** The first `i` reads of the plan gave `data`. */
  ghost predicate Executed(db: Database, disk: Disk, down: set<(Digest, Tier)>, id: InodeId, plan: seq<ChunkRead>,
                           i: nat, data: Bytes)
    requires i <= |plan| && WellPlanned(db.chunks, id, plan)
  {
    data == Joined(db.chunks, id, plan[..i]) && AllReadable(db, disk, down, plan[..i])
  }

  lemma ExecutedMore(db: Database, disk: Disk, down: set<(Digest, Tier)>, id: InodeId, plan: seq<ChunkRead>, i: nat,
                     data: Bytes)
    requires i < |plan| && WellPlanned(db.chunks, id, plan) && Executed(db, disk, down, id, plan, i, data)
    ensures Readable(db, disk, down, plan[i].row) ==>
      Executed(db, disk, down, id, plan, i + 1, data + PlannedPart(db.chunks, id, plan[i]))
    ensures !Readable(db, disk, down, plan[i].row) ==> !AllReadable(db, disk, down, plan)
  {
    ReadableMore(db, disk, down, plan, i);
    JoinedStep(db.chunks, id, plan, i);
  }

  lemma ExecutedAll(db: Database, disk: Disk, down: set<(Digest, Tier)>, id: InodeId, plan: seq<ChunkRead>,
                    data: Bytes)
    requires WellPlanned(db.chunks, id, plan) && Executed(db, disk, down, id, plan, |plan|, data)
    ensures data == Joined(db.chunks, id, plan) && AllReadable(db, disk, down, plan)
  {
    assert plan[..|plan|] == plan;
  }

  /** Every chunk a read of [offset, end) looks at can be read. */
  ghost predicate RangeReadable(db: Database, disk: Disk, down: set<(Digest, Tier)>, cs: int, id: InodeId, offset: int,
                                end: int)
    requires cs > 0
  {
    forall index: int :: ReadTouches(cs, offset, end, index) ==> Readable(db, disk, down, RowAt(db.chunks, id, index))
  }

  /** Under the crash invariant with both tiers reachable every range of every file can be read. */
  lemma SafeRange(db: Database, disk: Disk, cs: int, id: InodeId, offset: int, end: int)
    requires cs > 0 && RefsExact(db) && TablesSafe(db, disk)
    ensures RangeReadable(db, disk, {}, cs, id, offset, end)
  {
    forall index: int | ReadTouches(cs, offset, end, index)
      ensures Readable(db, disk, {}, RowAt(db.chunks, id, index))
    {
      SafeReadable(db, disk, RowAt(db.chunks, id, index));
    }
  }

  lemma PlanCoversRange(db: Database, disk: Disk, down: set<(Digest, Tier)>, cs: int, id: InodeId, size: nat,
                        offset: nat, end: nat, plan: seq<ChunkRead>)
    requires cs > 0 && offset < end <= size && IsReadPlan(db.chunks, cs, id, size, offset, end, plan)
    requires |plan| == (end - 1) / cs - offset / cs + 1
    ensures AllReadable(db, disk, down, plan) <==> RangeReadable(db, disk, down, cs, id, offset, end)
  {
    forall index: int | ReadTouches(cs, offset, end, index)
      ensures plan[index - offset / cs].row == RowAt(db.chunks, id, index)
    {
    }
    forall i | 0 <= i < |plan|
      ensures ReadTouches(cs, offset, end, offset / cs + i) && plan[i].row == RowAt(db.chunks, id, offset / cs + i)
    {
    }
  }

  /** Chunks a read of [offset, end) looks at. */
  predicate ReadTouches(cs: int, offset: int, end: int, index: int)
    requires cs > 0
  {
    0 <= offset < end && offset / cs <= index <= (end - 1) / cs
  }

  /** Every file with its bytes. */
  ghost function Files(db: Database, cs: int): map<InodeId, Bytes>
    requires cs > 0
  {
    map id | id in db.inodes && db.inodes[id].kind == File :: FileBytes(db, cs, id)
  }

  /** Block rows describe the block their digest names. */
  ghost predicate SizesExact(codec: Codec, db: Database) {
    forall d :: d in db.blocks ==>
      db.blocks[d].rawSize == |d.data|
      && db.blocks[d].storedSize == codec.length(Encode(d.data, db.blocks[d].compressed))
  }

  /** What the chunk and block tables keep through every operation. */
  ghost predicate WellKept(codec: Codec, db: Database) {
    RefsExact(db) && InlineAddressed(db) && SizesExact(codec, db)
  }

  /** The chunk rows of a file are those of its first `length` bytes, and inodes and entries stay. */
  ghost predicate ChunksCut(before: Database, after: Database, cs: int, id: InodeId, length: nat)
    requires cs > 0 && id in before.inodes
  {
    && after.inodes == before.inodes && after.entries == before.entries
    && TruncateRows(before.chunks, after.chunks, id, cs, before.inodes[id].size, length)
  }

  lemma EnsureKeepsSizes(codec: Codec, db: Database, unique: map<Digest, PreparedBlock>, now: int)
    requires SizesExact(codec, db) && AllPrepared(codec, unique)
    ensures SizesExact(codec, db.(blocks := RowsAfter(db.blocks, unique, now)))
  {
    var rows := RowsAfter(db.blocks, unique, now);
    forall d | d in rows
      ensures rows[d].rawSize == |d.data| && rows[d].storedSize == codec.length(Encode(d.data, rows[d].compressed))
    {
      if d in unique {
        assert WellPrepared(codec, unique[d]);
      }
    }
  }

  lemma AppliedKeepsSizes(codec: Codec, db: Database, deltas: map<Digest, int>, now: int)
    requires SizesExact(codec, db)
    ensures SizesExact(codec, Applied(db, deltas, now))
  {
  }

  lemma ReplaceKeepsSizes(codec: Codec, db: Database, id: InodeId, batch: map<int, Replacement>, from: Option<int>,
                          now: int)
    requires SizesExact(codec, db)
    ensures SizesExact(codec, ReplaceFileChunks(db, id, batch, from, now))
  {
    var deltas := Deltas(OldRows(db.chunks, id, batch, from), NewRows(id, batch));
    AppliedKeepsSizes(codec, db.(chunks := Replaced(db.chunks, id, batch, from)), deltas, now);
  }

  /** With both tiers reachable and rows that describe their blocks, any prepared block can be stored. */
  lemma AlwaysStorable(codec: Codec, db: Database, chunks: seq<(int, PreparedBlock)>)
    requires SizesExact(codec, db) && ChunksPrepared(codec, chunks)
    ensures ChunksStorable(db.blocks, codec, {}, chunks)
  {
    forall i | 0 <= i < |chunks| ensures CanStore(db.blocks, codec, {}, chunks[i].1) {
      assert WellPrepared(codec, chunks[i].1);
    }
  }

  /** When one file's rows and size change, no other file's bytes do. */
  lemma OtherFileStays(before: Database, after: Database, cs: int, id: InodeId, size: nat, other: InodeId)
    requires cs > 0 && FilesFit(before, cs) && id in before.inodes
    requires after.inodes == before.inodes[id := before.inodes[id].(size := size)]
    requires forall k: Key :: k.file != id ==> SameRow(before.chunks, after.chunks, k)
    requires other in before.inodes && other != id && before.inodes[other].kind == File
    ensures FileBytes(after, cs, other) == FileBytes(before, cs, other)
    ensures ChunksFit(after.chunks, cs, other, after.inodes[other].size)
  {
    OtherRowsDoNotMatter(before.chunks, after.chunks, cs, other, before.inodes[other].size);
  }

  lemma RowsStillOwned(before: Database, after: Database, id: InodeId, size: nat, k: Key)
    requires forall k :: k in before.chunks ==> k.file in before.inodes && before.inodes[k.file].kind == File
    requires id in before.inodes && before.inodes[id].kind == File
    requires after.inodes == before.inodes[id := before.inodes[id].(size := size)]
    requires (k.file != id ==> SameRow(before.chunks, after.chunks, k)) && k in after.chunks
    ensures k.file in after.inodes && after.inodes[k.file].kind == File
  {
  }

  lemma OneFileChanged(before: Database, after: Database, cs: int, id: InodeId, size: nat)
    requires cs > 0 && FilesFit(before, cs) && id in before.inodes && before.inodes[id].kind == File
    requires after.inodes == before.inodes[id := before.inodes[id].(size := size)]
    requires forall k: Key :: k.file != id ==> SameRow(before.chunks, after.chunks, k)
    requires ChunksFit(after.chunks, cs, id, size)
    ensures FilesFit(after, cs)
    ensures Files(after, cs) == Files(before, cs)[id := Contents(after.chunks, cs, id, size)]
  {
    forall other | other in before.inodes && other != id && before.inodes[other].kind == File
      ensures FileBytes(after, cs, other) == FileBytes(before, cs, other)
      ensures ChunksFit(after.chunks, cs, other, after.inodes[other].size)
    {
      OtherFileStays(before, after, cs, id, size, other);
    }
    forall k | k in after.chunks ensures k.file in after.inodes && after.inodes[k.file].kind == File {
      RowsStillOwned(before, after, id, size, k);
    }
  }

  /** The prepared chunks of a write: the touched chunks of the file as the write leaves it. */
  ghost predicate IsPreparedWrite(codec: Codec, cs: int, before: Bytes, data: Bytes, offset: nat, compress: bool,
                                  prepared: seq<(int, PreparedBlock)>)
    requires cs > 0 && data != []
  {
    && |prepared| == (offset + |data| - 1) / cs - offset / cs + 1
    && forall i ::
         0 <= i < |prepared| ==>
           IsPreparedChunk(codec, cs, before, data, offset, compress, offset / cs + i, prepared[i])
  }

  ghost predicate IsPreparedChunk(codec: Codec, cs: int, before: Bytes, data: Bytes, offset: nat, compress: bool,
                                  index: int, chunk: (int, PreparedBlock))
    requires cs > 0
  {
    && Touches(cs, data, offset, index) && index >= 0
    && chunk == (index, Prepare(codec, WrittenPart(before, data, offset, cs, index), compress))
  }

  lemma PreparedIsPrepared(codec: Codec, cs: int, before: Bytes, data: Bytes, offset: nat, compress: bool,
                           prepared: seq<(int, PreparedBlock)>)
    requires cs > 0 && data != [] && IsPreparedWrite(codec, cs, before, data, offset, compress, prepared)
    ensures ChunksPrepared(codec, prepared)
  {
    forall i | 0 <= i < |prepared|
      ensures prepared[i].0 == offset / cs + i >= 0
      ensures WellPrepared(codec, prepared[i].1) && prepared[i].1 == Prepare(codec, prepared[i].1.rawData, compress)
    {
      assert IsPreparedChunk(codec, cs, before, data, offset, compress, offset / cs + i, prepared[i]);
    }
  }

  lemma PutRow(codec: Codec, chunks: Chunks, after: Chunks, cs: int, id: InodeId, before: Bytes, data: Bytes,
               offset: nat, compress: bool,
               prepared: seq<(int, PreparedBlock)>, index: int)
    requires cs > 0 && Touches(cs, data, offset, index)
    requires IsPreparedWrite(codec, cs, before, data, offset, compress, prepared)
    requires RowsPut(chunks, after, id, prepared)
    ensures 0 <= index && Key(id, index) in after
      && after[Key(id, index)] == RowFor(WrittenPart(before, data, offset, cs, index))
  {
    var i := index - offset / cs;
    assert IsPreparedChunk(codec, cs, before, data, offset, compress, offset / cs + i, prepared[i]);
  }

  lemma OtherRowKept(codec: Codec, chunks: Chunks, after: Chunks, cs: int, id: InodeId, before: Bytes, data: Bytes,
                     offset: nat, compress: bool,
                     prepared: seq<(int, PreparedBlock)>, k: Key)
    requires cs > 0 && data != [] && IsPreparedWrite(codec, cs, before, data, offset, compress, prepared)
    requires RowsPut(chunks, after, id, prepared) && !(k.file == id && Touches(cs, data, offset, k.index))
    ensures SameRow(chunks, after, k)
  {
    forall i | k.file == id && 0 <= i < |prepared| ensures prepared[i].0 != k.index {
      assert IsPreparedChunk(codec, cs, before, data, offset, compress, offset / cs + i, prepared[i]);
    }
  }

  lemma PutIsWrite(codec: Codec, chunks: Chunks, after: Chunks, cs: int, id: InodeId, size: nat, data: Bytes,
                   offset: nat, compress: bool,
                   prepared: seq<(int, PreparedBlock)>)
    requires cs > 0 && data != []
    requires IsPreparedWrite(codec, cs, Contents(chunks, cs, id, size), data, offset, compress, prepared)
    requires RowsPut(chunks, after, id, prepared)
    ensures WriteRows(chunks, after, id, cs, size, data, offset)
  {
    var before := Contents(chunks, cs, id, size);
    forall i: nat | offset / cs <= i <= (offset + |data| - 1) / cs
      ensures Key(id, i) in after && after[Key(id, i)] == RowFor(WrittenPart(before, data, offset, cs, i))
    {
      PutRow(codec, chunks, after, cs, id, before, data, offset, compress, prepared, i);
    }
    forall k: Key | !(k.file == id && offset / cs <= k.index <= (offset + |data| - 1) / cs)
      ensures SameRow(chunks, after, k)
    {
      OtherRowKept(codec, chunks, after, cs, id, before, data, offset, compress, prepared, k);
    }
  }

  /** The guards of the steps of a write. */
  ghost predicate WriteGuards(s: State, codec: Codec, cs: int, before: Bytes, data: Bytes, offset: nat, compress: bool)
    requires cs > 0
  {
    forall index: int, chunk ::
      IsPreparedChunk(codec, cs, before, data, offset, compress, index, chunk) ==> StoreGuard(s, chunk.1)
  }

  lemma WriteGuardsOf(s: State, codec: Codec, cs: int, before: Bytes, data: Bytes, offset: nat, compress: bool,
                      prepared: seq<(int, PreparedBlock)>)
    requires cs > 0 && data != [] && IsPreparedWrite(codec, cs, before, data, offset, compress, prepared)
    requires WriteGuards(s, codec, cs, before, data, offset, compress)
    ensures ChunkGuards(s, prepared)
  {
    forall i | 0 <= i < |prepared| ensures StoreGuard(s, prepared[i].1) {
      assert IsPreparedChunk(codec, cs, before, data, offset, compress, offset / cs + i, prepared[i]);
    }
  }

  lemma PendingIsPrepared(codec: Codec, cs: int, before: Bytes, data: Bytes, offset: nat, compress: bool,
                          pending: seq<(int, Bytes)>,
                          prepared: seq<(int, PreparedBlock)>)
    requires cs > 0 && data != [] && |pending| == |prepared| == (offset + |data| - 1) / cs - offset / cs + 1
    requires ArePending(before, cs, data, offset, pending)
    requires forall i :: 0 <= i < |pending| ==> prepared[i] == (pending[i].0, Prepare(codec, pending[i].1, compress))
    ensures IsPreparedWrite(codec, cs, before, data, offset, compress, prepared)
  {
    forall i | 0 <= i < |prepared|
      ensures IsPreparedChunk(codec, cs, before, data, offset, compress, offset / cs + i, prepared[i])
    {
      assert IsPending(before, cs, data, offset, offset / cs + i, pending[i]);
    }
  }

  /** Rows the crash invariant holds of can be read when both tiers are reachable. */
  lemma SafeReadable(db: Database, disk: Disk, row: Option<ChunkRow>)
    requires TablesSafe(db, disk) && (row.Some? ==> row.value.digest in db.blocks)
    ensures Readable(db, disk, {}, row)
  {
    if row.Some? {
      var d := row.value.digest;
      forall expected: nat ensures Snapshot(disk, {}, d, db.blocks[d], expected).Ok? {
        SafeRowReads(disk, d, db.blocks[d], db.queue, expected);
      }
    }
  }

  lemma SafePatchable(db: Database, disk: Disk, cs: int, id: InodeId, data: Bytes, offset: nat, plan: seq<ChunkWrite>)
    requires cs > 0 && data != [] && id in db.inodes && RefsExact(db) && TablesSafe(db, disk)
    requires IsWritePlan(db.chunks, cs, id, db.inodes[id].size, data, offset, plan)
    ensures AllPatchable(db, disk, {}, plan)
  {
    forall i | 0 <= i < |plan| ensures Patchable(db, disk, {}, plan[i]) {
      assert PlansChunk(db.chunks, cs, id, db.inodes[id].size, data, offset, offset / cs + i, plan[i]);
      SafeReadable(db, disk, plan[i].row);
    }
  }

  /** A size update and the end of the transaction as steps. */
  lemma FinishReaches(from: State, at: State, done: State, ok: bool)
    requires Reaches(from, at) && at.demotion == NotDemoting
    requires done == at.(db := at.db.(inodes := done.db.inodes))
    ensures Reaches(from, Next(done, if ok then Commit else Abort))
  {
    ReachesStep(from, at, Namespace(done.db.inodes, at.db.entries));
    ReachesStep(from, done, if ok then Commit else Abort);
  }

  // ----- truncation -----

  function RemoveStep(id: InodeId, first: int, now: int): Step {
    Replace(id, map[], Some(first), now)
  }

  /** Rows of the range are gone and the others stay. */
  ghost predicate RowsRemoved(chunks: Chunks, after: Chunks, id: InodeId, first: int) {
    && (forall k: Key :: k.file == id && k.index >= first ==> k !in after)
    && (forall k: Key :: k.file != id || k.index < first ==> SameRow(chunks, after, k))
  }

  lemma RemovalRemoves(chunks: Chunks, id: InodeId, first: int)
    ensures RowsRemoved(chunks, Replaced(chunks, id, map[], Some(first)), id, first)
  {
    assert PutKeys(id, map[]) == {};
  }

  lemma RemoveReaches(from: State, at: State, id: InodeId, first: int, now: int)
    requires Reaches(from, at)
    ensures Reaches(from, Next(at, RemoveStep(id, first, now)))
  {
    ReachesStep(from, at, RemoveStep(id, first, now));
  }

  lemma FirstOfZero(cs: int)
    requires cs > 0
    ensures FirstRemoved(0, cs) == 0
  {
    Locate(0, cs - 1, cs);
  }

  lemma FirstIsNat(length: nat, cs: int)
    requires cs > 0
    ensures FirstRemoved(length, cs) >= 0
  {
    Monotone(0, length + cs - 1, cs);
  }

  lemma LastIsPrepared(codec: Codec, index: int, part: Bytes, compress: bool)
    requires index >= 0 && part != []
    ensures ChunksPrepared(codec, [(index, Prepare(codec, part, compress))])
  {
  }

  predicate CutsChunk(cs: int, size: nat, length: nat)
    requires cs > 0
  {
    length < size && length % cs != 0
  }

  /** The bytes of the last chunk that a truncation keeps. */
  function KeptPart(before: Bytes, cs: int, length: nat): Bytes
    requires cs > 0 && length <= |before|
  {
    Split(length, cs);
    assert (length / cs) * cs >= 0 by { Scale(length / cs, cs); }
    before[length - length % cs..length]
  }

  /** The guard of the steps that store the rewritten last chunk, in the state the removed rows leave. */
  ghost predicate TruncateGuard(s: State, codec: Codec, cs: int, id: InodeId, length: nat, compress: bool, now: int)
    requires cs > 0 && id in s.db.inodes
  {
    CutsChunk(cs, s.db.inodes[id].size, length) ==>
      StoreGuard(Next(s, RemoveStep(id, FirstRemoved(length, cs), now)),
        Prepare(codec, KeptPart(FileBytes(s.db, cs, id), cs, length), compress))
  }

  /** What `chunk[:keep]` is. */
  lemma KeptBytes(chunks: Chunks, mid: Chunks, cs: int, id: InodeId, size: nat, length: nat)
    requires cs > 0 && CutsChunk(cs, size, length) && RowsRemoved(chunks, mid, id, FirstRemoved(length, cs))
    ensures 0 <= (length / cs) * cs <= length < (length / cs) * cs + cs
      && length - (length / cs) * cs == length % cs > 0
    ensures Fit(Part(mid, id, length / cs), Min(cs, size - (length / cs) * cs))[..length % cs]
      == KeptPart(Contents(chunks, cs, id, size), cs, length)
  {
    Split(length, cs);
    Scale(length / cs, cs);
    RoundUp(length, cs);
    var last := length / cs;
    assert SameRow(chunks, mid, Key(id, last));
    assert Part(mid, id, last) == Part(chunks, id, last);
    KeptSlice(chunks, cs, id, size, last, last * cs, length);
  }

  lemma KeptSlice(chunks: Chunks, cs: int, id: InodeId, size: nat, last: nat, base: nat, length: nat)
    requires cs > 0 && base == last * cs && base <= length < size && length < base + cs
    ensures Fit(Part(chunks, id, last), Min(cs, size - base))[..length - base]
      == Contents(chunks, cs, id, size)[base..length]
  {
    var kept := Fit(Part(chunks, id, last), Min(cs, size - base))[..length - base];
    forall o | 0 <= o < length - base ensures kept[o] == Contents(chunks, cs, id, size)[base..length][o] {
      ByteInChunk(chunks, cs, id, last, o);
    }
  }

  lemma TruncateIsPut(codec: Codec, chunks: Chunks, mid: Chunks, after: Chunks, cs: int, id: InodeId, size: nat,
                      length: nat, b: PreparedBlock)
    requires cs > 0 && CutsChunk(cs, size, length)
    requires RowsRemoved(chunks, mid, id, FirstRemoved(length, cs)) && RowsPut(mid, after, id, [(length / cs, b)])
    requires b.rawData == KeptPart(Contents(chunks, cs, id, size), cs, length)
    ensures TruncateRows(chunks, after, id, cs, size, length)
  {
    RoundUp(length, cs);
    Split(length, cs);
    Scale(length / cs, cs);
    var put := [(length / cs, b)];
    assert put[0].0 == length / cs;
    assert after[Key(id, length / cs)] == RowFor(b.rawData);
    forall k: Key | k != Key(id, length / cs) ensures SameRow(mid, after, k) {
      assert forall i :: 0 <= i < |put| ==> put[i] == put[0];
    }
  }

  /** After a truncation the file is cut or zero-extended and the others are as before. */
  lemma TruncateDone(before: Database, after: Database, cs: int, id: InodeId, length: nat)
    requires cs > 0 && FilesFit(before, cs) && id in before.inodes && before.inodes[id].kind == File
    requires TruncateRows(before.chunks, after.chunks, id, cs, before.inodes[id].size, length)
    requires after.inodes == before.inodes[id := before.inodes[id].(size := length)]
    ensures FilesFit(after, cs)
    ensures Files(after, cs) == Files(before, cs)[id := FlatTruncate(FileBytes(before, cs, id), length)]
  {
    TruncateRefines(before.chunks, after.chunks, id, cs, before.inodes[id].size, length);
    OneFileChanged(before, after, cs, id, length);
  }

  // ----- clones and deletion -----

  /** The tables after `clone_file_node`, apart from the directory entry. */
  function Cloned(db: Database, source: InodeId, target: InodeId): Database
    requires source in db.inodes
  {
    CloneChunks(db, source, target).(inodes := db.inodes[target := Inode(File, db.inodes[source].size, 1)])
  }

  lemma ClonedContents(chunks: Chunks, cs: int, source: InodeId, target: InodeId, size: nat)
    requires cs > 0 && (forall k :: k in chunks ==> k.file != target) && source != target
    ensures Contents(chunks + ClonedRows(chunks, source, target), cs, target, size)
      == Contents(chunks, cs, source, size)
    ensures ChunksFit(chunks, cs, source, size) ==>
      ChunksFit(chunks + ClonedRows(chunks, source, target), cs, target, size)
    ensures forall k: Key :: k.file != target ==> SameRow(chunks, chunks + ClonedRows(chunks, source, target), k)
  {
    var after := chunks + ClonedRows(chunks, source, target);
    forall index: int ensures Part(after, target, index) == Part(chunks, source, index) {
      assert Key(source, index) in chunks <==> Key(target, index) in CloneKeys(chunks, source, target);
    }
    forall p | 0 <= p < size ensures ByteAt(after, cs, target, p) == ByteAt(chunks, cs, source, p) {
      assert Part(after, target, p / cs) == Part(chunks, source, p / cs);
    }
    forall k: Key | k.file != target ensures SameRow(chunks, after, k) {
      assert k !in CloneKeys(chunks, source, target);
    }
  }

  /** A clone reads like its source and no other file changes. */
  lemma CloneDone(db: Database, cs: int, source: InodeId, target: InodeId)
    requires cs > 0 && FilesFit(db, cs) && source in db.inodes && db.inodes[source].kind == File && target !in db.inodes
    ensures FilesFit(Cloned(db, source, target), cs)
    ensures Files(Cloned(db, source, target), cs) == Files(db, cs)[target := FileBytes(db, cs, source)]
  {
    var after, size := Cloned(db, source, target), db.inodes[source].size;
    ClonedContents(db.chunks, cs, source, target, size);
    forall id | id in db.inodes && db.inodes[id].kind == File
      ensures FileBytes(after, cs, id) == FileBytes(db, cs, id) && ChunksFit(after.chunks, cs, id, db.inodes[id].size)
    {
      OtherRowsDoNotMatter(db.chunks, after.chunks, cs, id, db.inodes[id].size);
    }
    forall k | k in after.chunks ensures k.file in after.inodes && after.inodes[k.file].kind == File {
      assert k.file != target ==> SameRow(db.chunks, after.chunks, k);
    }
  }

  lemma FileRemoved(before: Database, after: Database, cs: int, id: InodeId)
    requires cs > 0 && FilesFit(before, cs) && id in before.inodes && before.inodes[id].kind == File
    requires after.inodes == before.inodes - {id} && RowsRemoved(before.chunks, after.chunks, id, 0)
    ensures FilesFit(after, cs) && Files(after, cs) == Files(before, cs) - {id}
  {
    forall other | other in after.inodes && after.inodes[other].kind == File
      ensures FileBytes(after, cs, other) == FileBytes(before, cs, other)
        && ChunksFit(after.chunks, cs, other, before.inodes[other].size)
    {
      OtherRowsDoNotMatter(before.chunks, after.chunks, cs, other, before.inodes[other].size);
    }
    forall k | k in before.chunks && k.file == id ensures k.index >= 0 {
      assert RowFits(before.chunks[k], k.index, cs, before.inodes[id].size);
    }
    forall k | k in after.chunks ensures k in before.chunks && k.file != id {
      assert k.file != id || k.index < 0 ==> SameRow(before.chunks, after.chunks, k);
    }
  }

  /** `_delete_inode_payload`: chunks and inode go, and no other file changes. */
  lemma DeleteDone(db: Database, cs: int, id: InodeId, now: int)
    requires cs > 0 && FilesFit(db, cs) && id in db.inodes && db.inodes[id].kind == File
    ensures var after := ReplaceFileChunks(db, id, map[], Some(0), now).(inodes := db.inodes - {id});
      FilesFit(after, cs) && Files(after, cs) == Files(db, cs) - {id}
  {
    RemovalRemoves(db.chunks, id, 0);
    FileRemoved(db, ReplaceFileChunks(db, id, map[], Some(0), now).(inodes := db.inodes - {id}), cs, id);
  }
}
