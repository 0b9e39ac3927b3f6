/** `file_chunks` rows, the reference counts they imply, and the batch replacement primitive
    that is the only way either of them changes. */
module ChunkTable {
  import opened Types
  import opened Schema

  type Chunks = map<Key, ChunkRow>

  /** `ChunkReplacement`: the digest is optional, and no digest means the chunk is removed. */
  datatype Replacement = Remove | Put(digest: Digest, size: int)

  /** Rows that the batch deletes or overwrites; each is selected once. */
  function Touched(chunks: Chunks, file: InodeId, batch: map<int, Replacement>, from: Option<int>): set<Key> {
    set k | k in chunks && k.file == file && (k.index in batch || (from.Some? && from.value <= k.index))
  }

  function Only(chunks: Chunks, keys: set<Key>): Chunks {
    map k | k in chunks && k in keys :: chunks[k]
  }

  function OldRows(chunks: Chunks, file: InodeId, batch: map<int, Replacement>, from: Option<int>): Chunks {
    Only(chunks, Touched(chunks, file, batch, from))
  }

  function PutKeys(file: InodeId, batch: map<int, Replacement>): set<Key> {
    set i | i in batch && batch[i].Put? :: Key(file, i)
  }

  function NewRows(file: InodeId, batch: map<int, Replacement>): Chunks {
    map k | k in PutKeys(file, batch) :: ChunkRow(batch[k.index].digest, batch[k.index].size)
  }

  function Replaced(chunks: Chunks, file: InodeId, batch: map<int, Replacement>, from: Option<int>): Chunks {
    (chunks - Touched(chunks, file, batch, from)) + NewRows(file, batch)
  }

  /** The rows that name a block, and so the references it has. */
  function Naming(chunks: Chunks, d: Digest): set<Key> {
    set k | k in chunks && chunks[k].digest == d
  }

  function Digests(chunks: Chunks): set<Digest> {
    set k | k in chunks :: chunks[k].digest
  }

  /** The multiset difference of new and old references, without its zero entries. */
  function Deltas(removed: Chunks, added: Chunks): (deltas: map<Digest, int>)
    ensures forall d :: d in deltas ==> deltas[d] != 0
  {
    map d | d in Digests(removed) + Digests(added) && |Naming(added, d)| != |Naming(removed, d)|
      :: |Naming(added, d)| - |Naming(removed, d)|
  }

  /** What one nonzero delta does to a block row; None deletes the row. */
  function AppliedRow(row: BlockRow, delta: int, now: int): Option<BlockRow> {
    var count := row.refcount + delta;
    if delta > 0 then Some(row.(refcount := count, coldGc := None))
    else if count > 0 then Some(row.(refcount := count))
    else if row.storage == Tiered && row.cold then
      Some(row.(refcount := 0, hot := false, cold := true, preferred := Some(Cold),
                coldGc := if row.coldGc.Some? then row.coldGc else Some(now)))
    else None
  }

  /** The hot file of a tiered block whose last reference goes is queued for deletion. */
  predicate Enqueues(row: BlockRow, delta: int) {
    delta < 0 && row.refcount + delta <= 0 && row.storage == Tiered && row.hot
  }

  /** A row after the deltas of the digests in `done`. */
  function RowAfter(row: BlockRow, deltas: map<Digest, int>, done: set<Digest>, d: Digest, now: int): Option<BlockRow> {
    if d in done && d in deltas then AppliedRow(row, deltas[d], now) else Some(row)
  }

  function BlocksAfter(blocks: map<Digest, BlockRow>, deltas: map<Digest, int>, done: set<Digest>,
                       now: int): map<Digest, BlockRow>
  {
    map d | d in blocks && RowAfter(blocks[d], deltas, done, d, now).Some? ::
      RowAfter(blocks[d], deltas, done, d, now).value
  }

  function QueueAfter(db: Database, deltas: map<Digest, int>, done: set<Digest>): set<(Digest, Tier)> {
    db.queue + set d | d in done && d in deltas && d in db.blocks && Enqueues(db.blocks[d], deltas[d]) :: (d, Hot)
  }

  /** The effect of the deltas of the digests in `done`. */
  function AppliedOn(db: Database, deltas: map<Digest, int>, done: set<Digest>, now: int): Database {
    db.(blocks := BlocksAfter(db.blocks, deltas, done, now), queue := QueueAfter(db, deltas, done))
  }

  function Applied(db: Database, deltas: map<Digest, int>, now: int): Database {
    AppliedOn(db, deltas, deltas.Keys, now)
  }

  /** `replace_file_chunks` on whole tables. */
  function ReplaceFileChunks(db: Database, file: InodeId, batch: map<int, Replacement>, from: Option<int>,
                             now: int): Database
  {
    Applied(db.(chunks := Replaced(db.chunks, file, batch, from)),
            Deltas(OldRows(db.chunks, file, batch, from), NewRows(file, batch)), now)
  }

  /** Every reference count is the number of rows naming the block, and no row names a missing block. */
  ghost predicate RefsExact(db: Database) {
    && (forall k :: k in db.chunks ==> db.chunks[k].digest in db.blocks)
    && (forall d :: d in db.blocks ==> db.blocks[d].refcount == |Naming(db.chunks, d)|)
  }

  predicate IsGarbageRow(row: BlockRow) {
    row.storage == Tiered && row.cold && row.coldGc.Some?
  }

  /** A row nobody refers to is kept only as cold garbage. */
  ghost predicate UnreferencedIsGarbage(db: Database) {
    forall d :: d in db.blocks && db.blocks[d].refcount == 0 ==> IsGarbageRow(db.blocks[d])
  }

  /** None of the errors of `apply_block_refcount_deltas` and none of the foreign keys fire. */
  ghost predicate Applicable(db: Database, deltas: map<Digest, int>) {
    forall d :: d in deltas && deltas[d] < 0 ==>
      && d in db.blocks
      && db.blocks[d].refcount + deltas[d] >= 0
      && (db.blocks[d].refcount + deltas[d] == 0 ==> Naming(db.chunks, d) == {})
  }

  lemma RemovedCount(chunks: Chunks, gone: set<Key>, d: Digest)
    ensures |Naming(chunks, d)| == |Naming(chunks - gone, d)| + |Naming(Only(chunks, gone), d)|
  {
    assert Naming(chunks, d) == Naming(chunks - gone, d) + Naming(Only(chunks, gone), d);
  }

  lemma AddedCount(chunks: Chunks, added: Chunks, d: Digest)
    requires chunks.Keys !! added.Keys
    ensures |Naming(chunks + added, d)| == |Naming(chunks, d)| + |Naming(added, d)|
  {
    assert Naming(chunks + added, d) == Naming(chunks, d) + Naming(added, d);
  }

  lemma ReplacedCount(chunks: Chunks, file: InodeId, batch: map<int, Replacement>, from: Option<int>, d: Digest)
    ensures |Naming(Replaced(chunks, file, batch, from), d)| + |Naming(OldRows(chunks, file, batch, from), d)|
         == |Naming(chunks, d)| + |Naming(NewRows(file, batch), d)|
  {
    var gone, added := Touched(chunks, file, batch, from), NewRows(file, batch);
    RemovedCount(chunks, gone, d);
    AddedCount(chunks - gone, added, d);
  }

  function DeltaOf(deltas: map<Digest, int>, d: Digest): int {
    if d in deltas then deltas[d] else 0
  }

  lemma DeltaIsDifference(removed: Chunks, added: Chunks, d: Digest)
    ensures DeltaOf(Deltas(removed, added), d) == |Naming(added, d)| - |Naming(removed, d)|
  {
    if d !in Digests(removed) { assert Naming(removed, d) == {}; }
    if d !in Digests(added) { assert Naming(added, d) == {}; }
  }

  /** After `file_chunks` changed, the deltas account for the difference exactly. */
  ghost predicate Accounts(db: Database, deltas: map<Digest, int>) {
    && (forall k :: k in db.chunks ==> db.chunks[k].digest in db.blocks)
    && (forall d :: d in deltas ==> d in db.blocks && deltas[d] != 0)
    && (forall d :: d in db.blocks ==> |Naming(db.chunks, d)| == db.blocks[d].refcount + DeltaOf(deltas, d))
  }

  lemma DeltaMatches(chunks: Chunks, file: InodeId, batch: map<int, Replacement>, from: Option<int>, d: Digest)
    ensures |Naming(Replaced(chunks, file, batch, from), d)|
         == |Naming(chunks, d)| + DeltaOf(Deltas(OldRows(chunks, file, batch, from), NewRows(file, batch)), d)
  {
    ReplacedCount(chunks, file, batch, from, d);
    DeltaIsDifference(OldRows(chunks, file, batch, from), NewRows(file, batch), d);
  }

  lemma ReplacedNamesKnown(chunks: Chunks, file: InodeId, batch: map<int, Replacement>, from: Option<int>,
                           known: set<Digest>)
    requires forall k :: k in chunks ==> chunks[k].digest in known
    requires forall i :: i in batch && batch[i].Put? ==> batch[i].digest in known
    ensures forall k ::
      k in Replaced(chunks, file, batch, from) ==> Replaced(chunks, file, batch, from)[k].digest in known
    ensures Deltas(OldRows(chunks, file, batch, from), NewRows(file, batch)).Keys <= known
  {
  }

  lemma ReplaceAccounts(db: Database, file: InodeId, batch: map<int, Replacement>, from: Option<int>)
    requires RefsExact(db)
    requires forall i :: i in batch && batch[i].Put? ==> batch[i].digest in db.blocks
    ensures Accounts(db.(chunks := Replaced(db.chunks, file, batch, from)),
                     Deltas(OldRows(db.chunks, file, batch, from), NewRows(file, batch)))
  {
    var deltas := Deltas(OldRows(db.chunks, file, batch, from), NewRows(file, batch));
    var after := Replaced(db.chunks, file, batch, from);
    ReplacedNamesKnown(db.chunks, file, batch, from, db.blocks.Keys);
    forall d | d in db.blocks ensures |Naming(after, d)| == db.blocks[d].refcount + DeltaOf(deltas, d) {
      DeltaMatches(db.chunks, file, batch, from, d);
    }
    forall d | d in deltas ensures d in db.blocks && deltas[d] != 0 {
      assert d in deltas.Keys;
    }
  }

  lemma AccountsGivesExact(db: Database, deltas: map<Digest, int>, now: int)
    requires Accounts(db, deltas)
    ensures Applicable(db, deltas)
    ensures RefsExact(Applied(db, deltas, now))
  {
    forall k | k in db.chunks ensures db.chunks[k].digest in Applied(db, deltas, now).blocks {
      assert k in Naming(db.chunks, db.chunks[k].digest);
    }
  }

  /** Reference counts stay exact through any batch: deletions, overwritten chunks, a `delete_from` range
      overlapping replacements, and several chunks naming one digest.  The "missing block" and "negative
      refcount" errors are never reached. */
  lemma ReplaceKeepsRefsExact(db: Database, file: InodeId, batch: map<int, Replacement>, from: Option<int>, now: int)
    requires RefsExact(db)
    requires forall i :: i in batch && batch[i].Put? ==> batch[i].digest in db.blocks
    ensures Applicable(db.(chunks := Replaced(db.chunks, file, batch, from)),
                       Deltas(OldRows(db.chunks, file, batch, from), NewRows(file, batch)))
    ensures RefsExact(ReplaceFileChunks(db, file, batch, from, now))
  {
    ReplaceAccounts(db, file, batch, from);
    AccountsGivesExact(db.(chunks := Replaced(db.chunks, file, batch, from)),
                       Deltas(OldRows(db.chunks, file, batch, from), NewRows(file, batch)), now);
  }

  lemma AppliedGarbageAt(db: Database, deltas: map<Digest, int>, now: int, d: Digest)
    requires Accounts(db, deltas) && d in Applied(db, deltas, now).blocks && db.blocks[d].refcount >= 0
    requires db.blocks[d].refcount == 0 && Naming(db.chunks, d) == {} ==> IsGarbageRow(db.blocks[d])
    requires Applied(db, deltas, now).blocks[d].refcount == 0
    ensures IsGarbageRow(Applied(db, deltas, now).blocks[d])
  {
    if Naming(db.chunks, d) == {} {
      assert |Naming(db.chunks, d)| == 0;
    }
  }

  lemma AppliedLeavesOnlyGarbage(db: Database, deltas: map<Digest, int>, now: int, named: set<Digest>)
    requires Accounts(db, deltas)
    requires forall d :: d in named ==> Naming(db.chunks, d) != {}
    requires forall d :: d in db.blocks ==> db.blocks[d].refcount >= 0
    requires forall d :: d in db.blocks && db.blocks[d].refcount == 0 && d !in named ==> IsGarbageRow(db.blocks[d])
    ensures UnreferencedIsGarbage(Applied(db, deltas, now))
  {
    AccountsGivesExact(db, deltas, now);
    forall d | d in Applied(db, deltas, now).blocks && Applied(db, deltas, now).blocks[d].refcount == 0
      ensures IsGarbageRow(Applied(db, deltas, now).blocks[d])
    {
      assert d in named ==> Naming(db.chunks, d) != {};
      AppliedGarbageAt(db, deltas, now, d);
    }
  }

  /** Replacing chunks leaves an unreferenced row only as cold garbage, given that the only other
      unreferenced rows before it are the ones inserted for the batch. */
  lemma ReplaceLeavesOnlyGarbage(db: Database, file: InodeId, batch: map<int, Replacement>, from: Option<int>, now: int)
    requires RefsExact(db)
    requires forall i :: i in batch && batch[i].Put? ==> batch[i].digest in db.blocks
    requires forall d :: d in db.blocks && db.blocks[d].refcount == 0 && d !in Digests(NewRows(file, batch)) ==>
      IsGarbageRow(db.blocks[d])
    ensures UnreferencedIsGarbage(ReplaceFileChunks(db, file, batch, from, now))
  {
    ReplaceAccounts(db, file, batch, from);
    var after, added := Replaced(db.chunks, file, batch, from), NewRows(file, batch);
    forall d | d in Digests(added) ensures Naming(after, d) != {} {
      var k :| k in added && added[k].digest == d;
      assert k in Naming(after, d);
    }
    AppliedLeavesOnlyGarbage(db.(chunks := after), Deltas(OldRows(db.chunks, file, batch, from), added), now,
      Digests(added));
  }

  // ----- the same by the number of chunks that name a block -----

  /** What becomes of a row when the number of chunks that name its block changes from its count to `count`. */
  ghost predicate RowFollows(row: BlockRow, after: Option<BlockRow>, count: nat, now: int) {
    if count == row.refcount then after == Some(row)
    else if count > row.refcount then after == Some(row.(refcount := count, coldGc := None))
    else if count > 0 then after == Some(row.(refcount := count))
    else if row.storage == Tiered && row.cold then
      after == Some(row.(refcount := 0, hot := false, preferred := Some(Cold),
                         coldGc := if row.coldGc.Some? then row.coldGc else Some(now)))
    else after == None
  }

  function RowIn(blocks: map<Digest, BlockRow>, d: Digest): Option<BlockRow> {
    if d in blocks then Some(blocks[d]) else None
  }

  /** After a replacement every row is as the chunks that now name its block demand, no row is new, and exactly the hot
      files of blocks that lost their last chunk join the delete queue. */
  lemma ReplaceRowsExactly(db: Database, file: InodeId, batch: map<int, Replacement>, from: Option<int>, now: int,
                           d: Digest)
    requires RefsExact(db)
    requires forall i :: i in batch && batch[i].Put? ==> batch[i].digest in db.blocks
    ensures var after := ReplaceFileChunks(db, file, batch, from, now);
      && (d !in db.blocks ==> d !in after.blocks)
      && (d in db.blocks ==>
            RowFollows(db.blocks[d], RowIn(after.blocks, d), |Naming(after.chunks, d)|, now))
      && ((d, Hot) in after.queue <==>
            || (d, Hot) in db.queue
            || (d in db.blocks && db.blocks[d].refcount > 0 && Naming(after.chunks, d) == {}
                && db.blocks[d].storage == Tiered && db.blocks[d].hot))
      && ((d, Cold) in after.queue <==> (d, Cold) in db.queue)
  {
    ReplaceAccounts(db, file, batch, from);
    var changed := db.(chunks := Replaced(db.chunks, file, batch, from));
    AppliedExactly(changed, Deltas(OldRows(db.chunks, file, batch, from), NewRows(file, batch)), now, d);
  }

  lemma AppliedExactly(db: Database, deltas: map<Digest, int>, now: int, d: Digest)
    requires Accounts(db, deltas) && (d in db.blocks ==> db.blocks[d].refcount >= 0)
    ensures var after := Applied(db, deltas, now);
      && (d !in db.blocks ==> d !in after.blocks)
      && (d in db.blocks ==> RowFollows(db.blocks[d], RowIn(after.blocks, d), |Naming(db.chunks, d)|, now))
      && ((d, Hot) in after.queue <==>
            || (d, Hot) in db.queue
            || (d in db.blocks && db.blocks[d].refcount > 0 && Naming(db.chunks, d) == {}
                && db.blocks[d].storage == Tiered && db.blocks[d].hot))
      && ((d, Cold) in after.queue <==> (d, Cold) in db.queue)
  {
    if d in db.blocks {
      assert Naming(db.chunks, d) == {} <==> |Naming(db.chunks, d)| == 0;
    }
  }

  /** `clone_file_node`: the clone gets a copy of every chunk row of the source. */
  function CloneKeys(chunks: Chunks, source: InodeId, target: InodeId): set<Key> {
    set k | k in chunks && k.file == source :: Key(target, k.index)
  }

  function ClonedRows(chunks: Chunks, source: InodeId, target: InodeId): Chunks {
    map k | k in CloneKeys(chunks, source, target) :: chunks[Key(source, k.index)]
  }

  function SourceRows(chunks: Chunks, source: InodeId): Chunks {
    map k | k in chunks && k.file == source :: chunks[k]
  }

  function CloneChunks(db: Database, source: InodeId, target: InodeId): Database {
    var shared := SourceRows(db.chunks, source);
    db.(chunks := db.chunks + ClonedRows(db.chunks, source, target),
        blocks := map d | d in db.blocks ::
                    if d in Digests(shared)
                    then db.blocks[d].(refcount := db.blocks[d].refcount + |Naming(shared, d)|, coldGc := None)
                    else db.blocks[d])
  }

  lemma {:induction false} SameSize(s: set<Key>, target: InodeId, t: set<Key>)
    requires forall k :: k in t <==> k.file == target && exists j :: j in s && j.index == k.index
    requires forall j, k :: j in s && k in s && j.index == k.index ==> j == k
    ensures |s| == |t|
  {
    if j :| j in s {
      var u := t - {Key(target, j.index)};
      forall k | k in t - {Key(target, j.index)} ensures exists m :: m in s - {j} && m.index == k.index {
        var m :| m in s && m.index == k.index;
        assert m in s - {j};
      }
      SameSize(s - {j}, target, u);
      assert Key(target, j.index) in t;
    } else {
      assert t == {} by { forall k ensures k !in t { } }
    }
  }

  lemma ClonedCount(chunks: Chunks, source: InodeId, target: InodeId, d: Digest)
    ensures |Naming(ClonedRows(chunks, source, target), d)| == |Naming(SourceRows(chunks, source), d)|
  {
    var shared, cloned := SourceRows(chunks, source), ClonedRows(chunks, source, target);
    forall k | k in Naming(cloned, d) ensures exists j :: j in Naming(shared, d) && j.index == k.index {
      assert Key(source, k.index) in Naming(shared, d);
    }
    forall j | j in Naming(shared, d) ensures Key(target, j.index) in Naming(cloned, d) {
      assert j in CloneKeys(chunks, source, target) || Key(target, j.index) in CloneKeys(chunks, source, target);
    }
    SameSize(Naming(shared, d), target, Naming(cloned, d));
  }

  lemma CloneCount(db: Database, source: InodeId, target: InodeId, d: Digest)
    requires d in db.blocks && db.blocks[d].refcount == |Naming(db.chunks, d)|
    requires forall k :: k in db.chunks ==> k.file != target
    ensures CloneChunks(db, source, target).blocks[d].refcount == |Naming(CloneChunks(db, source, target).chunks, d)|
  {
    ClonedCount(db.chunks, source, target, d);
    AddedCount(db.chunks, ClonedRows(db.chunks, source, target), d);
    if d !in Digests(SourceRows(db.chunks, source)) {
      assert Naming(SourceRows(db.chunks, source), d) == {};
    }
  }

  /** A clone shares every block of its source, and the counts stay exact. */
  lemma CloneKeepsRefsExact(db: Database, source: InodeId, target: InodeId)
    requires RefsExact(db)
    requires forall k :: k in db.chunks ==> k.file != target
    ensures RefsExact(CloneChunks(db, source, target))
  {
    forall d | d in db.blocks
      ensures CloneChunks(db, source, target).blocks[d].refcount == |Naming(CloneChunks(db, source, target).chunks, d)|
    {
      CloneCount(db, source, target, d);
    }
  }

  /** The rows of the blocks a clone shares count the new chunks too. */
  lemma CloneRowsExactly(db: Database, source: InodeId, target: InodeId, d: Digest)
    requires RefsExact(db)
    requires forall k :: k in db.chunks ==> k.file != target
    ensures var after := CloneChunks(db, source, target);
      && (d !in db.blocks ==> d !in after.blocks) && after.queue == db.queue
      && (d in db.blocks ==>
            RowFollows(db.blocks[d], RowIn(after.blocks, d), |Naming(after.chunks, d)|, 0))
  {
    if d in db.blocks {
      CloneCount(db, source, target, d);
      var shared := SourceRows(db.chunks, source);
      if d in Digests(shared) {
        var k :| k in shared && shared[k].digest == d;
        assert k in Naming(shared, d);
      }
    }
  }
}
