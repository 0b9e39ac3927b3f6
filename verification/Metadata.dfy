/** The metadata store as code that changes it: statements run against the working tables of the open
    transaction, which commit or roll back as a whole. */
module Metadata {
  import opened Types
  import opened Schema
  import opened ChunkTable

  /** What can end a statement early; the transaction then rolls back. */
  datatype DbError = ValueError | ForeignKey | MissingBlock | NegativeRefcount

  predicate ValidBatch(batch: map<int, Replacement>, from: Option<int>) {
    && (from.Some? ==> from.value >= 0)
    && (forall i :: i in batch ==> i >= 0 && (batch[i].Put? ==> batch[i].size > 0))
  }

  /** Foreign keys of the rows the batch inserts. */
  predicate KeysExist(db: Database, file: InodeId, batch: map<int, Replacement>) {
    forall i :: i in batch && batch[i].Put? ==> batch[i].digest in db.blocks && file in db.inodes
  }

  /** A deleted row must not be referred to any more (ON DELETE RESTRICT). */
  predicate Restricted(db: Database, row: BlockRow, d: Digest) {
    !(row.storage == Tiered && row.cold) && Naming(db.chunks, d) != {}
  }

  predicate Accepts(db: Database, deltas: map<Digest, int>, d: Digest) {
    && d in deltas && d in db.blocks && db.blocks[d].refcount + deltas[d] >= 0
    && (db.blocks[d].refcount + deltas[d] == 0 ==> !Restricted(db, db.blocks[d], d))
  }

  /** One digest of the batch: its row and its place in the delete queue. */
  function AppliedOne(db: Database, d: Digest, row: BlockRow, delta: int, now: int): Database {
    var after := AppliedRow(row, delta, now);
    db.(blocks := if after.Some? then db.blocks[d := after.value] else db.blocks - {d},
        queue := if Enqueues(row, delta) then db.queue + {(d, Hot)} else db.queue)
  }

  lemma AppliedOnStep(db: Database, deltas: map<Digest, int>, done: set<Digest>, now: int, d: Digest)
    requires d in deltas && d in db.blocks && d !in done
    ensures AppliedOn(db, deltas, done + {d}, now)
      == AppliedOne(AppliedOn(db, deltas, done, now), d, db.blocks[d], deltas[d], now)
  {
    var after, step := AppliedOn(db, deltas, done + {d}, now),
      AppliedOne(AppliedOn(db, deltas, done, now), d, db.blocks[d], deltas[d], now);
    assert after.blocks == step.blocks;
    assert after.queue == step.queue;
  }

  lemma PositiveApplied(db: Database, deltas: map<Digest, int>, now: int, positive: set<Digest>)
    requires positive == set d | d in deltas && deltas[d] > 0
    ensures AppliedOn(db, deltas, positive, now)
         == db.(blocks := map d | d in db.blocks ::
                  if d in positive then db.blocks[d].(refcount := db.blocks[d].refcount + deltas[d], coldGc := None)
                    else db.blocks[d])
  {
    assert AppliedOn(db, deltas, positive, now).queue == db.queue;
  }

  class MetadataStore {
    var db: Database
    var committed: Database

    constructor (db: Database)
      ensures this.db == db && committed == db
    {
      this.db, this.committed := db, db;
    }

    /** End of a write transaction. */
    method Commit()
      modifies this`committed
      ensures committed == db
    {
      committed := db;
    }

    method Rollback()
      modifies this`db
      ensures db == committed
    {
      db := committed;
    }

    /** One pass of the loop over negative deltas. */
    method ApplyNegative(d: Digest, row: BlockRow, delta: int, now: int) returns (error: Option<DbError>)
      requires delta < 0
      modifies this`db
      ensures error == if row.refcount + delta < 0 then Some(NegativeRefcount)
        else if row.refcount + delta == 0 && Restricted(old(db), row, d) then Some(ForeignKey) else None
      ensures db == if error.None? then AppliedOne(old(db), d, row, delta, now) else old(db)
    {
      var count := row.refcount + delta;
      if count < 0 {
        return Some(NegativeRefcount);
      }
      if count > 0 {
        db := db.(blocks := db.blocks[d := row.(refcount := count)]);
        return None;
      }
      if row.storage == Tiered && row.cold {
        db := db.(blocks := db.blocks[d := row.(refcount := 0, hot := false, cold := true, preferred := Some(Cold),
                                                coldGc := if row.coldGc.Some? then row.coldGc else Some(now))]);
        if row.hot {
          db := db.(queue := db.queue + {(d, Hot)});
        }
        return None;
      }
      if Naming(db.chunks, d) != {} {
        return Some(ForeignKey);
      }
      db := db.(blocks := db.blocks - {d});
      if row.storage == Tiered && row.hot {
        db := db.(queue := db.queue + {(d, Hot)});
      }
      return None;
    }

    method ApplyPositive(deltas: map<Digest, int>, now: int) returns (positive: set<Digest>)
      modifies this`db
      ensures positive == set d | d in deltas && deltas[d] > 0
      ensures db == AppliedOn(old(db), deltas, positive, now)
    {
      positive := set d | d in deltas && deltas[d] > 0;
      PositiveApplied(db, deltas, now, positive);
      db := db.(blocks := map d | d in db.blocks ::
                  if d in positive then db.blocks[d].(refcount := db.blocks[d].refcount + deltas[d], coldGc := None)
                    else db.blocks[d]);
    }

    method NextNegative(ghost start: Database, deltas: map<Digest, int>, ghost todo: set<Digest>, d: Digest,
                        rows: map<Digest, BlockRow>, now: int)
      returns (error: Option<DbError>)
      requires d in deltas && deltas[d] < 0 && d in todo && db == AppliedOn(start, deltas, deltas.Keys - todo, now)
      requires (d in rows <==> d in start.blocks) && (d in rows ==> rows[d] == start.blocks[d])
      modifies this`db
      ensures error.None? <==> Accepts(start, deltas, d)
      ensures error.None? ==> db == AppliedOn(start, deltas, deltas.Keys - (todo - {d}), now)
      ensures error != Some(ValueError)
    {
      if d !in rows {
        return Some(MissingBlock);
      }
      AppliedOnStep(start, deltas, deltas.Keys - todo, now, d);
      assert deltas.Keys - (todo - {d}) == (deltas.Keys - todo) + {d};
      error := ApplyNegative(d, rows[d], deltas[d], now);
    }

    method ApplyNegatives(ghost start: Database, deltas: map<Digest, int>, positive: set<Digest>,
                          rows: map<Digest, BlockRow>, now: int)
      returns (error: Option<DbError>)
      requires positive <= deltas.Keys && (forall d :: d in deltas.Keys - positive ==> deltas[d] < 0)
      requires rows == start.blocks && db == AppliedOn(start, deltas, deltas.Keys - (deltas.Keys - positive), now)
      modifies this`db
      ensures error.None? ==> db == AppliedOn(start, deltas, deltas.Keys, now)
      ensures error.None? <==> forall d :: d in deltas.Keys - positive ==> Accepts(start, deltas, d)
      ensures error != Some(ValueError)
    {
      var negative := deltas.Keys - positive;
      while negative != {}
        invariant negative <= deltas.Keys - positive
        invariant forall d :: d in deltas.Keys - positive - negative ==> Accepts(start, deltas, d)
        invariant db == AppliedOn(start, deltas, deltas.Keys - negative, now)
        decreases negative
      {
        var d :| d in negative;
        error := NextNegative(start, deltas, negative, d, rows, now);
        if error.Some? {
          return;
        }
        negative := negative - {d};
      }
      assert deltas.Keys - negative == deltas.Keys;
      error := None;
    }

    /** `apply_block_refcount_deltas`: additions in one statement, then one digest at a time. */
    method ApplyBlockRefcountDeltas(deltas: map<Digest, int>, now: int) returns (error: Option<DbError>)
      requires forall d :: d in deltas ==> deltas[d] != 0
      modifies this`db
      ensures error.None? ==> db == Applied(old(db), deltas, now)
      ensures error.None? <==> forall d :: d in deltas && deltas[d] < 0 ==> Accepts(old(db), deltas, d)
      ensures error.None? <==> forall d :: d in deltas && deltas[d] < 0 ==>
        && d in old(db).blocks && old(db).blocks[d].refcount + deltas[d] >= 0
        && (old(db).blocks[d].refcount + deltas[d] == 0 ==>
              || (old(db).blocks[d].storage == Tiered && old(db).blocks[d].cold) || Naming(old(db).chunks, d) == {})
      ensures error != Some(ValueError)
    {
      var rows := db.blocks;
      var positive := ApplyPositive(deltas, now);
      assert deltas.Keys - (deltas.Keys - positive) == positive;
      error := ApplyNegatives(old(db), deltas, positive, rows, now);
    }

    /** `replace_file_chunks`.  It fails on bad arguments and on rows that would break a foreign key; with
        exact counts it fails for no other reason, and otherwise the tables are the replaced tables. */
    method ReplaceChunks(file: InodeId, batch: map<int, Replacement>, from: Option<int>, now: int)
      returns (error: Option<DbError>)
      modifies this`db
      ensures error == Some(ValueError) <==>
        || (from.Some? && from.value < 0) || exists i :: i in batch && (i < 0 || (batch[i].Put? && batch[i].size <= 0))
      ensures error != Some(ValueError)
        && (exists i :: i in batch && batch[i].Put? && !(batch[i].digest in old(db).blocks && file in old(db).inodes))
        ==> error == Some(ForeignKey)
      ensures error.None? ==> db == ReplaceFileChunks(old(db), file, batch, from, now)
      ensures RefsExact(old(db)) ==> (error.None? <==> ValidBatch(batch, from) && KeysExist(old(db), file, batch))
      ensures error.None? ==> forall k :: k in db.chunks <==>
        if k.file == file && k.index in batch then batch[k.index].Put?
        else k in old(db).chunks && !(k.file == file && from.Some? && k.index >= from.value)
      ensures error.None? ==> forall k :: k in db.chunks ==>
        db.chunks[k] == if k.file == file && k.index in batch
          then ChunkRow(batch[k.index].digest, batch[k.index].size) else old(db).chunks[k]
      ensures RefsExact(old(db)) ==> error != Some(MissingBlock) && error != Some(NegativeRefcount)
      ensures RefsExact(old(db)) && error.None? ==> RefsExact(db)
    {
      if !ValidBatch(batch, from) {
        return Some(ValueError);
      }
      if !KeysExist(db, file, batch) {
        return Some(ForeignKey);
      }
      ghost var start := db;
      ReplacedExactly(db.chunks, file, batch, from);
      var oldRows := OldRows(db.chunks, file, batch, from);
      var deltas := Deltas(oldRows, NewRows(file, batch));
      ReplaceRows(file, batch, from);
      error := ApplyBlockRefcountDeltas(deltas, now);
      if RefsExact(start) {
        ReplaceKeepsRefsExact(start, file, batch, from, now);
      }
    }

    /** The three statements that delete a range, delete single rows and upsert. */
    method ReplaceRows(file: InodeId, batch: map<int, Replacement>, from: Option<int>)
      modifies this`db
      ensures db == old(db).(chunks := Replaced(old(db).chunks, file, batch, from))
    {
      var chunks := db.chunks;
      if from.Some? {
        chunks := map k | k in chunks && !(k.file == file && k.index >= from.value) :: chunks[k];
      }
      chunks := map k | k in chunks && !(k.file == file && k.index in batch && batch[k.index].Remove?) :: chunks[k];
      UpsertIsReplace(db.chunks, chunks, file, batch, from);
      db := db.(chunks := chunks + NewRows(file, batch));
    }
  }

  predicate InRange(k: Key, file: InodeId, from: Option<int>) {
    k.file == file && from.Some? && k.index >= from.value
  }

  predicate IsRemoved(k: Key, file: InodeId, batch: map<int, Replacement>) {
    k.file == file && k.index in batch && batch[k.index].Remove?
  }

  lemma ReplacedHas(chunks: Chunks, file: InodeId, batch: map<int, Replacement>, from: Option<int>, k: Key)
    ensures k in Replaced(chunks, file, batch, from) <==>
      k in NewRows(file, batch) || (k in chunks && !InRange(k, file, from) && !IsRemoved(k, file, batch))
  {
    assert k in PutKeys(file, batch) <==> k.file == file && k.index in batch && batch[k.index].Put?;
  }

  lemma ReplacedRow(chunks: Chunks, file: InodeId, batch: map<int, Replacement>, from: Option<int>, k: Key)
    requires k in Replaced(chunks, file, batch, from)
    ensures k in NewRows(file, batch) || k in chunks
    ensures Replaced(chunks, file, batch, from)[k] ==
      if k in NewRows(file, batch) then NewRows(file, batch)[k] else chunks[k]
  {
  }

  lemma UpsertIsReplace(chunks: Chunks, kept: Chunks, file: InodeId, batch: map<int, Replacement>, from: Option<int>)
    requires forall k :: k in kept <==> k in chunks && !InRange(k, file, from) && !IsRemoved(k, file, batch)
    requires forall k :: k in kept ==> kept[k] == chunks[k]
    ensures kept + NewRows(file, batch) == Replaced(chunks, file, batch, from)
  {
    var after, replaced := kept + NewRows(file, batch), Replaced(chunks, file, batch, from);
    forall k ensures k in after <==> k in replaced {
      ReplacedHas(chunks, file, batch, from, k);
    }
    forall k | k in after ensures after[k] == replaced[k] {
      ReplacedRow(chunks, file, batch, from, k);
    }
  }

  /** The chunk rows after the three statements, one key at a time. */
  lemma ReplacedExactly(chunks: Chunks, file: InodeId, batch: map<int, Replacement>, from: Option<int>)
    ensures forall k :: k in Replaced(chunks, file, batch, from) <==>
      if k.file == file && k.index in batch then batch[k.index].Put?
      else k in chunks && !(k.file == file && from.Some? && k.index >= from.value)
    ensures forall k :: k in Replaced(chunks, file, batch, from) ==>
      Replaced(chunks, file, batch, from)[k] == if k.file == file && k.index in batch
        then ChunkRow(batch[k.index].digest, batch[k.index].size) else chunks[k]
  {
    forall k: Key ensures k in PutKeys(file, batch) <==> k.file == file && k.index in batch && batch[k.index].Put? {
    }
  }
}
