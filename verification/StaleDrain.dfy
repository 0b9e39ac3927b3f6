/** A second drainer.  The transition system unlinks a file only while the queue still lists it, which is all that one
    drainer does.  Another one, working from a batch it read before, unlinks a file whose row is no longer queued and
    whose block may have been written again since. */
module StaleDrain {
  import opened Types
  import opened Schema
  import opened ChunkTable
  import opened Tiering
  import opened TieringSafety
  import opened Histories

  /** The late unlink of a row of a stale batch. */
  function LateUnlink(s: State, d: Digest): State {
    s.(disk := Unlink(s.disk, d, Hot))
  }

  /** Between transactions. */
  predicate Quiet(s: State) {
    s.db == s.committed && s.written == map[] && s.demotion == NotDemoting
  }

  /** The unlink takes the last copy of a block that has a row. */
  predicate TakesLastCopy(s: State, d: Digest) {
    d in s.db.blocks && s.db.blocks[d].storage == Tiered && (d, Cold) !in s.disk
  }

  lemma HarmlessKeepsInv(s: State, d: Digest)
    requires Inv(s) && Quiet(s) && !TakesLastCopy(s, d)
    ensures Inv(LateUnlink(s, d))
  {
    forall e | e in s.db.blocks ensures RowSafe(e, s.db.blocks[e], LateUnlink(s, d).disk, s.db.queue) {
      assert RowSafe(e, s.db.blocks[e], s.disk, s.db.queue);
    }
  }

  lemma ReferencedLost(s: State, d: Digest)
    requires Inv(s) && Quiet(s) && TakesLastCopy(s, d) && s.db.blocks[d].refcount > 0
    ensures !NoLoss(LateUnlink(s, d))
  {
    assert Naming(s.db.chunks, d) != {};
    var k :| k in Naming(s.db.chunks, d);
    assert !Recoverable(d, s.db.blocks[d], LateUnlink(s, d).disk);
  }

  /** A row nobody refers to yet is lost by the next reference. */
  lemma UnreferencedLost(s: State, d: Digest)
    requires Inv(s) && Quiet(s) && TakesLastCopy(s, d) && s.db.blocks[d].refcount == 0
    ensures !SafeForever(LateUnlink(s, d))
  {
    var t, k := LateUnlink(s, d), Key(0, 0);
    AdoptRuns(t, k, d);
    AdoptCounts(t.db, k, d);
    assert !Recoverable(d, Adopted(t, k, d).committed.blocks[d], t.disk);
    UnsafeAfter(t, [AdoptStep(k, d), Commit], Adopted(t, k, d));
  }

  /** The late unlink is safe for every continuation if and only if the block has no tiered row by then, or a cold
      file. */
  lemma LateUnlinkSafeExactly(s: State, d: Digest)
    requires Inv(s) && Quiet(s)
    ensures SafeForever(LateUnlink(s, d)) <==> !TakesLastCopy(s, d)
  {
    if !TakesLastCopy(s, d) {
      HarmlessKeepsInv(s, d);
      InvIsSafeForever(LateUnlink(s, d));
    } else if s.db.blocks[d].refcount > 0 {
      ReferencedLost(s, d);
      assert GuardedRun(LateUnlink(s, d), []) && Exec(LateUnlink(s, d), []) == LateUnlink(s, d);
    } else {
      UnreferencedLost(s, d);
    }
  }

  /** Both drainers read their batch here: a file was written and emptied, so its block is queued. */
  function BatchRead(k: Key, d: Digest, row: BlockRow): State {
    Next(Next(Stored(START, k, d, row), Replace(k.file, map[], Some(0), 0)), Commit)
  }

  /** One of them has finished, and the file is written again. */
  function WrittenAgain(k: Key, d: Digest, row: BlockRow): State {
    Stored(Next(Next(BatchRead(k, d, row), DrainUnlink(d, Hot)), DrainDequeue(d, Hot)), k, d, row)
  }

  lemma BatchReadRuns(k: Key, d: Digest, row: BlockRow)
    requires NewRow(d, row) && row.storage == Tiered && k.index >= 0
    ensures var s := BatchRead(k, d, row);
      && Reaches(START, s) && Inv(s) && Quiet(s) && d !in s.db.blocks && (d, Hot) in s.db.queue && (d, Cold) !in s.disk
  {
    FirstWrite(k, d, row);
    var s := Stored(START, k, d, row);
    StartIsSafe();
    ReachesKeepsInv(START, s);
    EmptiedRuns(START, s, k, d);
    var t := Next(s, Replace(k.file, map[], Some(0), 0));
    ReachesStep(START, t, Commit);
    ReachesKeepsInv(START, Next(t, Commit));
  }

  lemma DrainedRuns(s: State, d: Digest)
    requires Quiet(s) && (d, Hot) in s.db.queue
    ensures var t := Next(Next(s, DrainUnlink(d, Hot)), DrainDequeue(d, Hot));
      && Reaches(s, t) && Quiet(t) && t.db.blocks == s.db.blocks && (d, Hot) !in t.db.queue
      && (d, Hot) !in t.disk && ((d, Cold) in t.disk <==> (d, Cold) in s.disk)
  {
    ReachesSelf(s);
    ReachesStep(s, s, DrainUnlink(d, Hot));
    ReachesStep(s, Next(s, DrainUnlink(d, Hot)), DrainDequeue(d, Hot));
  }

  lemma StoredIsQuiet(t: State, k: Key, d: Digest, row: BlockRow)
    requires RefsExact(t.db) && d !in t.db.blocks && NewRow(d, row) && row.storage == Tiered && (d, Cold) !in t.disk
    ensures Quiet(Stored(t, k, d, row)) && TakesLastCopy(Stored(t, k, d, row), d)
  {
    StoredTables(t, k, d, row);
  }

  lemma NoFilesMatch(disk: Disk, d: Digest, payload: Payload)
    requires (d, Hot) !in disk && (d, Cold) !in disk
    ensures FilesMatch(disk, d, payload)
  {
    forall t ensures (d, t) !in disk {
      match t
      case Hot =>
      case Cold =>
    }
  }

  lemma StoredIsExposed(t: State, k: Key, d: Digest, row: BlockRow)
    requires Inv(t) && Quiet(t) && d !in t.db.blocks && NewRow(d, row) && row.storage == Tiered
    requires (d, Hot) !in t.disk && (d, Cold) !in t.disk && (d, Hot) !in t.db.queue
    ensures Reaches(t, Stored(t, k, d, row)) && !SafeForever(LateUnlink(Stored(t, k, d, row), d))
  {
    NoFilesMatch(t.disk, d, Encode(d.data, row.compressed));
    StoredRuns(t, k, d, row);
    StoredIsQuiet(t, k, d, row);
    ExposedThen(t, Stored(t, k, d, row), d);
  }

  lemma ExposedThen(t: State, s: State, d: Digest)
    requires Inv(t) && Reaches(t, s) && Quiet(s) && TakesLastCopy(s, d)
    ensures !SafeForever(LateUnlink(s, d))
  {
    ReachesKeepsInv(t, s);
    LateUnlinkSafeExactly(s, d);
  }

  /** The other drainer then takes the only copy of the new block. */
  lemma StaleBatchLoses(k: Key, d: Digest, row: BlockRow)
    requires NewRow(d, row) && row.storage == Tiered && k.index >= 0
    ensures (d, Hot) in BatchRead(k, d, row).committed.queue && Reaches(START, BatchRead(k, d, row))
    ensures Reaches(BatchRead(k, d, row), WrittenAgain(k, d, row))
      && !SafeForever(LateUnlink(WrittenAgain(k, d, row), d))
  {
    var s := BatchRead(k, d, row);
    BatchReadRuns(k, d, row);
    DrainedRuns(s, d);
    var t := Next(Next(s, DrainUnlink(d, Hot)), DrainDequeue(d, Hot));
    ReachesKeepsInv(s, t);
    StoredIsExposed(t, k, d, row);
    ReachesThen(s, t, WrittenAgain(k, d, row));
  }

  /** One byte in one file, by a run from the empty file system. */
  lemma StaleBatchLosesExample()
    ensures var read, again := BatchRead(Key(2, 0), BLOCK, FRESH_ROW), WrittenAgain(Key(2, 0), BLOCK, FRESH_ROW);
      && Reaches(START, read) && (BLOCK, Hot) in read.committed.queue
      && Reaches(read, again) && !SafeForever(LateUnlink(again, BLOCK))
  {
    StaleBatchLoses(Key(2, 0), BLOCK, FRESH_ROW);
  }
}
