/** Pieces of histories: a block stored under a chunk and committed, and a file emptied again. */
module Histories {
  import opened Types
  import opened Schema
  import opened ChunkTable
  import opened Tiering
  import opened TieringSafety
  import opened TruncateHazard

  /** A block is written as new, a chunk refers to it, and the transaction commits. */
  function Stored(s: State, k: Key, d: Digest, row: BlockRow): State {
    Adopted(Reinserted(s, d, row), k, d)
  }

  lemma StoredRuns(s: State, k: Key, d: Digest, row: BlockRow)
    requires Inv(s) && s.demotion == NotDemoting && d !in s.db.blocks && NewRow(d, row) && row.storage == Tiered
    requires FilesMatch(s.disk, d, Encode(d.data, row.compressed)) && ((d, Hot) !in s.db.queue || (d, Cold) in s.disk)
    ensures Reaches(s, Stored(s, k, d, row))
  {
    var write, insert := WriteFile(d, Encode(d.data, row.compressed)), InsertBlock(d, row);
    ReachesSelf(s);
    ReinsertRuns(s, d, row);
    ReachesStep(s, s, write);
    ReachesStep(s, Next(s, write), insert);
    AdoptIsEnabled(Reinserted(s, d, row), k, d);
    ReachesStep(s, Reinserted(s, d, row), AdoptStep(k, d));
    var t := Next(Reinserted(s, d, row), AdoptStep(k, d));
    CommitIsEnabled(t);
    ReachesStep(s, t, Commit);
  }

  lemma StoredTables(s: State, k: Key, d: Digest, row: BlockRow)
    requires RefsExact(s.db) && d !in s.db.blocks && NewRow(d, row)
    ensures var t := Stored(s, k, d, row);
      && t.committed == t.db && t.demotion == NotDemoting && s.db.queue <= t.db.queue
      && d in t.db.blocks && t.db.blocks[d] == row.(refcount := 1) && k in t.db.chunks && t.db.chunks[k].digest == d
      && t.disk == WriteAtomic(s.disk, d, Hot, Encode(d.data, row.compressed))
  {
    assert Naming(s.db.chunks, d) == {};
    AdoptCounts(Reinserted(s, d, row).db, k, d);
  }

  lemma OnlyReference(db: Database, k: Key, d: Digest)
    requires RefsExact(db) && d in db.blocks && db.blocks[d].refcount == 1 && k in db.chunks && db.chunks[k].digest == d
    requires k.index >= 0
    ensures RemovedRefs(db, k.file, 0, d) == 1
  {
    assert k in Naming(db.chunks, d);
    assert |Naming(db.chunks, d) - {k}| == 0;
    assert Naming(db.chunks, d) == {k};
    assert Naming(OldRows(db.chunks, k.file, map[], Some(0)), d) == {k};
  }

  /** The file of the block is emptied: its row goes and its hot file is queued. */
  lemma EmptiedRuns(from: State, s: State, k: Key, d: Digest)
    requires Inv(s) && Reaches(from, s) && d in s.db.blocks && s.db.blocks[d].storage == Tiered && !s.db.blocks[d].cold
    requires s.db.blocks[d].refcount == 1 && k in s.db.chunks && s.db.chunks[k].digest == d && k.index >= 0
    ensures var t := Next(s, Replace(k.file, map[], Some(0), 0));
      && Reaches(from, t) && Inv(t) && d !in t.db.blocks && (d, Hot) in t.db.queue && t.disk == s.disk
      && t.demotion == s.demotion
  {
    OnlyReference(s.db, k, d);
    RemovalQueuesExactly(s, k.file, 0, d, 0);
    StepKeepsInv(s, Replace(k.file, map[], Some(0), 0));
    ReachesStep(from, s, Replace(k.file, map[], Some(0), 0));
  }

  lemma FirstWrite(k: Key, d: Digest, row: BlockRow)
    requires NewRow(d, row) && row.storage == Tiered
    ensures var s := Stored(START, k, d, row);
      && Reaches(START, s) && s.demotion == NotDemoting && s.committed == s.db && (d, Hot) in s.disk
      && (d, Cold) !in s.disk
      && d in s.db.blocks && s.db.blocks[d] == row.(refcount := 1) && k in s.db.chunks && s.db.chunks[k].digest == d
  {
    StartIsSafe();
    StoredRuns(START, k, d, row);
    StoredTables(START, k, d, row);
  }

  lemma StartIsSafe()
    ensures Inv(START)
  {
    assert forall d :: Naming(EMPTY_DATABASE.chunks, d) == {};
  }
}
