/** Truncation removes chunks first and stores the shortened boundary chunk second, in one transaction.  When the
    remaining bytes equal a removed block, its row is deleted, its hot file queued, and the same digest inserted
    again over the file about to go. */
module TruncateHazard {
  import opened Types
  import opened Schema
  import opened ChunkTable
  import opened Tiering
  import opened TieringSafety

  /** References to a block that truncating the file from chunk `first` on removes. */
  function RemovedRefs(db: Database, file: InodeId, first: int, d: Digest): nat {
    |Naming(OldRows(db.chunks, file, map[], Some(first)), d)|
  }

  /** The removed chunks hold the only references to a tiered block with no cold copy. */
  ghost predicate Hazard(db: Database, file: InodeId, first: int, d: Digest) {
    && d in db.blocks && db.blocks[d].storage == Tiered && !db.blocks[d].cold
    && db.blocks[d].refcount == RemovedRefs(db, file, first, d) > 0
  }

  /** Removing chunks deletes the row and queues the hot file of a referenced hot-only block exactly when the
      removed chunks were all that referred to it. */
  lemma RemovalQueuesExactly(s: State, file: InodeId, first: int, d: Digest, now: int)
    requires Inv(s) && d in s.db.blocks && s.db.blocks[d].storage == Tiered && !s.db.blocks[d].cold
    requires s.db.blocks[d].refcount > 0
    ensures var after := ReplaceFileChunks(s.db, file, map[], Some(first), now);
      (d !in after.blocks && (d, Hot) in after.queue) <==> Hazard(s.db, file, first, d)
    ensures var after := ReplaceFileChunks(s.db, file, map[], Some(first), now);
      d in after.blocks <==> !Hazard(s.db, file, first, d)
  {
    assert RowSafe(d, s.db.blocks[d], s.disk, s.db.queue);
    RemovalDelta(s.db, file, first, d);
    GoneExactly(s.db.(chunks := Replaced(s.db.chunks, file, map[], Some(first))),
      Deltas(OldRows(s.db.chunks, file, map[], Some(first)), NewRows(file, map[])), d, now);
  }

  /** Removing chunks takes exactly their references from a block, and no more than it has. */
  lemma RemovalDelta(db: Database, file: InodeId, first: int, d: Digest)
    requires RefsExact(db) && d in db.blocks
    ensures RemovedRefs(db, file, first, d) <= db.blocks[d].refcount
    ensures var deltas := Deltas(OldRows(db.chunks, file, map[], Some(first)), NewRows(file, map[]));
      DeltaOf(deltas, d) + RemovedRefs(db, file, first, d) == 0
  {
    var before, result := OldRows(db.chunks, file, map[], Some(first)), NewRows(file, map[]);
    assert result == map[] by { assert PutKeys(file, map[]) == {}; }
    assert Naming(result, d) == {};
    DeltaIsDifference(before, result, d);
    FewerNamings(before, db.chunks, d);
  }

  lemma FewerNamings(some: Chunks, all: Chunks, d: Digest)
    requires forall k :: k in some ==> k in all && all[k] == some[k]
    ensures |Naming(some, d)| <= |Naming(all, d)|
  {
    assert Naming(all, d) == Naming(some, d) + (Naming(all, d) - Naming(some, d));
  }

  /** A hot-only row goes, and its hot file is queued, exactly when the deltas take all its references. */
  lemma GoneExactly(db: Database, deltas: map<Digest, int>, d: Digest, now: int)
    requires d in db.blocks && RowCheck(db.blocks[d]) && db.blocks[d].storage == Tiered && !db.blocks[d].cold
    requires db.blocks[d].refcount > 0 && db.blocks[d].refcount + DeltaOf(deltas, d) >= 0 && DeltaOf(deltas, d) <= 0
    ensures d in Applied(db, deltas, now).blocks <==> db.blocks[d].refcount + DeltaOf(deltas, d) > 0
    ensures d !in Applied(db, deltas, now).blocks ==> (d, Hot) in Applied(db, deltas, now).queue
  {
  }

  /** What truncation does to block tables and files when the kept bytes need a new tiered block. */
  function TruncateSteps(k: Key, first: int, row: BlockRow, d: Digest): seq<Step> {
    [Replace(k.file, map[], Some(first), 0), WriteFile(d, Encode(d.data, row.compressed)), InsertBlock(d, row)]
  }

  /** Every step is one the code can take, whether or not its guard holds. */
  ghost predicate CanRun(s: State, steps: seq<Step>)
    decreases |steps|
  {
    steps == [] || (Enabled(s, steps[0]) && CanRun(Next(s, steps[0]), steps[1..]))
  }

  lemma ThreeSteps(s: State, a: Step, b: Step, c: Step)
    ensures Exec(s, [a, b, c]) == Next(Next(Next(s, a), b), c)
    ensures CanRun(s, [a, b, c]) <==> Enabled(s, a) && Enabled(Next(s, a), b) && Enabled(Next(Next(s, a), b), c)
  {
    assert [a, b, c][1..] == [b, c] && [b, c][1..] == [c] && [c][1..] == [];
    RunOne(Next(Next(s, a), b), c);
    assert CanRun(Next(Next(Next(s, a), b), c), []);
    assert CanRun(Next(Next(s, a), b), [c]) <==> Enabled(Next(Next(s, a), b), c);
  }

  function Reinserted(s: State, d: Digest, row: BlockRow): State {
    var payload := Encode(d.data, row.compressed);
    s.(disk := WriteAtomic(s.disk, d, Hot, payload), written := s.written[d := payload],
       db := s.db.(blocks := s.db.blocks[d := row]))
  }

  lemma ReinsertRuns(s: State, d: Digest, row: BlockRow)
    requires d !in s.db.blocks && NewRow(d, row) && row.storage == Tiered && s.demotion == NotDemoting
    ensures var write, insert := WriteFile(d, Encode(d.data, row.compressed)), InsertBlock(d, row);
      Enabled(s, write) && Enabled(Next(s, write), insert) && Next(Next(s, write), insert) == Reinserted(s, d, row)
  {
  }

  /** Truncating to bytes whose block only the removed chunks referred to loses the block at the next drain. */
  lemma TruncateLoses(s: State, k: Key, first: int, row: BlockRow, d: Digest)
    requires Inv(s) && s.demotion == NotDemoting && Hazard(s.db, k.file, first, d) && (d, Cold) !in s.disk
    requires NewRow(d, row) && row.storage == Tiered
    ensures CanRun(s, TruncateSteps(k, first, row, d))
    ensures var t := Exec(s, TruncateSteps(k, first, row, d));
      var rest := [AdoptStep(k, d), Commit, DrainUnlink(d, Hot)];
      GuardedRun(t, rest) && !NoLoss(Exec(t, rest))
  {
    var replace := Replace(k.file, map[], Some(first), 0);
    RemovalQueuesExactly(s, k.file, first, d, 0);
    ThreeSteps(s, replace, WriteFile(d, Encode(d.data, row.compressed)), InsertBlock(d, row));
    var removed := s.(db := ReplaceFileChunks(s.db, k.file, map[], Some(first), 0));
    assert Enabled(s, replace) && Next(s, replace) == removed;
    ReinsertRuns(removed, d, row);
    assert Naming(removed.db.chunks, d) == {} by { ReplaceKeepsRefsExact(s.db, k.file, map[], Some(first), 0); }
    QueuedInsertLoses(Reinserted(removed, d, row), k, d);
  }

  /** Without a cold copy, the block of the kept bytes is queued after the removal exactly when it was before, or the
      removed chunks were all that referred to it. */
  lemma QueuedAfterRemoval(s: State, file: InodeId, first: int, d: Digest, now: int)
    requires Inv(s) && (d, Cold) !in s.disk && d !in ReplaceFileChunks(s.db, file, map[], Some(first), now).blocks
    ensures (d, Hot) in ReplaceFileChunks(s.db, file, map[], Some(first), now).queue <==>
      (d, Hot) in s.db.queue || Hazard(s.db, file, first, d)
  {
    if d in s.db.blocks {
      assert RowSafe(d, s.db.blocks[d], s.disk, s.db.queue);
      if s.db.blocks[d].storage == Tiered {
        GoneWasReferred(s, file, first, d, now);
        RemovalQueuesExactly(s, file, first, d, now);
      }
    }
  }

  /** Removal takes away the row of a tiered block only if it had references. */
  lemma GoneWasReferred(s: State, file: InodeId, first: int, d: Digest, now: int)
    requires RefsExact(s.db) && d in s.db.blocks && d !in ReplaceFileChunks(s.db, file, map[], Some(first), now).blocks
    ensures s.db.blocks[d].refcount > 0
  {
    var removed, added := OldRows(s.db.chunks, file, map[], Some(first)), NewRows(file, map[]);
    DeltaIsDifference(removed, added, d);
    assert Naming(added, d) == {} by { assert PutKeys(file, map[]) == {}; }
    assert Naming(removed, d) <= Naming(s.db.chunks, d);
  }

  /** The state after a truncation stored its boundary chunk as a new tiered block. */
  function Truncated(s: State, file: InodeId, first: int, row: BlockRow, d: Digest, now: int): State {
    Next(Next(Next(s, Replace(file, map[], Some(first), now)), WriteFile(d, Encode(d.data, row.compressed))),
      InsertBlock(d, row))
  }

  /** Truncation is safe in every continuation exactly when the deletion of the boundary block's hot file was not
      queued before and the removed chunks were not all that referred to that block, or a cold copy exists. */
  lemma TruncateSafeExactly(s: State, file: InodeId, first: int, row: BlockRow, d: Digest, now: int)
    requires Inv(s) && s.demotion == NotDemoting && NewRow(d, row) && row.storage == Tiered
    requires FilesMatch(s.disk, d, Encode(d.data, row.compressed))
    requires d !in ReplaceFileChunks(s.db, file, map[], Some(first), now).blocks
    ensures SafeForever(Truncated(s, file, first, row, d, now))
       <==> ((d, Hot) !in s.db.queue && !Hazard(s.db, file, first, d)) || (d, Cold) in s.disk
  {
    TableStep(s, Replace(file, map[], Some(first), now));
    StoreSafeExactly(Next(s, Replace(file, map[], Some(first), now)), d, row);
    if (d, Cold) !in s.disk {
      QueuedAfterRemoval(s, file, first, d, now);
    }
  }

  /** Writing and inserting a block that has no row. */
  lemma StoreSafeExactly(s: State, d: Digest, row: BlockRow)
    requires Inv(s) && s.demotion == NotDemoting && d !in s.db.blocks && NewRow(d, row) && row.storage == Tiered
    requires FilesMatch(s.disk, d, Encode(d.data, row.compressed))
    ensures SafeForever(Next(Next(s, WriteFile(d, Encode(d.data, row.compressed))), InsertBlock(d, row)))
       <==> (d, Hot) !in s.db.queue || (d, Cold) in s.disk
  {
    WriteFileStep(s, d, Encode(d.data, row.compressed));
    InsertSafeExactly(Next(s, WriteFile(d, Encode(d.data, row.compressed))), d, row);
  }

  // ----- a concrete file -----

  const WHOLE := Digest([7, 8])
  const TAIL := Digest([7])

  function HotRow(d: Digest, refcount: int): BlockRow {
    BlockRow(Tiered, false, |d.data|, |d.data|, refcount, true, false, Some(Hot), None, None, None)
  }

  /** One file, chunk size two, holding the bytes 7 8 7. */
  const EXAMPLE_TABLES := Database(
    map[1 := Inode(Dir, 0, 1), 2 := Inode(File, 3, 1)],
    map[(1, "f") := 2],
    map[Key(2, 0) := ChunkRow(WHOLE, 2), Key(2, 1) := ChunkRow(TAIL, 1)],
    map[WHOLE := HotRow(WHOLE, 1), TAIL := HotRow(TAIL, 1)],
    {})

  const EXAMPLE := State(EXAMPLE_TABLES, EXAMPLE_TABLES,
    map[(WHOLE, Hot) := Plain([7, 8]), (TAIL, Hot) := Plain([7])], map[], NotDemoting, {}, {})

  lemma ExampleCounts()
    ensures RefsExact(EXAMPLE_TABLES)
  {
    assert Naming(EXAMPLE_TABLES.chunks, WHOLE) == {Key(2, 0)};
    assert Naming(EXAMPLE_TABLES.chunks, TAIL) == {Key(2, 1)};
  }

  lemma ExampleFiles()
    ensures TablesSafe(EXAMPLE_TABLES, EXAMPLE.disk)
  {
    assert RowSafe(WHOLE, HotRow(WHOLE, 1), EXAMPLE.disk, {});
    assert RowSafe(TAIL, HotRow(TAIL, 1), EXAMPLE.disk, {});
  }

  lemma ExampleIsHealthy()
    ensures Inv(EXAMPLE)
  {
    ExampleCounts();
    ExampleFiles();
  }

  lemma ExampleHazard()
    ensures Hazard(EXAMPLE_TABLES, 2, 1, TAIL)
  {
    assert Naming(OldRows(EXAMPLE_TABLES.chunks, 2, map[], Some(1)), TAIL) == {Key(2, 1)};
  }

  /** The state is as healthy as any reachable one, yet truncating the file to one byte loses that byte. */
  lemma TruncateLosesExample()
    ensures Inv(EXAMPLE)
    ensures CanRun(EXAMPLE, TruncateSteps(Key(2, 0), 1, HotRow(TAIL, 0), TAIL))
    ensures !NoLoss(Exec(Exec(EXAMPLE, TruncateSteps(Key(2, 0), 1, HotRow(TAIL, 0), TAIL)),
                         [AdoptStep(Key(2, 0), TAIL), Commit, DrainUnlink(TAIL, Hot)]))
  {
    ExampleIsHealthy();
    ExampleHazard();
    TruncateLoses(EXAMPLE, Key(2, 0), 1, HotRow(TAIL, 0), TAIL);
  }
}
