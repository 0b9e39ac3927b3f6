/** Two states that runs from the empty file system leave behind and that fsck does not put right: in one the hot file
    it relies on is still queued for deletion, in the other its repair is refused while the cold tier is away. */
module FsckHazard {
  import opened Types
  import opened Schema
  import opened ChunkTable
  import opened TierRead
  import opened Tiering
  import opened TieringSafety
  import opened Histories
  import opened Presence
  import opened Fsck

  /** A demotion copies the block to the cold tier and the process dies. */
  function CopiedThenCrashed(s: State, d: Digest): State {
    Next(Next(s, DemoteCopy(d)), Crash)
  }

  lemma CrashRuns(from: State, s: State, d: Digest)
    requires Reaches(from, s) && s.demotion == NotDemoting && d in s.db.blocks && s.db.blocks[d].storage == Tiered
    requires s.db.blocks[d].hot
    ensures Reaches(from, CopiedThenCrashed(s, d))
  {
    ReachesStep(from, s, DemoteCopy(d));
    ReachesStep(from, Next(s, DemoteCopy(d)), Crash);
  }

  lemma CrashTables(s: State, d: Digest)
    requires s.committed == s.db && d in s.db.blocks && !s.db.blocks[d].cold && (d, Hot) in s.disk
    requires (d, Cold) !in s.disk
    ensures var t := CopiedThenCrashed(s, d);
      && t.db == s.db && t.demotion == NotDemoting && (d, Hot) in t.disk && (d, Cold) in t.disk
  {
  }

  /** Written, half demoted before a crash, emptied, written again. */
  function QueuedAgain(s: State, k: Key, d: Digest, row: BlockRow): State {
    Stored(Next(CopiedThenCrashed(Stored(s, k, d, row), d), Replace(k.file, map[], Some(0), 0)), k, d, row)
  }

  lemma FirstHalf(k: Key, d: Digest, row: BlockRow)
    requires NewRow(d, row) && row.storage == Tiered && k.index >= 0
    ensures var s := CopiedThenCrashed(Stored(START, k, d, row), d);
      && Reaches(START, s) && Inv(s) && s.demotion == NotDemoting && (d, Cold) in s.disk
      && d in s.db.blocks && s.db.blocks[d] == row.(refcount := 1) && k in s.db.chunks && s.db.chunks[k].digest == d
  {
    FirstWrite(k, d, row);
    var s := Stored(START, k, d, row);
    CrashRuns(START, s, d);
    CrashTables(s, d);
    StartIsSafe();
    ReachesKeepsInv(START, CopiedThenCrashed(s, d));
  }

  /** A guarded run from the empty file system ends in a state in which one repair pass leaves a presence bit untrue:
      the hot bit of a referenced block whose hot file the next drain removes. */
  lemma RepairFallsShort(k: Key, d: Digest, row: BlockRow)
    requires NewRow(d, row) && row.storage == Tiered && k.index >= 0
    ensures var t := QueuedAgain(START, k, d, row);
      && Reaches(START, t) && RefsExact(t.db) && TablesSafe(t.db, t.disk) && t.db == t.committed
      && !Strict(Repaired(Store(t.db, t.disk), {}))
      && d in t.db.blocks && t.db.blocks[d].refcount > 0 && (d, Hot) in t.db.queue
  {
    var s := CopiedThenCrashed(Stored(START, k, d, row), d);
    FirstHalf(k, d, row);
    EmptiedRuns(START, s, k, d);
    var u := Next(s, Replace(k.file, map[], Some(0), 0));
    assert RowSafe(d, s.db.blocks[d], s.disk, s.db.queue);
    StoredRuns(u, k, d, row);
    StoredTables(u, k, d, row);
    ReachesThen(START, u, Stored(u, k, d, row));
    StartIsSafe();
    ReachesKeepsInv(START, Stored(u, k, d, row));
    FsckRestoresBitsExactly(Store(Stored(u, k, d, row).db, Stored(u, k, d, row).disk));
  }

  /** One byte in one file is enough. */
  lemma RepairFallsShortExample()
    ensures var t := QueuedAgain(START, Key(2, 0), BLOCK, FRESH_ROW);
      Reaches(START, t) && TablesSafe(t.db, t.disk) && !Strict(Repaired(Store(t.db, t.disk), {}))
  {
    RepairFallsShort(Key(2, 0), BLOCK, FRESH_ROW);
  }

  // ----- the hot tier is away -----

  lemma HotAwayIssue(row: BlockRow, actual: nat, repair: bool)
    requires actual > 0 && row.storage == Tiered
    ensures MissingBlockFile in IssuesOf(row, actual, Unavailable, Missing, repair)
  {
    assert BodyIssues(row, actual, Unavailable, Missing, repair) == [MissingBlockFile];
  }

  /** A new block is reported missing while the hot tier cannot be reached, though its file is there. */
  lemma HotAwayReportedMissing(k: Key, d: Digest, row: BlockRow, repair: bool)
    requires NewRow(d, row) && row.storage == Tiered
    ensures var s := Stored(START, k, d, row);
      && Reaches(START, s) && (d, Hot) in s.disk && (d, Cold) !in s.disk && d in s.db.blocks
      && MissingBlockFile in IssuesOf(s.db.blocks[d], Actual(s.db.chunks, d), Unavailable, Missing, repair)
  {
    FirstWrite(k, d, row);
    var s := Stored(START, k, d, row);
    assert Actual(s.db.chunks, d) > 0 by { assert k in Naming(s.db.chunks, d); }
    HotAwayIssue(s.db.blocks[d], Actual(s.db.chunks, d), repair);
  }

  lemma HotAwayExample()
    ensures var s := Stored(START, Key(2, 0), BLOCK, FRESH_ROW);
      && Reaches(START, s) && (BLOCK, Hot) in s.disk && BLOCK in s.db.blocks
      && !HotClaimKept(Store(s.db, s.disk), {(BLOCK, Hot)}, true, BLOCK)
  {
    HotAwayReportedMissing(Key(2, 0), BLOCK, FRESH_ROW, true);
  }

  // ----- the cold tier goes away at the wrong moment -----

  /** A demotion copies the block to the cold tier and unlinks its hot file, and the process dies before the commit. */
  function MovedThenCrashed(s: State, d: Digest): State {
    Next(Next(Next(s, DemoteCopy(d)), DemoteUnlink(d)), Crash)
  }

  lemma MovedRuns(from: State, s: State, d: Digest)
    requires Reaches(from, s) && s.demotion == NotDemoting && d in s.db.blocks && s.db.blocks[d].storage == Tiered
    requires s.db.blocks[d].hot
    ensures Reaches(from, MovedThenCrashed(s, d))
  {
    ReachesStep(from, s, DemoteCopy(d));
    ReachesStep(from, Next(s, DemoteCopy(d)), DemoteUnlink(d));
    ReachesStep(from, Next(Next(s, DemoteCopy(d)), DemoteUnlink(d)), Crash);
  }

  lemma MovedTables(s: State, d: Digest)
    requires s.committed == s.db && d in s.db.blocks && !s.db.blocks[d].cold && (d, Hot) in s.disk
    requires (d, Cold) !in s.disk
    ensures var t := MovedThenCrashed(s, d);
      t.db == s.db && (d, Hot) !in t.disk && (d, Cold) in t.disk
  {
  }

  /** A referenced block with a row that claims the hot copy and files that are elsewhere. */
  lemma ElsewhereIsRefused(s: Store, k: Key, d: Digest)
    requires d in s.db.blocks && s.db.blocks[d].storage == Tiered && s.db.blocks[d].hot && !s.db.blocks[d].cold
    requires k in s.db.chunks && s.db.chunks[k].digest == d && (d, Hot) !in s.disk && (d, Cold) in s.disk
    ensures Fails(s, {(d, Cold)}, d) && !Fails(s, {}, d)
  {
    assert k in Naming(s.db.chunks, d);
  }

  lemma MovedIsSafe(k: Key, d: Digest, row: BlockRow)
    requires NewRow(d, row) && row.storage == Tiered && k.index >= 0
    ensures var t := MovedThenCrashed(Stored(START, k, d, row), d);
      && Reaches(START, t) && RefsExact(t.db) && TablesSafe(t.db, t.disk)
      && t.db == Stored(START, k, d, row).db && (d, Hot) !in t.disk && (d, Cold) in t.disk
  {
    FirstWrite(k, d, row);
    var s := Stored(START, k, d, row);
    MovedRuns(START, s, d);
    MovedTables(s, d);
    StartIsSafe();
    ReachesKeepsInv(START, MovedThenCrashed(s, d));
  }

  /** After that crash the only copy is on the cold tier while the row claims the hot one.  Should the cold tier be
      unreachable when fsck repairs, the repair is refused and the whole pass fails; with the tier back it succeeds. */
  lemma RepairRefusedWhileAway(k: Key, d: Digest, row: BlockRow)
    requires NewRow(d, row) && row.storage == Tiered && k.index >= 0
    ensures var t := MovedThenCrashed(Stored(START, k, d, row), d);
      && Reaches(START, t) && RefsExact(t.db) && TablesSafe(t.db, t.disk)
      && d in t.db.blocks && Fails(Store(t.db, t.disk), {(d, Cold)}, d) && !Fails(Store(t.db, t.disk), {}, d)
  {
    MovedIsSafe(k, d, row);
    FirstWrite(k, d, row);
    var t := MovedThenCrashed(Stored(START, k, d, row), d);
    ElsewhereIsRefused(Store(t.db, t.disk), k, d);
  }

  lemma RepairRefusedExample()
    ensures var t := MovedThenCrashed(Stored(START, Key(2, 0), BLOCK, FRESH_ROW), BLOCK);
      && Reaches(START, t) && TablesSafe(t.db, t.disk)
      && BLOCK in t.db.blocks && Fails(Store(t.db, t.disk), {(BLOCK, Cold)}, BLOCK)
  {
    RepairRefusedWhileAway(Key(2, 0), BLOCK, FRESH_ROW);
  }
}
