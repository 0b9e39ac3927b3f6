/** Where whole operations lose a block: after a crash, when the presence bits are not to be trusted, and without one,
    when an operation runs on the word of something that no longer holds. */
module PresenceHazard {
  import opened Types
  import opened Schema
  import opened ChunkTable
  import opened TierRead
  import opened Tiering
  import opened TieringSafety
  import opened Histories
  import opened Presence

  lemma DemotionCrashRuns(s: State, d: Digest)
    requires s.db == s.committed && s.demotion == NotDemoting
    requires d in s.db.blocks && s.db.blocks[d].storage == Tiered && s.db.blocks[d].hot && s.db.blocks[d].cold
    ensures GuardedRun(s, [DemoteCopy(d), DemoteUnlink(d), Crash])
    ensures Exec(s, [DemoteCopy(d), DemoteUnlink(d), Crash])
         == State(s.committed, s.db, Unlink(s.disk, d, Hot), map[], NotDemoting, {}, {})
  {
    UnlinkedRuns(s, d);
    RunOneMore(s, [DemoteCopy(d), DemoteUnlink(d)], Crash);
    assert [DemoteCopy(d), DemoteUnlink(d)] + [Crash] == [DemoteCopy(d), DemoteUnlink(d), Crash];
  }

  /** A crash inside the demotion of a promoted block loses nothing, but cleanup without fsck in between then
      loses the block. */
  lemma DemotionCrashThenCleanupLoses(s: State, d: Digest, cutoff: int)
    requires Inv(s) && s.db == s.committed && s.demotion == NotDemoting
    requires d in s.db.blocks && s.db.blocks[d].refcount > 0 && PromotedCandidate(s.db.blocks[d], cutoff)
    ensures var after := Exec(s, [DemoteCopy(d), DemoteUnlink(d), Crash]);
      var store := Store(after.db, after.disk);
      && GuardedRun(s, [DemoteCopy(d), DemoteUnlink(d), Crash]) && NoLoss(after)
      && CanDo(store, CleanPromoted(d, cutoff))
      && !Recoverable(d, Do(store, CleanPromoted(d, cutoff)).db.blocks[d], Do(store, CleanPromoted(d, cutoff)).disk)
  {
    DemotionCrashRuns(s, d);
    RunKeepsInv(s, [DemoteCopy(d), DemoteUnlink(d), Crash]);
    var after := Exec(s, [DemoteCopy(d), DemoteUnlink(d), Crash]);
    InvGivesReads(after);
    CleanPromotedKeepsCopyExactly(Store(after.db, after.disk), d, cutoff);
  }

  /** A crash inside cleanup, after the cold file went and before its row changed, then a demotion that trusts
      the cold bit: the block is lost. */
  lemma CleanupCrashThenDemotionLoses(s: Store, d: Digest, cutoff: int)
    requires Strict(s) && d in s.db.blocks && s.db.blocks[d].refcount > 0 && PromotedCandidate(s.db.blocks[d], cutoff)
    ensures var crashed := s.(disk := Unlink(s.disk, d, Cold));
      && Recoverable(d, crashed.db.blocks[d], crashed.disk)
      && CanDo(crashed, Demote(d))
      && !Recoverable(d, Do(crashed, Demote(d)).db.blocks[d], Do(crashed, Demote(d)).disk)
  {
    assert BitsTrue(d, s.db.blocks[d], s.disk, s.db.queue);
  }

  // ----- a copy-up that comes late -----

  /** A block that is referenced and cold only; a read of it schedules a copy-up. */
  predicate ColdOnly(s: Store, d: Digest) {
    && d in s.db.blocks && s.db.blocks[d].storage == Tiered && s.db.blocks[d].refcount > 0
    && !s.db.blocks[d].hot && s.db.blocks[d].cold
  }

  /** The operation can be done and leaves a referenced block without a copy. */
  ghost predicate LostBy(s: Store, op: Op, d: Digest) {
    && CanDo(s, op) && d in Do(s, op).db.blocks && Do(s, op).db.blocks[d].refcount > 0
    && !Recoverable(d, Do(s, op).db.blocks[d], Do(s, op).disk)
  }

  /** A referenced block whose only file is the hot one. */
  predicate HotOnlyOnDisk(s: Store, d: Digest) {
    && d in s.db.blocks && s.db.blocks[d].storage == Tiered && s.db.blocks[d].refcount > 0 && RowCheck(s.db.blocks[d])
    && (d, Hot) in s.disk && (d, Cold) !in s.disk
  }

  /** A write makes the block hot and cleanup drops the cold copy. */
  lemma MadeHotThenCleaned(s: Store, d: Digest, now: int)
    requires Strict(s) && ColdOnly(s, d)
    ensures CanDoAll(s, [ReuseBlock(d, now), CleanPromoted(d, now)])
    ensures HotOnlyOnDisk(DoAll(s, [ReuseBlock(d, now), CleanPromoted(d, now)]), d)
  {
    assert BitsTrue(d, s.db.blocks[d], s.disk, s.db.queue);
    TwoOps(s, ReuseBlock(d, now), CleanPromoted(d, now));
  }

  lemma CopiedUpThenLost(t: Store, d: Digest, now: int)
    requires HotOnlyOnDisk(t, d)
    ensures LostBy(CopyUp(t, d, now), Demote(d), d)
  {
  }

  /** Before the scheduled copy-up runs, a write makes the block hot and cleanup drops the cold copy.  The copy-up
      finds the hot file and claims both copies, and the next demotion trusts that claim: the block is lost without a
      crash. */
  lemma LateCopyUpLoses(s: Store, d: Digest, now: int)
    requires Strict(s) && ColdOnly(s, d)
    ensures CanDoAll(s, [ReuseBlock(d, now), CleanPromoted(d, now)])
    ensures LostBy(CopyUp(DoAll(s, [ReuseBlock(d, now), CleanPromoted(d, now)]), d, now), Demote(d), d)
  {
    MadeHotThenCleaned(s, d, now);
    CopiedUpThenLost(DoAll(s, [ReuseBlock(d, now), CleanPromoted(d, now)]), d, now);
  }

  const EMPTY_STORE := Store(EMPTY_DATABASE, map[])

  /** A file of one byte is written and its block demoted. */
  const DEMOTED_RUN := [NewBlock(BLOCK, FRESH_ROW), PutOp(Key(2, 0), BLOCK), Demote(BLOCK)]

  const WRITTEN_RUN := [NewBlock(BLOCK, FRESH_ROW), PutOp(Key(2, 0), BLOCK)]

  function PutOp(k: Key, d: Digest): Op {
    ReplaceChunks(k.file, map[k.index := Put(d, |d.data|)], None, 0)
  }

  /** A new block that a file refers to and that is then demoted is cold only. */
  lemma WrittenThenDemoted(s: Store, k: Key, d: Digest, row: BlockRow)
    requires Strict(s) && CanDo(s, NewBlock(d, row)) && OpGuard(s, NewBlock(d, row)) && row.storage == Tiered
    ensures CanDoAll(s, [NewBlock(d, row), PutOp(k, d), Demote(d)])
    ensures var t := DoAll(s, [NewBlock(d, row), PutOp(k, d), Demote(d)]);
      ColdOnly(t, d) && t.db.blocks[d].preferred == Some(Cold) && OnlyChunk(t.db, k, d)
  {
    var s1 := Do(s, NewBlock(d, row));
    OpKeepsStrict(s, NewBlock(d, row));
    PutRefers(s1, k, d);
    DemotedRow(Do(s1, PutOp(k, d)), d);
    ThreeOps(s, NewBlock(d, row), PutOp(k, d), Demote(d));
  }

  lemma PutRefers(s: Store, k: Key, d: Digest)
    requires RefsExact(s.db) && d in s.db.blocks && s.db.blocks[d].storage == Tiered && s.db.blocks[d].hot
    requires s.db.blocks[d].refcount == 0
    ensures CanDo(s, PutOp(k, d)) && OpGuard(s, PutOp(k, d))
    ensures var after := Do(s, PutOp(k, d)).db;
      && d in after.blocks && after.blocks[d] == s.db.blocks[d].(refcount := 1, coldGc := None)
      && k in after.chunks && after.chunks[k].digest == d && s.db.queue <= after.queue
  {
    assert Naming(s.db.chunks, d) == {};
    AdoptCounts(s.db, k, d);
    assert Do(s, PutOp(k, d)).db == AdoptedTables(s.db, k, d);
  }

  lemma DemotedRow(s: Store, d: Digest)
    requires d in s.db.blocks && s.db.blocks[d].storage == Tiered && s.db.blocks[d].hot && s.db.blocks[d].refcount > 0
    ensures CanDo(s, Demote(d)) && OpGuard(s, Demote(d)) && ColdOnly(Do(s, Demote(d)), d)
    ensures Do(s, Demote(d)).db.blocks[d].preferred == Some(Cold)
    ensures Do(s, Demote(d)).db.blocks[d].refcount == s.db.blocks[d].refcount
    ensures Do(s, Demote(d)).db.chunks == s.db.chunks
  {
  }

  /** One chunk refers to the block, and nothing else does. */
  predicate OnlyChunk(db: Database, k: Key, d: Digest) {
    d in db.blocks && db.blocks[d].refcount == 1 && k in db.chunks && db.chunks[k].digest == d
  }

  /** From the empty store: the one-byte file is written and demoted, read, written again, cleaned up; then the copy-up
      of that read runs and the block is demoted.  Its only chunk can no longer be read. */
  lemma LateCopyUpLosesExample()
    ensures CanDoAll(EMPTY_STORE, DEMOTED_RUN)
    ensures var s := DoAll(EMPTY_STORE, DEMOTED_RUN);
      && ColdOnly(s, BLOCK) && PreferredTier(s.db.blocks[BLOCK]) == Cold
      && CanDoAll(s, [ReuseBlock(BLOCK, 1), CleanPromoted(BLOCK, 1)])
      && LostBy(CopyUp(DoAll(s, [ReuseBlock(BLOCK, 1), CleanPromoted(BLOCK, 1)]), BLOCK, 1), Demote(BLOCK), BLOCK)
  {
    assert Strict(EMPTY_STORE);
    WrittenThenDemoted(EMPTY_STORE, Key(2, 0), BLOCK, FRESH_ROW);
    CrashFreeRuns(EMPTY_STORE, DEMOTED_RUN);
    LateCopyUpLoses(DoAll(EMPTY_STORE, DEMOTED_RUN), BLOCK, 1);
  }

  // ----- a repair that is recorded late -----

  /** What a read decides that planned with the row of `s` and came to the files after the block was demoted. */
  function DecidedAfterDemotion(s: Store, d: Digest): Result<Decision>
    requires d in s.db.blocks
  {
    var disk := Do(s, Demote(d)).disk;
    ReadTiered(s.db.blocks[d], ProbeDisk(disk, d, Hot), ProbeDisk(disk, d, Cold))
  }

  /** Before that read records its repair, a write makes the block hot and cleanup drops the cold copy.  The repair then
      claims the cold copy, the next write makes the block hot beside that claim, and demotion trusts it: the block is
      lost without a crash. */
  lemma LateRepairLoses(s: Store, d: Digest, now: int)
    requires Strict(s) && d in s.db.blocks && s.db.blocks[d].storage == Tiered && s.db.blocks[d].refcount > 0
    requires s.db.blocks[d].hot && !s.db.blocks[d].cold
    ensures DecidedAfterDemotion(s, d).Ok? && CanDoAll(s, [Demote(d), ReuseBlock(d, now), CleanPromoted(d, now)])
    ensures var recorded :=
      Do(DoAll(s, [Demote(d), ReuseBlock(d, now), CleanPromoted(d, now)]),
        Record(d, DecidedAfterDemotion(s, d).value.repair));
      CanDo(recorded, ReuseBlock(d, now)) && LostBy(Do(recorded, ReuseBlock(d, now)), Demote(d), d)
  {
    assert BitsTrue(d, s.db.blocks[d], s.disk, s.db.queue);
    DemotedThenMadeHot(s, d, now);
    var t := DoAll(s, [Demote(d), ReuseBlock(d, now), CleanPromoted(d, now)]);
    var repair := DecidedAfterDemotion(s, d).value.repair;
    assert repair == Repair(Some(false), Some(true), Some(Cold));
    RecordedThenLost(t, d, repair, now);
  }

  lemma DemotedThenMadeHot(s: Store, d: Digest, now: int)
    requires Strict(s) && d in s.db.blocks && s.db.blocks[d].storage == Tiered && s.db.blocks[d].refcount > 0
    requires s.db.blocks[d].hot && !s.db.blocks[d].cold
    ensures CanDoAll(s, [Demote(d), ReuseBlock(d, now), CleanPromoted(d, now)])
    ensures HotOnlyOnDisk(DoAll(s, [Demote(d), ReuseBlock(d, now), CleanPromoted(d, now)]), d)
  {
    OpKeepsStrict(s, Demote(d));
    DemotedRow(s, d);
    MadeHotThenCleaned(Do(s, Demote(d)), d, now);
    assert [Demote(d), ReuseBlock(d, now), CleanPromoted(d, now)][1..] == [ReuseBlock(d, now), CleanPromoted(d, now)];
  }

  lemma RecordedThenLost(t: Store, d: Digest, repair: Repair, now: int)
    requires HotOnlyOnDisk(t, d) && repair == Repair(Some(false), Some(true), Some(Cold))
    ensures var recorded := Do(t, Record(d, repair));
      CanDo(recorded, ReuseBlock(d, now)) && LostBy(Do(recorded, ReuseBlock(d, now)), Demote(d), d)
  {
  }

  /** The example block, written and not yet demoted, is enough. */
  lemma LateRepairLosesExample()
    ensures var s := DoAll(EMPTY_STORE, WRITTEN_RUN);
      && CanDoAll(EMPTY_STORE, WRITTEN_RUN) && BLOCK in s.db.blocks && DecidedAfterDemotion(s, BLOCK).Ok?
      && CanDoAll(s, [Demote(BLOCK), ReuseBlock(BLOCK, 0), CleanPromoted(BLOCK, 0)])
      && var t := DoAll(s, [Demote(BLOCK), ReuseBlock(BLOCK, 0), CleanPromoted(BLOCK, 0)]);
        LostBy(Do(Do(t, Record(BLOCK, DecidedAfterDemotion(s, BLOCK).value.repair)), ReuseBlock(BLOCK, 0)),
          Demote(BLOCK), BLOCK)
  {
    assert Strict(EMPTY_STORE);
    var s1 := Do(EMPTY_STORE, NewBlock(BLOCK, FRESH_ROW));
    OpKeepsStrict(EMPTY_STORE, NewBlock(BLOCK, FRESH_ROW));
    PutRefers(s1, Key(2, 0), BLOCK);
    TwoOps(EMPTY_STORE, NewBlock(BLOCK, FRESH_ROW), PutOp(Key(2, 0), BLOCK));
    OpKeepsStrict(s1, PutOp(Key(2, 0), BLOCK));
    LateRepairLoses(Do(s1, PutOp(Key(2, 0), BLOCK)), BLOCK, 0);
  }

  // ----- a block that is written again while its hot file is queued for deletion -----

  /** Nothing a guarded run does afterwards makes a chunk unreadable. */
  ghost predicate NeverLoses(s: Store) {
    forall ops, k :: CanDoAll(s, ops) && k in DoAll(s, ops).db.chunks ==> ChunkReads(DoAll(s, ops), k)
  }

  lemma StrictNeverLoses(s: Store)
    requires Strict(s)
    ensures NeverLoses(s)
  {
    forall ops, k | CanDoAll(s, ops) && k in DoAll(s, ops).db.chunks ensures ChunkReads(DoAll(s, ops), k) {
      CrashFreeRuns(s, ops);
    }
  }

  /** Garbage on the cold tier whose hot file the next drain removes: what removing a file of a promoted block leaves.
      */
  predicate QueuedGarbage(s: Store, d: Digest) {
    && d in s.db.blocks && s.db.blocks[d].storage == Tiered && s.db.blocks[d].refcount == 0
    && !s.db.blocks[d].hot && s.db.blocks[d].cold && (d, Hot) in s.db.queue
  }

  /** Under true bits a row that is not hot while its hot file is queued is such garbage. */
  lemma QueuedIsGarbage(s: Store, d: Digest)
    requires Strict(s) && d in s.db.blocks && s.db.blocks[d].storage == Tiered && !s.db.blocks[d].hot
    requires (d, Hot) in s.db.queue
    ensures QueuedGarbage(s, d) && Naming(s.db.chunks, d) == {}
  {
    assert BitsTrue(d, s.db.blocks[d], s.disk, s.db.queue);
  }

  lemma ReusedIsUnreferred(s: Store, d: Digest, now: int)
    requires QueuedGarbage(s, d) && Naming(s.db.chunks, d) == {} && RefsExact(s.db)
    ensures var u := Do(s, ReuseBlock(d, now));
      && d in u.db.blocks && u.db.blocks[d] == HotAgain(s.db.blocks[d], now) && u.db.queue == s.db.queue
      && u.db.chunks == s.db.chunks && RefsExact(u.db)
  {
  }

  /** A chunk refers to a row that claims both copies and was promoted lately, and the hot file is queued. */
  predicate Exposed(s: Store, k: Key, d: Digest, now: int) {
    && d in s.db.blocks && s.db.blocks[d].refcount > 0 && PromotedCandidate(s.db.blocks[d], now)
    && (d, Hot) in s.db.queue && k in s.db.chunks && s.db.chunks[k].digest == d
  }

  lemma ReusedThenExposed(s: Store, k: Key, d: Digest, now: int)
    requires Strict(s) && QueuedGarbage(s, d)
    ensures var u := Do(s, ReuseBlock(d, now));
      && CanDo(s, ReuseBlock(d, now)) && CanDo(u, PutOp(k, d)) && OpGuard(u, PutOp(k, d))
      && Exposed(Do(u, PutOp(k, d)), k, d, now)
  {
    QueuedIsGarbage(s, d);
    ReusedIsUnreferred(s, d, now);
    PutRefers(Do(s, ReuseBlock(d, now)), k, d);
  }

  /** The drain takes the hot file and the promoted pass the cold one. */
  lemma ExposedIsLost(v: Store, k: Key, d: Digest, now: int)
    requires Exposed(v, k, d, now)
    ensures CanDo(v, Drain(d)) && LostBy(Do(v, Drain(d)), CleanPromoted(d, now), d)
    ensures var t := Do(Do(v, Drain(d)), CleanPromoted(d, now));
      k in t.db.chunks && !ChunkReads(t, k)
  {
    NoFilesUnreadable(Do(Do(v, Drain(d)), CleanPromoted(d, now)), k);
  }

  /** The bytes of a deleted promoted block are written again before its hot file is drained.  Neither the write nor the
      insert of its chunk cancels the deletion; the drain takes the hot file, and the promoted pass of cleanup, which
      trusts the hot bit, takes the cold one.  One run of cleanup does both. */
  lemma QueuedReuseLoses(s: Store, k: Key, d: Digest, now: int)
    requires Strict(s) && QueuedGarbage(s, d)
    ensures CanDo(s, ReuseBlock(d, now)) && CanDoAll(Do(s, ReuseBlock(d, now)), [PutOp(k, d), Drain(d)])
    ensures LostBy(DoAll(Do(s, ReuseBlock(d, now)), [PutOp(k, d), Drain(d)]), CleanPromoted(d, now), d)
    ensures !NeverLoses(Do(s, ReuseBlock(d, now)))
  {
    ReusedThenExposed(s, k, d, now);
    ExposedLoses(Do(s, ReuseBlock(d, now)), k, d, now);
  }

  lemma ExposedLoses(u: Store, k: Key, d: Digest, now: int)
    requires CanDo(u, PutOp(k, d)) && OpGuard(u, PutOp(k, d)) && Exposed(Do(u, PutOp(k, d)), k, d, now)
    ensures CanDoAll(u, [PutOp(k, d), Drain(d)])
    ensures LostBy(DoAll(u, [PutOp(k, d), Drain(d)]), CleanPromoted(d, now), d) && !NeverLoses(u)
  {
    var v := Do(u, PutOp(k, d));
    ExposedIsLost(v, k, d, now);
    TwoOps(u, PutOp(k, d), Drain(d));
    ThreeLose(u, PutOp(k, d), Drain(d), CleanPromoted(d, now), k);
  }

  /** A chunk of a tiered block without files cannot be read. */
  lemma NoFilesUnreadable(t: Store, k: Key)
    requires k in t.db.chunks
    requires var d := t.db.chunks[k].digest;
      d in t.db.blocks ==> t.db.blocks[d].storage == Tiered && (d, Hot) !in t.disk && (d, Cold) !in t.disk
    ensures !ChunkReads(t, k)
  {
  }

  lemma UnreadableAfterOps(u: Store, ops: seq<Op>, k: Key)
    requires CanDoAll(u, ops) && k in DoAll(u, ops).db.chunks && !ChunkReads(DoAll(u, ops), k)
    ensures !NeverLoses(u)
  {
  }

  lemma ThreeLose(u: Store, a: Op, b: Op, c: Op, k: Key)
    requires CanDo(u, a) && OpGuard(u, a) && CanDo(Do(u, a), b) && OpGuard(Do(u, a), b)
    requires CanDo(Do(Do(u, a), b), c) && OpGuard(Do(Do(u, a), b), c)
    requires k in Do(Do(Do(u, a), b), c).db.chunks && !ChunkReads(Do(Do(Do(u, a), b), c), k)
    ensures !NeverLoses(u)
  {
    ThreeOps(u, a, b, c);
    UnreadableAfterOps(u, [a, b, c], k);
  }

  /** Reusing a block is safe for every guarded continuation, both cleanups included, if and only if the deletion of its
      hot file is not queued; the cold file that is there does not help. */
  lemma ReuseSafeExactly(s: Store, d: Digest, now: int)
    requires Strict(s) && CanDo(s, ReuseBlock(d, now))
    ensures NeverLoses(Do(s, ReuseBlock(d, now))) <==> (d, Hot) !in s.db.queue
  {
    if (d, Hot) !in s.db.queue {
      OpKeepsStrict(s, ReuseBlock(d, now));
      StrictNeverLoses(Do(s, ReuseBlock(d, now)));
    } else {
      QueuedIsGarbage(s, d);
      QueuedReuseLoses(s, Key(0, 0), d, now);
    }
  }

  // ----- the example block, promoted -----

  function RemoveOp(file: InodeId): Op {
    ReplaceChunks(file, map[], Some(0), 0)
  }

  /** The one-byte file is written, demoted and copied up again. */
  function PromotedStore(): Store {
    Do(Do(DoAll(EMPTY_STORE, DEMOTED_RUN), CopyToHot(BLOCK)), ClaimBoth(BLOCK, 1))
  }

  lemma PromotedByCopyUp(s: Store, k: Key, d: Digest, now: int)
    requires Strict(s) && ColdOnly(s, d) && OnlyChunk(s.db, k, d)
    ensures var t := Do(Do(s, CopyToHot(d)), ClaimBoth(d, now));
      && CanDoAll(s, [CopyToHot(d), ClaimBoth(d, now)]) && Strict(t)
      && OnlyChunk(t.db, k, d) && PromotedCandidate(t.db.blocks[d], now)
  {
    assert BitsTrue(d, s.db.blocks[d], s.disk, s.db.queue);
    OpKeepsStrict(s, CopyToHot(d));
    OpKeepsStrict(Do(s, CopyToHot(d)), ClaimBoth(d, now));
    TwoOps(s, CopyToHot(d), ClaimBoth(d, now));
  }

  lemma PromotedExample()
    ensures CanDoAll(EMPTY_STORE, DEMOTED_RUN)
    ensures CanDoAll(DoAll(EMPTY_STORE, DEMOTED_RUN), [CopyToHot(BLOCK), ClaimBoth(BLOCK, 1)])
    ensures var t := PromotedStore();
      Strict(t) && OnlyChunk(t.db, Key(2, 0), BLOCK) && PromotedCandidate(t.db.blocks[BLOCK], 1)
  {
    assert Strict(EMPTY_STORE);
    WrittenThenDemoted(EMPTY_STORE, Key(2, 0), BLOCK, FRESH_ROW);
    CrashFreeRuns(EMPTY_STORE, DEMOTED_RUN);
    PromotedByCopyUp(DoAll(EMPTY_STORE, DEMOTED_RUN), Key(2, 0), BLOCK, 1);
  }

  /** Removing the only file of a promoted block leaves garbage whose hot file is queued. */
  lemma EmptiedToGarbage(s: Store, k: Key, d: Digest)
    requires RefsExact(s.db) && OnlyChunk(s.db, k, d) && k.index >= 0
    requires s.db.blocks[d].storage == Tiered && s.db.blocks[d].hot && s.db.blocks[d].cold
    ensures QueuedGarbage(Do(s, RemoveOp(k.file)), d)
  {
    var before, result := OldRows(s.db.chunks, k.file, map[], Some(0)), NewRows(k.file, map[]);
    OnlyReference(s.db, k, d);
    assert result == map[] by { assert PutKeys(k.file, map[]) == {}; }
    DeltaIsDifference(before, result, d);
    assert Naming(result, d) == {};
  }

  /** From the empty store: the promoted file is removed and its byte written again, and cleanup loses it. */
  lemma QueuedReuseLosesExample()
    ensures var s := Do(PromotedStore(), RemoveOp(2));
      && CanDo(PromotedStore(), RemoveOp(2)) && Strict(s) && CanDo(s, ReuseBlock(BLOCK, 2))
      && var u := Do(s, ReuseBlock(BLOCK, 2));
        CanDoAll(u, [PutOp(Key(3, 0), BLOCK), Drain(BLOCK)])
        && LostBy(DoAll(u, [PutOp(Key(3, 0), BLOCK), Drain(BLOCK)]), CleanPromoted(BLOCK, 2), BLOCK)
  {
    PromotedExample();
    OpKeepsStrict(PromotedStore(), RemoveOp(2));
    EmptiedToGarbage(PromotedStore(), Key(2, 0), BLOCK);
    QueuedReuseLoses(Do(PromotedStore(), RemoveOp(2)), Key(3, 0), BLOCK, 2);
  }

  lemma CleanupCrashThenDemotionLosesExample()
    ensures var crashed := PromotedStore().(disk := Unlink(PromotedStore().disk, BLOCK, Cold));
      && Strict(PromotedStore()) && CanDo(PromotedStore(), CleanPromoted(BLOCK, 1))
      && LostBy(crashed, Demote(BLOCK), BLOCK)
  {
    PromotedExample();
    CleanupCrashThenDemotionLoses(PromotedStore(), BLOCK, 1);
  }

  // ----- the same block in the system with crashes -----

  /** A whole demotion and its commit. */
  function MovedToCold(s: State, d: Digest): State {
    Next(Next(Next(Next(s, DemoteCopy(d)), DemoteUnlink(d)), DemoteRow(d)), Commit)
  }

  /** A read of a cold block, its copy-up and the commit. */
  function CopiedUp(s: State, d: Digest, now: int): State {
    Next(Next(Next(Next(s, ScheduleCopyUp(d)), CopyUpFile(d)), CopyUpRow(d, now)), Commit)
  }

  lemma MovedToColdRuns(from: State, s: State, d: Digest)
    requires Reaches(from, s) && s.demotion == NotDemoting && d in s.db.blocks && s.db.blocks[d].storage == Tiered
    requires s.db.blocks[d].hot
    ensures Reaches(from, MovedToCold(s, d))
  {
    var s1 := Next(s, DemoteCopy(d));
    var s2 := Next(s1, DemoteUnlink(d));
    var s3 := Next(s2, DemoteRow(d));
    ReachesStep(from, s, DemoteCopy(d));
    ReachesStep(from, s1, DemoteUnlink(d));
    ReachesStep(from, s2, DemoteRow(d));
    ReachesStep(from, s3, Commit);
  }

  lemma MovedToColdTables(s: State, d: Digest)
    requires s.committed == s.db && s.demotion == NotDemoting && d in s.db.blocks && !s.db.blocks[d].cold
    ensures var t := MovedToCold(s, d);
      t.db == t.committed == SetRow(s.db, d, Demoted(s.db.blocks[d])) && t.demotion == NotDemoting
  {
  }

  lemma CopiedUpRuns(from: State, s: State, d: Digest, now: int)
    requires Reaches(from, s) && s.committed == s.db && s.demotion == NotDemoting && d in s.db.blocks
    requires s.db.blocks[d].storage == Tiered && PreferredTier(s.db.blocks[d]) == Cold
    ensures Reaches(from, CopiedUp(s, d, now))
    ensures var t := CopiedUp(s, d, now);
      t.db == t.committed == SetRow(s.db, d, Promoted(s.db.blocks[d], now)) && t.demotion == NotDemoting
  {
    var s1 := Next(s, ScheduleCopyUp(d));
    var s2 := Next(s1, CopyUpFile(d));
    var s3 := Next(s2, CopyUpRow(d, now));
    ReachesStep(from, s, ScheduleCopyUp(d));
    ReachesStep(from, s1, CopyUpFile(d));
    ReachesStep(from, s2, CopyUpRow(d, now));
    ReachesStep(from, s3, Commit);
  }

  function PromotedState(k: Key, d: Digest, row: BlockRow): State {
    CopiedUp(MovedToCold(Stored(START, k, d, row), d), d, 1)
  }

  lemma PromotedStateIs(k: Key, d: Digest, row: BlockRow)
    requires NewRow(d, row) && row.storage == Tiered
    ensures var s := PromotedState(k, d, row);
      && Reaches(START, s) && Inv(s) && s.db == s.committed && s.demotion == NotDemoting
      && d in s.db.blocks && s.db.blocks[d].refcount > 0 && PromotedCandidate(s.db.blocks[d], 1)
  {
    var s := Stored(START, k, d, row);
    FirstWrite(k, d, row);
    MovedToColdRuns(START, s, d);
    MovedToColdTables(s, d);
    CopiedUpRuns(START, MovedToCold(s, d), d, 1);
    StartIsSafe();
    ReachesKeepsInv(START, PromotedState(k, d, row));
  }

  /** From the empty file system: one byte is written, demoted and copied up, a second demotion crashes between its
      unlink and its commit, and cleanup takes the only copy that is left. */
  lemma DemotionCrashThenCleanupLosesExample()
    ensures var s := PromotedState(Key(2, 0), BLOCK, FRESH_ROW);
      var after := Exec(s, [DemoteCopy(BLOCK), DemoteUnlink(BLOCK), Crash]);
      && Reaches(START, s) && GuardedRun(s, [DemoteCopy(BLOCK), DemoteUnlink(BLOCK), Crash]) && NoLoss(after)
      && LostBy(Store(after.db, after.disk), CleanPromoted(BLOCK, 1), BLOCK)
  {
    var s := PromotedState(Key(2, 0), BLOCK, FRESH_ROW);
    PromotedStateIs(Key(2, 0), BLOCK, FRESH_ROW);
    DemotionCrashThenCleanupLoses(s, BLOCK, 1);
    DemotionCrashRuns(s, BLOCK);
  }
}
