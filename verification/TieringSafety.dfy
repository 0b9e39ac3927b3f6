/** The main result about commits, crashes and delayed deletion: guarded runs lose nothing, and without the
    guards some continuation does. */
module TieringSafety {
  import opened Types
  import opened Schema
  import opened ChunkTable
  import opened TierRead
  import opened Tiering

  lemma AddFile(db: Database, disk: Disk, d: Digest, t: Tier, payload: Payload)
    requires TablesSafe(db, disk) && FilesMatch(disk, d, payload) && (d, t) !in disk
    ensures TablesSafe(db, disk[(d, t) := payload])
  {
    var after := disk[(d, t) := payload];
    forall e | e in db.blocks ensures RowSafe(e, db.blocks[e], after, db.queue) {
      assert RowSafe(e, db.blocks[e], disk, db.queue);
    }
  }

  /** A hot file may go when a cold one stays or when its deletion was queued. */
  lemma RemoveHot(db: Database, disk: Disk, d: Digest)
    requires TablesSafe(db, disk)
    requires (d, Cold) in disk || (d, Hot) in db.queue
    ensures TablesSafe(db, Unlink(disk, d, Hot))
  {
    forall e | e in db.blocks ensures RowSafe(e, db.blocks[e], Unlink(disk, d, Hot), db.queue) {
      assert RowSafe(e, db.blocks[e], disk, db.queue);
    }
  }

  lemma ChangeRow(db: Database, disk: Disk, d: Digest, row: BlockRow)
    requires TablesSafe(db, disk) && RefsExact(db) && d in db.blocks
    requires RowSafe(d, row, disk, db.queue) && row.refcount == db.blocks[d].refcount
    ensures TablesSafe(SetRow(db, d, row), disk) && RefsExact(SetRow(db, d, row))
  {
  }

  lemma AppliedRowSafe(d: Digest, row: BlockRow, delta: int, now: int, disk: Disk, queue: set<(Digest, Tier)>)
    requires RowSafe(d, row, disk, queue)
    requires AppliedRow(row, delta, now).Some?
    ensures RowSafe(d, AppliedRow(row, delta, now).value, disk, if Enqueues(row, delta) then queue + {(d, Hot)}
      else queue)
  {
  }

  lemma AppliedSafe(db: Database, deltas: map<Digest, int>, now: int, disk: Disk)
    requires TablesSafe(db, disk)
    ensures TablesSafe(Applied(db, deltas, now), disk)
    ensures db.queue <= Applied(db, deltas, now).queue
    ensures forall item :: item in Applied(db, deltas, now).queue - db.queue ==> item.1 == Hot
  {
    var after := Applied(db, deltas, now);
    forall d | d in after.blocks ensures RowSafe(d, after.blocks[d], disk, after.queue) {
      assert RowSafe(d, db.blocks[d], disk, db.queue);
      if d in deltas {
        AppliedRowSafe(d, db.blocks[d], deltas[d], now, disk, db.queue);
      }
    }
  }

  lemma ReplaceSafe(db: Database, disk: Disk, file: InodeId, batch: map<int, Replacement>, from: Option<int>, now: int)
    requires TablesSafe(db, disk) && RefsExact(db)
    requires forall i :: i in batch && batch[i].Put? ==> batch[i].digest in db.blocks
    ensures var after := ReplaceFileChunks(db, file, batch, from, now);
      && RefsExact(after) && TablesSafe(after, disk)
      && db.queue <= after.queue && (forall item :: item in after.queue - db.queue ==> item.1 == Hot)
  {
    ReplaceKeepsRefsExact(db, file, batch, from, now);
    var replaced := db.(chunks := Replaced(db.chunks, file, batch, from));
    assert TablesSafe(replaced, disk);
    AppliedSafe(replaced, Deltas(OldRows(db.chunks, file, batch, from), NewRows(file, batch)), now, disk);
  }

  lemma CloneSafe(db: Database, disk: Disk, source: InodeId, target: InodeId)
    requires TablesSafe(db, disk) && RefsExact(db)
    requires forall k :: k in db.chunks ==> k.file != target
    ensures RefsExact(CloneChunks(db, source, target)) && TablesSafe(CloneChunks(db, source, target), disk)
  {
    CloneKeepsRefsExact(db, source, target);
    var after := CloneChunks(db, source, target);
    forall d | d in after.blocks ensures RowSafe(d, after.blocks[d], disk, after.queue) {
      assert RowSafe(d, db.blocks[d], disk, db.queue);
      assert after.blocks[d].refcount == |Naming(after.chunks, d)|;
    }
  }

  lemma WriteFileStep(s: State, d: Digest, payload: Payload)
    requires Inv(s) && Enabled(s, WriteFile(d, payload)) && Guard(s, WriteFile(d, payload))
    ensures Inv(Next(s, WriteFile(d, payload)))
  {
    if (d, Hot) !in s.disk {
      AddFile(s.committed, s.disk, d, Hot, payload);
      AddFile(s.db, s.disk, d, Hot, payload);
    }
  }

  lemma InsertBlockStep(s: State, d: Digest, row: BlockRow)
    requires Inv(s) && Enabled(s, InsertBlock(d, row)) && Guard(s, InsertBlock(d, row))
    ensures Inv(Next(s, InsertBlock(d, row)))
  {
    assert RowSafe(d, row, s.disk, s.db.queue);
    InsertedRefs(s.db, d, row);
    InsertedSafe(s.db, s.disk, d, row);
  }

  lemma InsertedRefs(db: Database, d: Digest, row: BlockRow)
    requires RefsExact(db) && d !in db.blocks && row.refcount == 0
    ensures RefsExact(db.(blocks := db.blocks[d := row]))
  {
    assert Naming(db.chunks, d) == {};
  }

  lemma InsertedSafe(db: Database, disk: Disk, d: Digest, row: BlockRow)
    requires TablesSafe(db, disk) && RowSafe(d, row, disk, db.queue)
    ensures TablesSafe(db.(blocks := db.blocks[d := row]), disk)
  {
  }

  lemma MakeHotStep(s: State, d: Digest, now: int)
    requires Inv(s) && Enabled(s, MakeHot(d, now))
    ensures Inv(Next(s, MakeHot(d, now)))
  {
    ChangeRow(s.db, s.disk, d, HotAgain(s.db.blocks[d], now));
  }

  lemma DemoteCopyStep(s: State, d: Digest)
    requires Inv(s) && Enabled(s, DemoteCopy(d))
    ensures Inv(Next(s, DemoteCopy(d)))
  {
    assert RowSafe(d, s.db.blocks[d], s.disk, s.db.queue);
    if (d, Cold) !in s.disk {
      AddFile(s.committed, s.disk, d, Cold, s.disk[(d, Hot)]);
      AddFile(s.db, s.disk, d, Cold, s.disk[(d, Hot)]);
    }
  }

  lemma DemoteUnlinkStep(s: State, d: Digest)
    requires Inv(s) && Enabled(s, DemoteUnlink(d))
    ensures Inv(Next(s, DemoteUnlink(d)))
  {
    RemoveHot(s.committed, s.disk, d);
    RemoveHot(s.db, s.disk, d);
  }

  lemma DemoteRowStep(s: State, d: Digest)
    requires Inv(s) && Enabled(s, DemoteRow(d))
    ensures Inv(Next(s, DemoteRow(d)))
  {
    if d in s.db.blocks {
      assert RowSafe(d, s.db.blocks[d], s.disk, s.db.queue);
      ChangeRow(s.db, s.disk, d, Demoted(s.db.blocks[d]));
    }
  }

  lemma ScheduleCopyUpStep(s: State, d: Digest)
    requires Inv(s) && Enabled(s, ScheduleCopyUp(d))
    ensures Inv(Next(s, ScheduleCopyUp(d)))
  {
    assert RowSafe(d, s.committed.blocks[d], s.disk, s.committed.queue);
  }

  lemma CopyUpFileStep(s: State, d: Digest)
    requires Inv(s) && Enabled(s, CopyUpFile(d))
    ensures Inv(Next(s, CopyUpFile(d)))
  {
    if (d, Hot) !in s.disk {
      AddPromoted(s, d);
    }
  }

  lemma CopyUpRowStep(s: State, d: Digest, now: int)
    requires Inv(s) && Enabled(s, CopyUpRow(d, now))
    ensures Inv(Next(s, CopyUpRow(d, now)))
  {
    if d in s.db.blocks {
      assert RowSafe(d, s.db.blocks[d], s.disk, s.db.queue);
      ChangeRow(s.db, s.disk, d, Promoted(s.db.blocks[d], now));
    }
  }

  lemma AddPromoted(s: State, d: Digest)
    requires Inv(s) && (d, Cold) in s.disk && (d, Hot) !in s.disk
    ensures TablesSafe(s.committed, s.disk[(d, Hot) := s.disk[(d, Cold)]])
    ensures TablesSafe(s.db, s.disk[(d, Hot) := s.disk[(d, Cold)]])
  {
    forall t | (d, t) in s.disk ensures s.disk[(d, t)] == s.disk[(d, Cold)] {
      assert t == Cold;
    }
    AddFile(s.committed, s.disk, d, Hot, s.disk[(d, Cold)]);
    AddFile(s.db, s.disk, d, Hot, s.disk[(d, Cold)]);
  }

  lemma RecordStep(s: State, d: Digest, repair: Repair)
    requires Inv(s) && Enabled(s, RecordRepair(d, repair))
    ensures Inv(Next(s, RecordRepair(d, repair)))
  {
    if d in s.db.blocks {
      assert RowSafe(d, s.db.blocks[d], s.disk, s.db.queue);
      ChangeRow(s.db, s.disk, d, Recorded(s.db.blocks[d], repair));
    }
  }

  lemma DrainUnlinkStep(s: State, d: Digest, t: Tier)
    requires Inv(s) && Enabled(s, DrainUnlink(d, t))
    ensures Inv(Next(s, DrainUnlink(d, t)))
  {
    assert t == Hot by { assert (d, t) in s.db.queue; }
    RemoveHot(s.committed, s.disk, d);
    RemoveHot(s.db, s.disk, d);
  }

  lemma DrainDequeueStep(s: State, d: Digest, t: Tier)
    requires Inv(s) && Enabled(s, DrainDequeue(d, t))
    ensures Inv(Next(s, DrainDequeue(d, t)))
  {
    forall e | e in s.db.blocks ensures RowSafe(e, s.db.blocks[e], s.disk, s.db.queue - {(d, t)}) {
      assert RowSafe(e, s.db.blocks[e], s.disk, s.db.queue);
    }
  }

  /** Steps that change whole tables, and the ends of a transaction. */
  lemma TableStep(s: State, step: Step)
    requires Inv(s) && Enabled(s, step) && (step.Replace? || step.Clone? || step.Namespace?)
    ensures Inv(Next(s, step))
  {
    match step
    case Replace(file, batch, from, now) => ReplaceSafe(s.db, s.disk, file, batch, from, now);
    case Clone(source, target) => CloneSafe(s.db, s.disk, source, target);
    case Namespace(_, _) =>
  }

  lemma EndStep(s: State, step: Step)
    requires Inv(s) && Enabled(s, step) && (step.Commit? || step.Abort? || step.Crash?)
    ensures Inv(Next(s, step))
  {
  }

  /** Steps that move a block between the tiers. */
  lemma MoveStep(s: State, step: Step)
    requires Inv(s) && Enabled(s, step)
    requires step.DemoteCopy? || step.DemoteUnlink? || step.DemoteRow? || step.ScheduleCopyUp? || step.CopyUpFile?
             || step.CopyUpRow?
    ensures Inv(Next(s, step))
  {
    match step
    case DemoteCopy(d) => DemoteCopyStep(s, d);
    case DemoteUnlink(d) => DemoteUnlinkStep(s, d);
    case DemoteRow(d) => DemoteRowStep(s, d);
    case ScheduleCopyUp(d) => ScheduleCopyUpStep(s, d);
    case CopyUpFile(d) => CopyUpFileStep(s, d);
    case CopyUpRow(d, now) => CopyUpRowStep(s, d, now);
  }

  /** Every enabled step whose guard holds keeps the invariant. */
  lemma StepKeepsInv(s: State, step: Step)
    requires Inv(s) && Enabled(s, step) && Guard(s, step)
    ensures Inv(Next(s, step))
  {
    if step.DemoteCopy? || step.DemoteUnlink? || step.DemoteRow? || step.ScheduleCopyUp? || step.CopyUpFile?
       || step.CopyUpRow? {
      MoveStep(s, step);
    } else if step.Replace? || step.Clone? || step.Namespace? {
      TableStep(s, step);
    } else if step.Commit? || step.Abort? || step.Crash? {
      EndStep(s, step);
    } else {
      FileStep(s, step);
    }
  }

  /** Steps that write a file or a row of one block, and the drain. */
  lemma FileStep(s: State, step: Step)
    requires Inv(s) && Enabled(s, step) && Guard(s, step)
    requires step.WriteFile? || step.InsertBlock? || step.MakeHot? || step.RecordRepair? || step.DrainUnlink?
             || step.DrainDequeue?
    ensures Inv(Next(s, step))
  {
    match step
    case WriteFile(d, payload) => WriteFileStep(s, d, payload);
    case InsertBlock(d, row) => InsertBlockStep(s, d, row);
    case MakeHot(d, now) => MakeHotStep(s, d, now);
    case RecordRepair(d, repair) => RecordStep(s, d, repair);
    case DrainUnlink(d, t) => DrainUnlinkStep(s, d, t);
    case DrainDequeue(d, t) => DrainDequeueStep(s, d, t);
  }

  // ----- whole runs -----

  lemma InvGivesReads(s: State)
    requires Inv(s)
    ensures NoLoss(s) && ReadsAll(s)
  {
    InvGivesNoLoss(s);
    forall k | k in s.committed.chunks
      ensures ReadsBack(s.committed.chunks[k].digest, s.committed.blocks[s.committed.chunks[k].digest], s.disk)
    {
      var d := s.committed.chunks[k].digest;
      assert RowSafe(d, s.committed.blocks[d], s.disk, s.committed.queue);
    }
  }

  lemma {:induction false} RunKeepsInv(s: State, steps: seq<Step>)
    requires Inv(s) && GuardedRun(s, steps)
    ensures Inv(Exec(s, steps))
    decreases |steps|
  {
    if steps != [] {
      StepKeepsInv(s, steps[0]);
      RunKeepsInv(Next(s, steps[0]), steps[1..]);
    }
  }

  /** No step of the system removes a file from the cold tier. */
  lemma {:induction false} ColdStays(s: State, steps: seq<Step>, d: Digest)
    requires Inv(s) && GuardedRun(s, steps) && (d, Cold) in s.disk
    ensures (d, Cold) in Exec(s, steps).disk
    decreases |steps|
  {
    if steps != [] {
      StepKeepsInv(s, steps[0]);
      ColdStays(Next(s, steps[0]), steps[1..], d);
    }
  }

  /** A repair that a read decides in one state can be recorded in every later one, whatever happened to the block in
      between. */
  lemma LateRepairIsSafe(s: State, t: State, d: Digest, row: BlockRow, down: set<(Digest, Tier)>)
    requires Inv(s) && Reaches(s, t)
    requires ReadTiered(row, ProbeIn(s.disk, down, d, Hot), ProbeIn(s.disk, down, d, Cold)).Ok?
    ensures var decision := ReadTiered(row, ProbeIn(s.disk, down, d, Hot), ProbeIn(s.disk, down, d, Cold)).value;
      Reaches(s, Next(t, RecordRepair(d, decision.repair))) && Inv(Next(t, RecordRepair(d, decision.repair)))
  {
    var decision := ReadTiered(row, ProbeIn(s.disk, down, d, Hot), ProbeIn(s.disk, down, d, Cold)).value;
    var steps :| GuardedRun(s, steps) && Exec(s, steps) == t;
    if decision.repair.cold == Some(true) {
      ColdStays(s, steps, d);
    }
    ReachesStep(s, t, RecordRepair(d, decision.repair));
    ReachesKeepsInv(s, Next(t, RecordRepair(d, decision.repair)));
  }

  lemma ReachesKeepsInv(s: State, t: State)
    requires Inv(s) && Reaches(s, t)
    ensures Inv(t) && NoLoss(t) && ReadsAll(t)
  {
    var steps :| GuardedRun(s, steps) && Exec(s, steps) == t;
    RunKeepsInv(s, steps);
    InvGivesReads(t);
  }

  /** From the empty file system, however writes, unlinks, truncates, clones, demotions, copy-ups, read
      repairs and queue drains interleave, and wherever crashes and rollbacks fall, no committed reference
      loses its last copy, and with both tiers reachable every committed block reads back correctly. */
  lemma NothingIsLost(steps: seq<Step>)
    requires GuardedRun(START, steps)
    ensures NoLoss(Exec(START, steps)) && ReadsAll(Exec(START, steps))
    ensures RefsExact(Exec(START, steps).committed)
  {
    assert Naming(EMPTY_DATABASE.chunks, Digest([])) == {};
    RunKeepsInv(START, steps);
    InvGivesReads(Exec(START, steps));
  }

  // ----- the guards are exact -----

  /** A file comes to refer to the block, and the transaction commits. */
  function AdoptStep(k: Key, d: Digest): Step {
    Replace(k.file, map[k.index := Put(d, |d.data|)], None, 0)
  }

  function AdoptedTables(db: Database, k: Key, d: Digest): Database {
    ReplaceFileChunks(db, k.file, map[k.index := Put(d, |d.data|)], None, 0)
  }

  function Adopted(s: State, k: Key, d: Digest): State {
    s.(db := AdoptedTables(s.db, k, d), committed := AdoptedTables(s.db, k, d), written := map[],
      demotion := NotDemoting)
  }

  lemma AdoptCounts(db: Database, k: Key, d: Digest)
    requires d in db.blocks && db.blocks[d].refcount == 0 && Naming(db.chunks, d) == {}
    ensures var after := AdoptedTables(db, k, d);
      && k in after.chunks && after.chunks[k].digest == d
      && d in after.blocks && after.blocks[d] == db.blocks[d].(refcount := 1, coldGc := None)
      && db.queue <= after.queue
  {
    var batch := map[k.index := Put(d, |d.data|)];
    var before, result := OldRows(db.chunks, k.file, batch, None), NewRows(k.file, batch);
    assert PutKeys(k.file, batch) == {k};
    assert Naming(result, d) == {k};
    assert Naming(before, d) <= Naming(db.chunks, d);
    DeltaIsDifference(before, result, d);
    assert DeltaOf(Deltas(before, result), d) == 1;
  }

  lemma AdoptIsEnabled(s: State, k: Key, d: Digest)
    requires d in s.db.blocks
    ensures Enabled(s, AdoptStep(k, d)) && Guard(s, AdoptStep(k, d))
    ensures Next(s, AdoptStep(k, d)) == s.(db := AdoptedTables(s.db, k, d))
  {
  }

  lemma CommitIsEnabled(s: State)
    requires s.demotion == NotDemoting
    ensures Enabled(s, Commit) && Guard(s, Commit)
    ensures Next(s, Commit) == s.(committed := s.db, written := map[], demotion := NotDemoting)
  {
  }

  lemma AdoptRuns(s: State, k: Key, d: Digest)
    requires d in s.db.blocks && s.demotion == NotDemoting
    ensures GuardedRun(s, [AdoptStep(k, d), Commit]) && Exec(s, [AdoptStep(k, d), Commit]) == Adopted(s, k, d)
  {
    AdoptIsEnabled(s, k, d);
    CommitIsEnabled(Next(s, AdoptStep(k, d)));
    RunTwo(s, AdoptStep(k, d), Commit);
  }

  lemma DrainIsEnabled(s: State, d: Digest)
    requires (d, Hot) in s.committed.queue
    ensures Enabled(s, DrainUnlink(d, Hot)) && Guard(s, DrainUnlink(d, Hot))
    ensures Next(s, DrainUnlink(d, Hot)) == s.(disk := Unlink(s.disk, d, Hot), draining := s.draining + {(d, Hot)})
  {
  }

  ghost predicate SafeForever(s: State) {
    forall steps :: GuardedRun(s, steps) ==> NoLoss(Exec(s, steps))
  }

  lemma InvIsSafeForever(s: State)
    requires Inv(s)
    ensures SafeForever(s)
  {
    forall steps | GuardedRun(s, steps) ensures NoLoss(Exec(s, steps)) {
      RunKeepsInv(s, steps);
      InvGivesReads(Exec(s, steps));
    }
  }

  lemma UnsafeAfter(s: State, steps: seq<Step>, t: State)
    requires GuardedRun(s, steps) && Exec(s, steps) == t && !NoLoss(t)
    ensures !SafeForever(s)
  {
  }

  lemma DrainedAdopted(s: State, k: Key, d: Digest)
    requires d in s.db.blocks && s.db.blocks[d].refcount == 0 && s.db.blocks[d].storage == Tiered
    requires Naming(s.db.chunks, d) == {} && (d, Cold) !in s.disk
    ensures !NoLoss(Adopted(s, k, d).(disk := Unlink(s.disk, d, Hot), draining := s.draining + {(d, Hot)}))
  {
    AdoptCounts(s.db, k, d);
    var t := Adopted(s, k, d).(disk := Unlink(s.disk, d, Hot), draining := s.draining + {(d, Hot)});
    assert t.committed.chunks[k].digest == d;
    assert !Recoverable(d, t.committed.blocks[d], t.disk);
  }

  /** A block inserted while its hot file is queued for deletion, with no cold file, is lost by: refer to it,
      commit, drain. */
  lemma QueuedInsertLoses(s: State, k: Key, d: Digest)
    requires d in s.db.blocks && s.db.blocks[d].refcount == 0 && s.db.blocks[d].storage == Tiered
    requires Naming(s.db.chunks, d) == {} && s.demotion == NotDemoting
    requires (d, Hot) in s.db.queue && (d, Cold) !in s.disk
    ensures var steps := [AdoptStep(k, d), Commit, DrainUnlink(d, Hot)];
      GuardedRun(s, steps) && !NoLoss(Exec(s, steps))
    ensures !SafeForever(s)
  {
    AdoptRuns(s, k, d);
    AdoptedThenDrained(s, k, d);
    ThenLost(s, AdoptStep(k, d), Commit, Adopted(s, k, d), DrainUnlink(d, Hot));
  }

  lemma AdoptedThenDrained(s: State, k: Key, d: Digest)
    requires d in s.db.blocks && s.db.blocks[d].refcount == 0 && s.db.blocks[d].storage == Tiered
    requires Naming(s.db.chunks, d) == {} && (d, Hot) in s.db.queue && (d, Cold) !in s.disk
    ensures var t, drain := Adopted(s, k, d), DrainUnlink(d, Hot);
      Enabled(t, drain) && Guard(t, drain) && !NoLoss(Next(t, drain))
  {
    AdoptCounts(s.db, k, d);
    DrainIsEnabled(Adopted(s, k, d), d);
    DrainedAdopted(s, k, d);
  }

  /** A run of two steps and one more that loses something. */
  lemma ThenLost(s: State, a: Step, b: Step, t: State, c: Step)
    requires GuardedRun(s, [a, b]) && Exec(s, [a, b]) == t && Enabled(t, c) && Guard(t, c) && !NoLoss(Next(t, c))
    ensures GuardedRun(s, [a, b, c]) && !NoLoss(Exec(s, [a, b, c])) && !SafeForever(s)
  {
    RunOneMore(s, [a, b], c);
    assert [a, b] + [c] == [a, b, c];
    UnsafeAfter(s, [a, b, c], Next(t, c));
  }

  /** Inserting a block is safe for every continuation exactly when the deletion of its hot file is not
      queued, or a cold file backs it up. */
  lemma InsertSafeExactly(s: State, d: Digest, row: BlockRow)
    requires Inv(s) && row.storage == Tiered && Enabled(s, InsertBlock(d, row))
    ensures SafeForever(Next(s, InsertBlock(d, row))) <==> (d, Hot) !in s.db.queue || (d, Cold) in s.disk
  {
    if (d, Hot) !in s.db.queue || (d, Cold) in s.disk {
      StepKeepsInv(s, InsertBlock(d, row));
      InvIsSafeForever(Next(s, InsertBlock(d, row)));
    } else {
      assert Naming(s.db.chunks, d) == {};
      QueuedInsertLoses(Next(s, InsertBlock(d, row)), Key(0, 0), d);
    }
  }

  ghost predicate ReadsForever(s: State) {
    forall steps :: GuardedRun(s, steps) ==> ReadsAll(Exec(s, steps))
  }

  lemma UnreadableAfter(s: State, steps: seq<Step>, k: Key, d: Digest)
    requires GuardedRun(s, steps)
    requires var t := Exec(s, steps);
      && k in t.committed.chunks && t.committed.chunks[k].digest == d
      && (d in t.committed.blocks ==> !ReadsBack(d, t.committed.blocks[d], t.disk))
    ensures !ReadsForever(s)
  {
    assert !ReadsAll(Exec(s, steps));
  }

  /** A hot file left over with another encoding makes the inserted block unreadable at once. */
  lemma HotLeftoverUnreadable(s: State, k: Key, d: Digest)
    requires d in s.db.blocks && s.db.blocks[d].refcount == 0 && Naming(s.db.chunks, d) == {}
    requires s.demotion == NotDemoting
    requires s.db.blocks[d].storage == Tiered && s.db.blocks[d].hot && s.db.blocks[d].preferred == Some(Hot)
    requires (d, Hot) in s.disk && s.disk[(d, Hot)] != Encode(d.data, s.db.blocks[d].compressed)
    ensures !ReadsForever(s)
  {
    AdoptRuns(s, k, d);
    AdoptCounts(s.db, k, d);
    UnreadableAfter(s, [AdoptStep(k, d), Commit], k, d);
  }

  function DemotedState(s: State, d: Digest): State
    requires d in s.db.blocks
  {
    var db := SetRow(s.db, d, Demoted(s.db.blocks[d]));
    s.(db := db, committed := db, disk := Unlink(s.disk, d, Hot), written := map[], demotion := NotDemoting)
  }

  /** A demotion up to the removal of the hot file, the cold file being there. */
  lemma UnlinkedRuns(s: State, d: Digest)
    requires d in s.db.blocks && s.db.blocks[d].storage == Tiered && s.db.blocks[d].hot && s.demotion == NotDemoting
    requires (d, Cold) in s.disk || s.db.blocks[d].cold
    ensures GuardedRun(s, [DemoteCopy(d), DemoteUnlink(d)])
    ensures Exec(s, [DemoteCopy(d), DemoteUnlink(d)])
      == s.(disk := Unlink(s.disk, d, Hot), demotion := HotUnlinked(d))
  {
    assert Next(s, DemoteCopy(d)) == s.(demotion := ColdCopied(d));
    RunTwo(s, DemoteCopy(d), DemoteUnlink(d));
  }

  lemma DemotionRuns(s: State, d: Digest)
    requires d in s.db.blocks && s.db.blocks[d].storage == Tiered && s.db.blocks[d].hot && s.demotion == NotDemoting
    requires (d, Cold) in s.disk
    ensures GuardedRun(s, [DemoteCopy(d), DemoteUnlink(d), DemoteRow(d), Commit])
    ensures Exec(s, [DemoteCopy(d), DemoteUnlink(d), DemoteRow(d), Commit]) == DemotedState(s, d)
  {
    UnlinkedRuns(s, d);
    var s2 := s.(disk := Unlink(s.disk, d, Hot), demotion := HotUnlinked(d));
    RunOneMore(s, [DemoteCopy(d), DemoteUnlink(d)], DemoteRow(d));
    var s3 := s2.(db := SetRow(s.db, d, Demoted(s.db.blocks[d])), demotion := NotDemoting);
    assert Next(s2, DemoteRow(d)) == s3;
    CommitIsEnabled(s3);
    RunOneMore(s, [DemoteCopy(d), DemoteUnlink(d)] + [DemoteRow(d)], Commit);
    assert [DemoteCopy(d), DemoteUnlink(d)] + [DemoteRow(d)] + [Commit]
      == [DemoteCopy(d), DemoteUnlink(d), DemoteRow(d), Commit];
  }

  /** A cold file left over with another encoding makes the inserted block unreadable once it is demoted:
      the copy keeps the file that is there. */
  lemma ColdLeftoverUnreadable(s: State, k: Key, d: Digest)
    requires d in s.db.blocks && s.db.blocks[d].refcount == 0 && Naming(s.db.chunks, d) == {}
    requires s.demotion == NotDemoting
    requires s.db.blocks[d].storage == Tiered && s.db.blocks[d].hot
    requires (d, Cold) in s.disk && s.disk[(d, Cold)] != Encode(d.data, s.db.blocks[d].compressed)
    ensures !ReadsForever(s)
  {
    var t := Adopted(s, k, d);
    AdoptRuns(s, k, d);
    AdoptCounts(s.db, k, d);
    DemotionRuns(t, d);
    DemotedUnreadable(t, d);
    ThenUnreadable(s, [AdoptStep(k, d), Commit], t, [DemoteCopy(d), DemoteUnlink(d), DemoteRow(d), Commit], k, d);
  }

  lemma DemotedUnreadable(t: State, d: Digest)
    requires d in t.db.blocks && t.db.blocks[d].storage == Tiered
    requires (d, Cold) in t.disk && t.disk[(d, Cold)] != Encode(d.data, t.db.blocks[d].compressed)
    ensures var after := DemotedState(t, d);
      d in after.committed.blocks && !ReadsBack(d, after.committed.blocks[d], after.disk)
      && after.committed.chunks == t.db.chunks
  {
  }

  /** Two runs after which a committed chunk cannot be read. */
  lemma ThenUnreadable(s: State, first: seq<Step>, t: State, second: seq<Step>, k: Key, d: Digest)
    requires GuardedRun(s, first) && Exec(s, first) == t && GuardedRun(t, second)
    requires var after := Exec(t, second);
      && k in after.committed.chunks && after.committed.chunks[k].digest == d
      && (d in after.committed.blocks ==> !ReadsBack(d, after.committed.blocks[d], after.disk))
    ensures !ReadsForever(s)
  {
    RunThen(s, first, second);
    UnreadableAfter(s, first + second, k, d);
  }

  lemma ReadsForeverIsSafeForever(s: State)
    requires ReadsForever(s)
    ensures SafeForever(s)
  {
    forall steps | GuardedRun(s, steps) ensures NoLoss(Exec(s, steps)) {
      assert ReadsAll(Exec(s, steps));
    }
  }

  /** A new tiered block, written and inserted, reads back in every continuation exactly when no file left
      over for its digest has another encoding, and the deletion of its hot file is not queued or a cold file
      backs it up. */
  lemma FreshBlockReadsExactly(s: State, d: Digest, row: BlockRow)
    requires Inv(s) && s.demotion == NotDemoting && d !in s.db.blocks && NewRow(d, row) && row.storage == Tiered
    ensures var payload := Encode(d.data, row.compressed);
      ReadsForever(Next(Next(s, WriteFile(d, payload)), InsertBlock(d, row)))
      <==> FilesMatch(s.disk, d, payload) && ((d, Hot) !in s.db.queue || (d, Cold) in s.disk)
  {
    var payload := Encode(d.data, row.compressed);
    var w := Next(s, WriteFile(d, payload));
    var t := Next(w, InsertBlock(d, row));
    assert Naming(t.db.chunks, d) == {} by { assert Naming(s.db.chunks, d) == {}; }
    if !FilesMatch(s.disk, d, payload) {
      LeftoverUnreadable(s, t, d, payload);
    } else if (d, Hot) in s.db.queue && (d, Cold) !in s.disk {
      QueuedInsertLoses(t, Key(0, 0), d);
      if ReadsForever(t) { ReadsForeverIsSafeForever(t); }
    } else {
      FreshIsSafe(s, d, row);
      InvReadsForever(t);
    }
  }

  lemma FreshIsSafe(s: State, d: Digest, row: BlockRow)
    requires Inv(s) && s.demotion == NotDemoting && d !in s.db.blocks && NewRow(d, row) && row.storage == Tiered
    requires FilesMatch(s.disk, d, Encode(d.data, row.compressed)) && ((d, Hot) !in s.db.queue || (d, Cold) in s.disk)
    ensures Inv(Next(Next(s, WriteFile(d, Encode(d.data, row.compressed))), InsertBlock(d, row)))
  {
    var write := WriteFile(d, Encode(d.data, row.compressed));
    WriteFileStep(s, d, Encode(d.data, row.compressed));
    InsertBlockStep(Next(s, write), d, row);
  }

  lemma LeftoverUnreadable(s: State, t: State, d: Digest, payload: Payload)
    requires d in t.db.blocks && t.db.blocks[d].refcount == 0 && Naming(t.db.chunks, d) == {}
    requires t.demotion == NotDemoting && t.db.blocks[d].storage == Tiered && t.db.blocks[d].hot
    requires t.db.blocks[d].preferred == Some(Hot) && payload == Encode(d.data, t.db.blocks[d].compressed)
    requires !FilesMatch(s.disk, d, payload) && t.disk == WriteAtomic(s.disk, d, Hot, payload)
    ensures !ReadsForever(t)
  {
    var tier :| (d, tier) in s.disk && s.disk[(d, tier)] != payload;
    match tier
    case Hot => HotLeftoverUnreadable(t, Key(0, 0), d);
    case Cold => ColdLeftoverUnreadable(t, Key(0, 0), d);
  }

  lemma InvReadsForever(t: State)
    requires Inv(t)
    ensures ReadsForever(t)
  {
    forall steps | GuardedRun(t, steps) ensures ReadsAll(Exec(t, steps)) {
      RunKeepsInv(t, steps);
      InvGivesReads(Exec(t, steps));
    }
  }

  /** A row for the example block under compression. */
  const COMPRESSED_ROW := BlockRow(Tiered, true, 1, 1, 0, true, false, Some(Hot), None, None, None)

  /** The plain file of a write that crashed before its commit. */
  const LEFTOVER_RUN := [WriteFile(BLOCK, Plain(BLOCK.data)), Crash]

  /** From the empty file system: a write puts down a plain file and crashes; the same bytes written again, now
      compressed, keep that file and get a row that cannot be read. */
  lemma LeftoverUnreadableExample()
    ensures GuardedRun(START, LEFTOVER_RUN)
    ensures var s := Exec(START, LEFTOVER_RUN);
      var write, insert := WriteFile(BLOCK, Zstd(BLOCK.data)), InsertBlock(BLOCK, COMPRESSED_ROW);
      Inv(s) && Enabled(s, write) && Enabled(Next(s, write), insert) && !ReadsForever(Next(Next(s, write), insert))
  {
    var plain := WriteFile(BLOCK, Plain(BLOCK.data));
    RunOne(START, plain);
    RunOneMore(START, [plain], Crash);
    assert [plain] + [Crash] == LEFTOVER_RUN;
    assert Naming(EMPTY_DATABASE.chunks, Digest([])) == {};
    RunKeepsInv(START, LEFTOVER_RUN);
    FreshBlockReadsExactly(Exec(START, LEFTOVER_RUN), BLOCK, COMPRESSED_ROW);
  }
}
