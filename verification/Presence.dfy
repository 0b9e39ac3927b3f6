/** Whole operations without crashes.  Here presence bits can be trusted: a hot bit means a hot file nobody has
    queued for deletion, a cold bit means a cold file, and so cleanup never drops a last copy. */
module Presence {
  import opened Types
  import opened Schema
  import opened ChunkTable
  import opened TierRead
  import opened Tiering

  datatype Store = Store(db: Database, disk: Disk)

  ghost predicate BitsTrue(d: Digest, row: BlockRow, disk: Disk, queue: set<(Digest, Tier)>) {
    && RowCheck(row)
    && (row.storage == Inline ==> row.inlinePayload == Some(Encode(d.data, row.compressed)))
    && (row.storage == Tiered ==> FilesMatch(disk, d, Encode(d.data, row.compressed)))
    && (row.hot ==> (d, Hot) in disk && (d, Hot) !in queue)
    && (row.cold ==> (d, Cold) in disk)
    && (row.storage == Tiered && row.refcount > 0 ==> (d, Hot) !in queue)
  }

  ghost predicate Strict(s: Store) {
    && RefsExact(s.db)
    && (forall d :: d in s.db.blocks ==> BitsTrue(d, s.db.blocks[d], s.disk, s.db.queue))
  }

  datatype Op =
    | NewBlock(digest: Digest, row: BlockRow)
    | ReuseBlock(digest: Digest, now: int)
    | ReplaceChunks(file: InodeId, batch: map<int, Replacement>, from: Option<int>, now: int)
    | CloneFile(source: InodeId, target: InodeId)
    | Demote(digest: Digest)
    | CopyToHot(digest: Digest)
    | ClaimBoth(digest: Digest, now: int)
    | Record(digest: Digest, repair: Repair)
    | Drain(digest: Digest)
    | CleanPromoted(digest: Digest, cutoff: int)
    | CleanGarbage(digest: Digest, cutoff: int)

  /** Rows the cleanup queries select. */
  predicate PromotedCandidate(row: BlockRow, cutoff: int) {
    && row.storage == Tiered && row.hot && row.cold && row.preferred == Some(Hot)
    && row.lastPromoted.Some? && row.lastPromoted.value <= cutoff
  }

  predicate GarbageCandidate(row: BlockRow, cutoff: int) {
    row.storage == Tiered && row.refcount == 0 && row.cold && row.coldGc.Some? && row.coldGc.value <= cutoff
  }

  ghost predicate CanDo(s: Store, op: Op) {
    match op
    case NewBlock(d, row) => d !in s.db.blocks && NewRow(d, row)
    case ReuseBlock(d, now) => d in s.db.blocks && s.db.blocks[d].storage == Tiered && !s.db.blocks[d].hot
    case ReplaceChunks(file, batch, from, now) =>
      forall i :: i in batch && batch[i].Put? ==>
        batch[i].digest in s.db.blocks
          && (s.db.blocks[batch[i].digest].storage == Inline || s.db.blocks[batch[i].digest].hot)
    case CloneFile(source, target) => forall k :: k in s.db.chunks ==> k.file != target
    case Demote(d) => d in s.db.blocks && s.db.blocks[d].storage == Tiered && s.db.blocks[d].hot
    case CopyToHot(d) => true
    case ClaimBoth(d, now) => true
    case Record(d, repair) => true
    case Drain(d) => (d, Hot) in s.db.queue
    case CleanPromoted(d, cutoff) => d in s.db.blocks && PromotedCandidate(s.db.blocks[d], cutoff)
    case CleanGarbage(d, cutoff) => d in s.db.blocks && GarbageCandidate(s.db.blocks[d], cutoff)
  }

  /** What the code does not check: no operation makes a block hot while the deletion of its hot file is queued, or
      gives a row to a block of which a file in the other encoding is left over; the row of a copy-up, written some time
      after the read that scheduled it and after its probe of the hot file, still claims what is there; and so does a
      repair, recorded some time after the read that decided it. */
  ghost predicate OpGuard(s: Store, op: Op) {
    match op
    case NewBlock(d, row) => row.storage == Tiered ==>
      (d, Hot) !in s.db.queue && FilesMatch(s.disk, d, Encode(d.data, row.compressed))
    case ReuseBlock(d, now) => (d, Hot) !in s.db.queue
    case ClaimBoth(d, now) => Claims(s, d) ==> BothThere(s, d)
    case Record(d, repair) => Records(s, d, repair) ==> StillTrue(s, d, repair)
    case _ => true
  }

  /** There is a row for the copy-up to write. */
  predicate Claims(s: Store, d: Digest) {
    d in s.db.blocks && s.db.blocks[d].storage == Tiered
  }

  predicate BothThere(s: Store, d: Digest) {
    (d, Hot) in s.disk && (d, Hot) !in s.db.queue && (d, Cold) in s.disk
  }

  /** There is a row, and its CHECK constraints accept the repair. */
  predicate Records(s: Store, d: Digest, repair: Repair) {
    d in s.db.blocks && RowCheck(ApplyRepair(s.db.blocks[d], repair))
  }

  /** The copies a repair declares are there to stay. */
  predicate StillTrue(s: Store, d: Digest, repair: Repair) {
    && (repair.hot == Some(true) ==> (d, Hot) in s.disk && (d, Hot) !in s.db.queue)
    && (repair.cold == Some(true) ==> (d, Cold) in s.disk)
  }

  function Do(s: Store, op: Op): Store {
    match op
    case NewBlock(d, row) =>
      Store(s.db.(blocks := s.db.blocks[d := row]),
            if row.storage == Tiered then WriteAtomic(s.disk, d, Hot, Encode(d.data, row.compressed)) else s.disk)
    case ReuseBlock(d, now) => if d !in s.db.blocks then s else
      Store(SetRow(s.db, d, HotAgain(s.db.blocks[d], now)),
        WriteAtomic(s.disk, d, Hot, Encode(d.data, s.db.blocks[d].compressed)))
    case ReplaceChunks(file, batch, from, now) => s.(db := ReplaceFileChunks(s.db, file, batch, from, now))
    case CloneFile(source, target) => s.(db := CloneChunks(s.db, source, target))
    case Demote(d) => if d !in s.db.blocks then s else
      var copied := if s.db.blocks[d].cold then s.disk else CopyAtomic(s.disk, d, Hot, Cold);
      Store(SetRow(s.db, d, Demoted(s.db.blocks[d])), Unlink(copied, d, Hot))
    case CopyToHot(d) => s.(disk := CopyAtomic(s.disk, d, Cold, Hot))
    case ClaimBoth(d, now) => if Claims(s, d) then s.(db := SetRow(s.db, d, Promoted(s.db.blocks[d], now))) else s
    case Record(d, repair) =>
      if Records(s, d, repair) then Store(SetRow(s.db, d, Recorded(s.db.blocks[d], repair)), s.disk) else s
    case Drain(d) => Store(Dequeue(s.db, (d, Hot)), Unlink(s.disk, d, Hot))
    case CleanPromoted(d, cutoff) => if d !in s.db.blocks then s else
      Store(SetRow(s.db, d, s.db.blocks[d].(cold := false)), Unlink(s.disk, d, Cold))
    case CleanGarbage(d, cutoff) => Store(s.db.(blocks := s.db.blocks - {d}), Unlink(s.disk, d, Cold))
  }

  // ----- the operations are runs of the sub-steps -----

  function View(s: State): Store {
    Store(s.db, s.disk)
  }

  /** The sub-steps of an operation other than a cleanup. */
  function StepsOf(s: Store, op: Op): seq<Step> {
    match op
    case NewBlock(d, row) =>
      if row.storage == Tiered then
        [WriteFile(d, Encode(d.data, row.compressed)), InsertBlock(d, row)]
      else
        [InsertBlock(d, row)]
    case ReuseBlock(d, now) =>
      if d in s.db.blocks then [WriteFile(d, Encode(d.data, s.db.blocks[d].compressed)), MakeHot(d, now)] else []
    case ReplaceChunks(file, batch, from, now) => [Replace(file, batch, from, now)]
    case CloneFile(source, target) => [Clone(source, target)]
    case Demote(d) => [DemoteCopy(d), DemoteUnlink(d), DemoteRow(d)]
    case CopyToHot(d) => [CopyUpFile(d)]
    case ClaimBoth(d, now) => if Claims(s, d) then [CopyUpRow(d, now)] else []
    case Record(d, repair) => if Records(s, d, repair) then [RecordRepair(d, repair)] else []
    case Drain(d) => [DrainUnlink(d, Hot), DrainDequeue(d, Hot)]
    case CleanPromoted(_, _) => []
    case CleanGarbage(_, _) => []
  }

  /** Where an operation can begin: no demotion is under way, the copy-up was scheduled, and the drain finds a
      committed queue. */
  ghost predicate CanBegin(s: State, op: Op) {
    && CanDo(View(s), op) && s.demotion == NotDemoting
    && !op.CleanPromoted? && !op.CleanGarbage?
    && (op.CopyToHot? || op.ClaimBoth? ==> op.digest in s.promoting)
    && (op.Drain? ==> s.db == s.committed && s.written == map[])
  }

  /** A run of sub-steps each of which the code can take and which meets its guard, with the effect of the operation. */
  ghost predicate RunsAs(s: State, op: Op, steps: seq<Step>) {
    GuardedRun(s, steps) && View(Exec(s, steps)) == Do(View(s), op)
  }

  lemma NoStepRuns(s: State, op: Op)
    requires Do(View(s), op) == View(s)
    ensures RunsAs(s, op, [])
  {
  }

  lemma OneStepRuns(s: State, op: Op, step: Step)
    requires Enabled(s, step) && Guard(s, step) && View(Next(s, step)) == Do(View(s), op)
    ensures RunsAs(s, op, [step])
  {
    RunOne(s, step);
  }

  lemma NewBlockRuns(s: State, d: Digest, row: BlockRow)
    requires Strict(View(s)) && CanBegin(s, NewBlock(d, row)) && OpGuard(View(s), NewBlock(d, row))
    ensures RunsAs(s, NewBlock(d, row), StepsOf(View(s), NewBlock(d, row)))
  {
    if row.storage == Tiered {
      RunTwo(s, WriteFile(d, Encode(d.data, row.compressed)), InsertBlock(d, row));
    } else {
      OneStepRuns(s, NewBlock(d, row), InsertBlock(d, row));
    }
  }

  lemma ReuseRuns(s: State, d: Digest, now: int)
    requires Strict(View(s)) && CanBegin(s, ReuseBlock(d, now))
    ensures RunsAs(s, ReuseBlock(d, now), StepsOf(View(s), ReuseBlock(d, now)))
  {
    assert BitsTrue(d, s.db.blocks[d], s.disk, s.db.queue);
    RunTwo(s, WriteFile(d, Encode(d.data, s.db.blocks[d].compressed)), MakeHot(d, now));
  }

  lemma DemoteRuns(s: State, d: Digest)
    requires CanBegin(s, Demote(d))
    ensures RunsAs(s, Demote(d), StepsOf(View(s), Demote(d)))
  {
    RunTwo(s, DemoteCopy(d), DemoteUnlink(d));
    RunOneMore(s, [DemoteCopy(d), DemoteUnlink(d)], DemoteRow(d));
    assert [DemoteCopy(d), DemoteUnlink(d)] + [DemoteRow(d)] == [DemoteCopy(d), DemoteUnlink(d), DemoteRow(d)];
  }

  lemma DrainRuns(s: State, d: Digest)
    requires CanBegin(s, Drain(d))
    ensures RunsAs(s, Drain(d), StepsOf(View(s), Drain(d)))
  {
    RunTwo(s, DrainUnlink(d, Hot), DrainDequeue(d, Hot));
  }

  lemma CopyUpRuns(s: State, op: Op)
    requires CanBegin(s, op) && (op.CopyToHot? || op.ClaimBoth?)
    ensures RunsAs(s, op, StepsOf(View(s), op))
  {
    match op
    case CopyToHot(d) => OneStepRuns(s, op, CopyUpFile(d));
    case ClaimBoth(d, now) =>
      if Claims(View(s), d) {
        OneStepRuns(s, op, CopyUpRow(d, now));
      } else {
        NoStepRuns(s, op);
      }
  }

  lemma RecordRuns(s: State, d: Digest, repair: Repair)
    requires CanBegin(s, Record(d, repair)) && OpGuard(View(s), Record(d, repair))
    ensures RunsAs(s, Record(d, repair), StepsOf(View(s), Record(d, repair)))
  {
    if Records(View(s), d, repair) {
      OneStepRuns(s, Record(d, repair), RecordRepair(d, repair));
    } else {
      NoStepRuns(s, Record(d, repair));
    }
  }

  lemma TablesRun(s: State, op: Op)
    requires CanBegin(s, op) && (op.ReplaceChunks? || op.CloneFile?)
    ensures RunsAs(s, op, StepsOf(View(s), op))
  {
    match op
    case ReplaceChunks(file, batch, from, now) => OneStepRuns(s, op, Replace(file, batch, from, now));
    case CloneFile(source, target) => OneStepRuns(s, op, Clone(source, target));
  }

  /** Every operation but the cleanups is such a run. */
  lemma OpIsSteps(s: State, op: Op)
    requires Strict(View(s)) && CanBegin(s, op) && OpGuard(View(s), op)
    ensures RunsAs(s, op, StepsOf(View(s), op))
  {
    match op
    case NewBlock(d, row) => NewBlockRuns(s, d, row);
    case ReuseBlock(d, now) => ReuseRuns(s, d, now);
    case ReplaceChunks(_, _, _, _) => TablesRun(s, op);
    case CloneFile(_, _) => TablesRun(s, op);
    case Demote(d) => DemoteRuns(s, d);
    case CopyToHot(_) => CopyUpRuns(s, op);
    case ClaimBoth(_, _) => CopyUpRuns(s, op);
    case Record(d, repair) => RecordRuns(s, d, repair);
    case Drain(d) => DrainRuns(s, d);
  }

  lemma StrictGivesReads(s: Store, d: Digest)
    requires Strict(s) && d in s.db.blocks
    ensures ReadsBack(d, s.db.blocks[d], s.disk) && Recoverable(d, s.db.blocks[d], s.disk)
  {
    assert BitsTrue(d, s.db.blocks[d], s.disk, s.db.queue);
  }

  /** Changing the row and files of one block leaves the others' bits true. */
  lemma OneBlock(s: Store, d: Digest, row: BlockRow, disk: Disk)
    requires Strict(s) && d in s.db.blocks && row.refcount == s.db.blocks[d].refcount
    requires forall e, t ::
      e != d ==> ((e, t) in disk <==> (e, t) in s.disk) && ((e, t) in disk ==> disk[(e, t)] == s.disk[(e, t)])
    requires BitsTrue(d, row, disk, s.db.queue)
    ensures Strict(Store(SetRow(s.db, d, row), disk))
  {
    forall e | e in s.db.blocks && e != d ensures BitsTrue(e, s.db.blocks[e], disk, s.db.queue) {
      assert BitsTrue(e, s.db.blocks[e], s.disk, s.db.queue);
    }
  }

  /** A row that gains references is one the batch names, and writes make those hot first. */
  lemma RevivedIsHot(s: Store, file: InodeId, batch: map<int, Replacement>, from: Option<int>, d: Digest)
    requires Strict(s) && d in s.db.blocks
    requires forall i :: i in batch && batch[i].Put? ==>
      batch[i].digest in s.db.blocks
        && (s.db.blocks[batch[i].digest].storage == Inline || s.db.blocks[batch[i].digest].hot)
    ensures var deltas := Deltas(OldRows(s.db.chunks, file, batch, from), NewRows(file, batch));
      d in deltas && deltas[d] > 0 ==> s.db.blocks[d].storage == Inline || (d, Hot) !in s.db.queue
  {
    var removed, added := OldRows(s.db.chunks, file, batch, from), NewRows(file, batch);
    DeltaIsDifference(removed, added, d);
    assert BitsTrue(d, s.db.blocks[d], s.disk, s.db.queue);
    if d in Deltas(removed, added) && Deltas(removed, added)[d] > 0 {
      assert Naming(added, d) != {};
    }
  }

  lemma ReplacedBits(db: Database, row: BlockRow, d: Digest, deltas: map<Digest, int>, now: int, disk: Disk)
    requires d in db.blocks && row == db.blocks[d] && BitsTrue(d, row, disk, db.queue)
    requires d in deltas && deltas[d] > 0 ==> row.storage == Inline || (d, Hot) !in db.queue
    requires d in Applied(db, deltas, now).blocks
    ensures BitsTrue(d, Applied(db, deltas, now).blocks[d], disk, Applied(db, deltas, now).queue)
  {
  }

  lemma AppliedStrict(db: Database, deltas: map<Digest, int>, now: int, disk: Disk)
    requires forall d :: d in db.blocks ==> BitsTrue(d, db.blocks[d], disk, db.queue)
    requires forall d ::
      d in db.blocks && d in deltas && deltas[d] > 0 ==> db.blocks[d].storage == Inline || (d, Hot) !in db.queue
    ensures var after := Applied(db, deltas, now);
      forall d :: d in after.blocks ==> BitsTrue(d, after.blocks[d], disk, after.queue)
  {
    var after := Applied(db, deltas, now);
    forall d | d in after.blocks ensures BitsTrue(d, after.blocks[d], disk, after.queue) {
      ReplacedBits(db, db.blocks[d], d, deltas, now, disk);
    }
  }

  lemma ReplaceStrict(s: Store, file: InodeId, batch: map<int, Replacement>, from: Option<int>, now: int)
    requires Strict(s) && CanDo(s, ReplaceChunks(file, batch, from, now))
    ensures Strict(Do(s, ReplaceChunks(file, batch, from, now)))
  {
    ReplaceKeepsRefsExact(s.db, file, batch, from, now);
    forall d | d in s.db.blocks
      ensures var deltas := Deltas(OldRows(s.db.chunks, file, batch, from), NewRows(file, batch));
        d in deltas && deltas[d] > 0 ==> s.db.blocks[d].storage == Inline || (d, Hot) !in s.db.queue
    {
      RevivedIsHot(s, file, batch, from, d);
    }
    AppliedStrict(s.db.(chunks := Replaced(s.db.chunks, file, batch, from)),
                  Deltas(OldRows(s.db.chunks, file, batch, from), NewRows(file, batch)), now, s.disk);
  }

  lemma ClonedRowTrue(s: Store, source: InodeId, target: InodeId, d: Digest)
    requires Strict(s) && d in CloneChunks(s.db, source, target).blocks
    ensures BitsTrue(d, CloneChunks(s.db, source, target).blocks[d], s.disk, s.db.queue)
  {
    assert BitsTrue(d, s.db.blocks[d], s.disk, s.db.queue);
    if d in Digests(SourceRows(s.db.chunks, source)) {
      var k :| k in SourceRows(s.db.chunks, source) && SourceRows(s.db.chunks, source)[k].digest == d;
      assert k in Naming(s.db.chunks, d);
    }
  }

  lemma CloneStrict(s: Store, source: InodeId, target: InodeId)
    requires Strict(s) && CanDo(s, CloneFile(source, target))
    ensures Strict(Do(s, CloneFile(source, target)))
  {
    CloneKeepsRefsExact(s.db, source, target);
    var after := CloneChunks(s.db, source, target);
    forall d | d in after.blocks ensures BitsTrue(d, after.blocks[d], s.disk, after.queue) {
      ClonedRowTrue(s, source, target, d);
    }
  }

  lemma NewBlockStrict(s: Store, d: Digest, row: BlockRow)
    requires Strict(s) && CanDo(s, NewBlock(d, row)) && OpGuard(s, NewBlock(d, row))
    ensures Strict(Do(s, NewBlock(d, row)))
  {
    var t := Do(s, NewBlock(d, row));
    assert Naming(s.db.chunks, d) == {};
    assert BitsTrue(d, row, t.disk, s.db.queue);
    forall e | e in s.db.blocks ensures BitsTrue(e, s.db.blocks[e], t.disk, s.db.queue) {
      assert BitsTrue(e, s.db.blocks[e], s.disk, s.db.queue);
    }
  }

  ghost predicate MovesOne(s: Store, op: Op) {
    op.ReuseBlock? || op.Demote? || op.CleanPromoted? || (op.ClaimBoth? && Claims(s, op.digest))
  }

  lemma MovedBits(s: Store, op: Op)
    requires MovesOne(s, op) && CanDo(s, op) && OpGuard(s, op)
    requires op.digest in s.db.blocks && BitsTrue(op.digest, s.db.blocks[op.digest], s.disk, s.db.queue)
    ensures op.digest in Do(s, op).db.blocks
    ensures BitsTrue(op.digest, Do(s, op).db.blocks[op.digest], Do(s, op).disk, s.db.queue)
  {
  }

  lemma MoveStrict(s: Store, op: Op)
    requires Strict(s) && CanDo(s, op) && OpGuard(s, op)
    requires MovesOne(s, op)
    ensures Strict(Do(s, op))
  {
    var d := op.digest;
    var t := Do(s, op);
    assert BitsTrue(d, s.db.blocks[d], s.disk, s.db.queue);
    MovedBits(s, op);
    OneBlock(s, d, t.db.blocks[d], t.disk);
  }

  /** The copy of a copy-up at most adds a file no row claims yet. */
  lemma CopyToHotStrict(s: Store, d: Digest)
    requires Strict(s)
    ensures Strict(Do(s, CopyToHot(d)))
  {
    var t := Do(s, CopyToHot(d));
    forall e | e in s.db.blocks ensures BitsTrue(e, s.db.blocks[e], t.disk, t.db.queue) {
      assert BitsTrue(e, s.db.blocks[e], s.disk, s.db.queue);
    }
  }

  lemma RecordStrict(s: Store, d: Digest, repair: Repair)
    requires Strict(s) && OpGuard(s, Record(d, repair))
    ensures Strict(Do(s, Record(d, repair)))
  {
    if Records(s, d, repair) {
      assert BitsTrue(d, s.db.blocks[d], s.disk, s.db.queue);
      OneBlock(s, d, Recorded(s.db.blocks[d], repair), s.disk);
    }
  }

  lemma DrainStrict(s: Store, d: Digest)
    requires Strict(s) && CanDo(s, Drain(d))
    ensures Strict(Do(s, Drain(d)))
  {
    var t := Do(s, Drain(d));
    forall e | e in s.db.blocks ensures BitsTrue(e, s.db.blocks[e], t.disk, t.db.queue) {
      assert BitsTrue(e, s.db.blocks[e], s.disk, s.db.queue);
    }
  }

  lemma CleanGarbageStrict(s: Store, d: Digest, cutoff: int)
    requires Strict(s) && CanDo(s, CleanGarbage(d, cutoff))
    ensures Strict(Do(s, CleanGarbage(d, cutoff)))
  {
    var t := Do(s, CleanGarbage(d, cutoff));
    assert Naming(s.db.chunks, d) == {};
    forall k | k in s.db.chunks ensures s.db.chunks[k].digest != d {
      assert k !in Naming(s.db.chunks, d);
    }
    forall e | e in t.db.blocks ensures BitsTrue(e, t.db.blocks[e], t.disk, t.db.queue) {
      assert BitsTrue(e, s.db.blocks[e], s.disk, s.db.queue);
    }
  }

  /** Every whole operation, both kinds of cleanup included, keeps the presence bits true, unless it makes a block hot
      whose hot file is queued for deletion, or claims copies on the word of a read or a probe that no longer holds. */
  lemma OpKeepsStrict(s: Store, op: Op)
    requires Strict(s) && CanDo(s, op) && OpGuard(s, op)
    ensures Strict(Do(s, op))
  {
    match op
    case NewBlock(d, row) => NewBlockStrict(s, d, row);
    case ReplaceChunks(file, batch, from, now) => ReplaceStrict(s, file, batch, from, now);
    case CloneFile(source, target) => CloneStrict(s, source, target);
    case Drain(d) => DrainStrict(s, d);
    case CleanGarbage(d, cutoff) => CleanGarbageStrict(s, d, cutoff);
    case ReuseBlock(_, _) => MoveStrict(s, op);
    case Demote(_) => MoveStrict(s, op);
    case CopyToHot(d) => CopyToHotStrict(s, d);
    case ClaimBoth(d, _) => if Claims(s, d) { MoveStrict(s, op); }
    case Record(d, repair) => RecordStrict(s, d, repair);
    case CleanPromoted(_, _) => MoveStrict(s, op);
  }

  /** The guards are exact: inserting, reusing or copying up a block keeps the bits true if and only if its guard
      holds. */
  lemma MakingHotStrictExactly(s: Store, op: Op)
    requires Strict(s) && CanDo(s, op)
    requires (op.ReuseBlock? || op.ClaimBoth? || (op.NewBlock? && op.row.storage == Tiered))
    ensures op.ReuseBlock? ==> (Strict(Do(s, op)) <==> (op.digest, Hot) !in s.db.queue)
    ensures op.NewBlock? ==>
      (Strict(Do(s, op)) <==>
        (op.digest, Hot) !in s.db.queue && FilesMatch(s.disk, op.digest, Encode(op.digest.data, op.row.compressed)))
    ensures op.ClaimBoth? ==> (Strict(Do(s, op)) <==> (Claims(s, op.digest) ==> BothThere(s, op.digest)))
  {
    if OpGuard(s, op) {
      OpKeepsStrict(s, op);
    } else {
      var t := Do(s, op);
      assert t.db.blocks[op.digest].hot;
      assert !BitsTrue(op.digest, t.db.blocks[op.digest], t.disk, t.db.queue);
    }
  }

  /** A copy-up that nothing interrupts: the copy, the probe for the hot file, and the row. */
  function CopyUp(s: Store, d: Digest, now: int): Store {
    var copied := Do(s, CopyToHot(d));
    if (d, Hot) in copied.disk then Do(copied, ClaimBoth(d, now)) else copied
  }

  /** Even so it keeps the bits true if and only if it finds no file at all, or it finds the cold one and the deletion
      of the hot one is not queued. */
  lemma CopyUpStrictExactly(s: Store, d: Digest, now: int)
    requires Strict(s) && Claims(s, d)
    ensures Strict(CopyUp(s, d, now)) <==>
      ((d, Hot) in s.disk || (d, Cold) in s.disk ==> (d, Cold) in s.disk && (d, Hot) !in s.db.queue)
  {
    var copied := Do(s, CopyToHot(d));
    CopyToHotStrict(s, d);
    if (d, Hot) in copied.disk {
      MakingHotStrictExactly(copied, ClaimBoth(d, now));
    }
  }

  /** So does recording a repair: the bits stay true if and only if the CHECK constraints refuse the repair, or the
      copies it declares are still there. */
  lemma RecordStrictExactly(s: Store, d: Digest, repair: Repair)
    requires Strict(s)
    ensures Strict(Do(s, Record(d, repair))) <==> (Records(s, d, repair) ==> StillTrue(s, d, repair))
  {
    if OpGuard(s, Record(d, repair)) {
      RecordStrict(s, d, repair);
    } else {
      var t := Do(s, Record(d, repair));
      assert !BitsTrue(d, t.db.blocks[d], t.disk, t.db.queue);
    }
  }

  /** A repair tells the truth at the moment of the read that decides it. */
  lemma RepairAtReadIsTrue(s: Store, d: Digest, row: BlockRow, down: set<(Digest, Tier)>)
    requires Strict(s) && d in s.db.blocks && s.db.blocks[d].storage == Tiered && s.db.blocks[d].refcount > 0
    requires ReadTiered(row, ProbeIn(s.disk, down, d, Hot), ProbeIn(s.disk, down, d, Cold)).Ok?
    ensures StillTrue(s, d, ReadTiered(row, ProbeIn(s.disk, down, d, Hot), ProbeIn(s.disk, down, d, Cold)).value.repair)
  {
    assert BitsTrue(d, s.db.blocks[d], s.disk, s.db.queue);
  }

  /** The guard of a copy-up holds at the moment of the read that schedules it. */
  lemma CopyUpAtReadIsSafe(s: Store, d: Digest, now: int)
    requires Strict(s) && d in s.db.blocks && s.db.blocks[d].storage == Tiered && s.db.blocks[d].refcount > 0
    requires PreferredTier(s.db.blocks[d]) == Cold || (d, Cold) in s.disk
    ensures Strict(CopyUp(s, d, now))
  {
    assert BitsTrue(d, s.db.blocks[d], s.disk, s.db.queue);
    CopyUpStrictExactly(s, d, now);
  }

  function DoAll(s: Store, ops: seq<Op>): Store
    decreases |ops|
  {
    if ops == [] then s else DoAll(Do(s, ops[0]), ops[1..])
  }

  ghost predicate CanDoAll(s: Store, ops: seq<Op>)
    decreases |ops|
  {
    ops == [] || (CanDo(s, ops[0]) && OpGuard(s, ops[0]) && CanDoAll(Do(s, ops[0]), ops[1..]))
  }

  ghost predicate ChunkReads(s: Store, k: Key) {
    && k in s.db.chunks && s.db.chunks[k].digest in s.db.blocks
    && ReadsBack(s.db.chunks[k].digest, s.db.blocks[s.db.chunks[k].digest], s.disk)
  }

  /** Crash-free runs of writes, unlinks, truncates, clones, demotions, copy-ups, drains and both cleanups:
      presence bits stay true, and every block a file refers to reads back. */
  lemma {:induction false} CrashFreeRuns(s: Store, ops: seq<Op>)
    requires Strict(s) && CanDoAll(s, ops)
    ensures Strict(DoAll(s, ops))
    ensures var t := DoAll(s, ops);
      forall k :: k in t.db.chunks ==> ChunkReads(t, k)
    decreases |ops|
  {
    if ops != [] {
      OpKeepsStrict(s, ops[0]);
      CrashFreeRuns(Do(s, ops[0]), ops[1..]);
    } else {
      forall k | k in s.db.chunks ensures ChunkReads(s, k) {
        StrictGivesReads(s, s.db.chunks[k].digest);
      }
    }
  }

  // ----- after a crash the bits are not to be trusted -----

  /** Cleanup trusts the hot bit.  From any state of the crash invariant it leaves a copy of the block exactly
      when the hot file it did not look for is there. */
  lemma CleanPromotedKeepsCopyExactly(s: Store, d: Digest, cutoff: int)
    requires TablesSafe(s.db, s.disk) && CanDo(s, CleanPromoted(d, cutoff))
    ensures Recoverable(d, Do(s, CleanPromoted(d, cutoff)).db.blocks[d], Do(s, CleanPromoted(d, cutoff)).disk)
       <==> (d, Hot) in s.disk
  {
    assert RowSafe(d, s.db.blocks[d], s.disk, s.db.queue);
  }

  /** Demotion trusts the cold bit.  On any disk whose files for the block match its row it leaves a copy
      exactly when the cold file is there, or the row does not claim one and the hot file can be copied. */
  lemma DemoteKeepsCopyExactly(s: Store, d: Digest)
    requires CanDo(s, Demote(d)) && FilesMatch(s.disk, d, Encode(d.data, s.db.blocks[d].compressed))
    ensures Recoverable(d, Do(s, Demote(d)).db.blocks[d], Do(s, Demote(d)).disk)
       <==> (d, Cold) in s.disk || (!s.db.blocks[d].cold && (d, Hot) in s.disk)
  {
  }

  lemma TwoOps(s: Store, a: Op, b: Op)
    ensures DoAll(s, [a, b]) == Do(Do(s, a), b)
    ensures CanDoAll(s, [a, b]) <==> CanDo(s, a) && OpGuard(s, a) && CanDo(Do(s, a), b) && OpGuard(Do(s, a), b)
  {
    assert [a, b][1..] == [b] && [b][1..] == [];
    assert DoAll(Do(Do(s, a), b), []) == Do(Do(s, a), b);
    assert CanDoAll(Do(Do(s, a), b), []);
    assert CanDoAll(Do(s, a), [b]) <==> CanDo(Do(s, a), b) && OpGuard(Do(s, a), b);
  }

  lemma ThreeOps(s: Store, a: Op, b: Op, c: Op)
    ensures DoAll(s, [a, b, c]) == Do(Do(Do(s, a), b), c)
    ensures CanDoAll(s, [a, b, c]) <==>
      CanDo(s, a) && OpGuard(s, a) && CanDo(Do(s, a), b) && OpGuard(Do(s, a), b) && CanDo(Do(Do(s, a), b), c)
        && OpGuard(Do(Do(s, a), b), c)
  {
    assert [a, b, c][1..] == [b, c];
    TwoOps(Do(s, a), b, c);
  }
}
