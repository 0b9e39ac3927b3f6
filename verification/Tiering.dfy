/** Disk and database as one transition system.  Block files change at once and survive a crash; rows change in
    the open transaction and survive only its commit.  Steps are the sub-steps of writing, unlinking and
    truncating, demotion, copy-up, read repair and the delete-queue drain, in any interleaving. */
module Tiering {
  import opened Types
  import opened Schema
  import opened ChunkTable
  import opened TierRead

  type Disk = map<(Digest, Tier), Payload>

  /** How far the demotion of a block has come inside its transaction. */
  datatype Demotion = NotDemoting | ColdCopied(digest: Digest) | HotUnlinked(digest: Digest)

  datatype State = State(
    committed: Database,
    db: Database,
    disk: Disk,
    written: map<Digest, Payload>,
    demotion: Demotion,
    promoting: set<Digest>,
    draining: set<(Digest, Tier)>)

  datatype Step =
    | WriteFile(digest: Digest, payload: Payload)
    | InsertBlock(digest: Digest, row: BlockRow)
    | MakeHot(digest: Digest, now: int)
    | Replace(file: InodeId, batch: map<int, Replacement>, from: Option<int>, now: int)
    | Clone(source: InodeId, target: InodeId)
    | Namespace(inodes: map<InodeId, Inode>, entries: map<(InodeId, Name), InodeId>)
    | DemoteCopy(digest: Digest)
    | DemoteUnlink(digest: Digest)
    | DemoteRow(digest: Digest)
    | ScheduleCopyUp(digest: Digest)
    | CopyUpFile(digest: Digest)
    | CopyUpRow(digest: Digest, now: int)
    | RecordRepair(digest: Digest, repair: Repair)
    | DrainUnlink(digest: Digest, tier: Tier)
    | DrainDequeue(digest: Digest, tier: Tier)
    | Commit
    | Abort
    | Crash

  /** `write_atomic`: a file that is already there stays untouched. */
  function WriteAtomic(disk: Disk, d: Digest, t: Tier, payload: Payload): Disk {
    if (d, t) in disk then disk else disk[(d, t) := payload]
  }

  /** `copy_atomic`: nothing happens without a source or with a target already there. */
  function CopyAtomic(disk: Disk, d: Digest, from: Tier, to: Tier): Disk {
    if (d, from) in disk && (d, to) !in disk then disk[(d, to) := disk[(d, from)]] else disk
  }

  function Unlink(disk: Disk, d: Digest, t: Tier): Disk {
    disk - {(d, t)}
  }

  /** An UPDATE of one block row; no row, no effect. */
  function SetRow(db: Database, d: Digest, row: BlockRow): Database {
    if d in db.blocks then db.(blocks := db.blocks[d := row]) else db
  }

  /** `set_block_presence` as a write that reuses an existing row does it. */
  function HotAgain(row: BlockRow, now: int): BlockRow {
    row.(hot := true, preferred := Some(Hot), lastPromoted := Some(now))
  }

  function Promoted(row: BlockRow, now: int): BlockRow {
    row.(hot := true, cold := true, preferred := Some(Hot), lastPromoted := Some(now))
  }

  function Demoted(row: BlockRow): BlockRow {
    row.(hot := false, cold := true, preferred := Some(Cold))
  }

  /** The row `insert_blocks` stores. */
  predicate NewRow(d: Digest, row: BlockRow) {
    && row.refcount == 0 && !row.cold && row.coldGc == None && row.lastPromoted == None
    && row.rawSize == |d.data| > 0 && row.storedSize > 0
    && (row.storage == Inline ==>
         row.inlinePayload == Some(Encode(d.data, row.compressed)) && row.preferred == None && !row.hot)
    && (row.storage == Tiered ==> row.inlinePayload == None && row.preferred == Some(Hot) && row.hot)
  }

  function ProbeDisk(disk: Disk, d: Digest, t: Tier): Probe {
    if (d, t) in disk then Found else Missing
  }

  /** The same while some paths cannot be reached. */
  function ProbeIn(disk: Disk, down: set<(Digest, Tier)>, d: Digest, t: Tier): Probe {
    if (d, t) in down then Unavailable else ProbeDisk(disk, d, t)
  }

  /** When the code can take a step. */
  ghost predicate Enabled(s: State, step: Step) {
    match step
    case WriteFile(d, payload) =>
      && payload.data == d.data
      && (d in s.db.blocks ==> s.db.blocks[d].storage == Tiered && payload == Encode(d.data, s.db.blocks[d].compressed))
    case InsertBlock(d, row) =>
      && d !in s.db.blocks && NewRow(d, row) && s.demotion == NotDemoting
      && (row.storage == Tiered ==> d in s.written && s.written[d] == Encode(d.data, row.compressed))
    case MakeHot(d, now) => d in s.db.blocks && s.db.blocks[d].storage == Tiered && !s.db.blocks[d].hot
      && d in s.written
    case Replace(file, batch, from, now) => forall i :: i in batch && batch[i].Put? ==> batch[i].digest in s.db.blocks
    case Clone(source, target) => forall k :: k in s.db.chunks ==> k.file != target
    case Namespace(_, _) => true
    case DemoteCopy(d) => s.demotion == NotDemoting && d in s.db.blocks && s.db.blocks[d].storage == Tiered
      && s.db.blocks[d].hot
    case DemoteUnlink(d) => s.demotion == ColdCopied(d)
    case DemoteRow(d) => s.demotion == HotUnlinked(d) && (d in s.db.blocks ==> s.db.blocks[d].storage == Tiered)
    case ScheduleCopyUp(d) =>
      && d in s.committed.blocks && s.committed.blocks[d].storage == Tiered
      && (PreferredTier(s.committed.blocks[d]) == Cold || (d, Cold) in s.disk)
    case CopyUpFile(d) => d in s.promoting
    case CopyUpRow(d, now) => d in s.promoting && (d in s.db.blocks ==> s.db.blocks[d].storage == Tiered)
    case RecordRepair(d, repair) => repair.cold == Some(true) ==> (d, Cold) in s.disk
    case DrainUnlink(d, t) => (d, t) in s.committed.queue
    case DrainDequeue(d, t) => (d, t) in s.draining && s.db == s.committed && s.written == map[]
      && s.demotion == NotDemoting
    case Commit => !s.demotion.HotUnlinked?
    case Abort => true
    case Crash => true
  }

  function Dequeue(db: Database, item: (Digest, Tier)): Database {
    db.(queue := db.queue - {item})
  }

  function Next(s: State, step: Step): State {
    match step
    case WriteFile(d, payload) => s.(disk := WriteAtomic(s.disk, d, Hot, payload), written := s.written[d := payload])
    case InsertBlock(d, row) => s.(db := s.db.(blocks := s.db.blocks[d := row]))
    case MakeHot(d, now) => s.(db := if d in s.db.blocks then SetRow(s.db, d, HotAgain(s.db.blocks[d], now)) else s.db)
    case Replace(file, batch, from, now) => s.(db := ReplaceFileChunks(s.db, file, batch, from, now))
    case Clone(source, target) => s.(db := CloneChunks(s.db, source, target))
    case Namespace(inodes, entries) => s.(db := s.db.(inodes := inodes, entries := entries))
    case DemoteCopy(d) =>
      s.(disk := if d in s.db.blocks && s.db.blocks[d].cold then s.disk else CopyAtomic(s.disk, d, Hot, Cold),
         demotion := ColdCopied(d))
    case DemoteUnlink(d) => s.(disk := Unlink(s.disk, d, Hot), demotion := HotUnlinked(d))
    case DemoteRow(d) =>
      s.(db := if d in s.db.blocks then SetRow(s.db, d, Demoted(s.db.blocks[d])) else s.db, demotion := NotDemoting)
    case ScheduleCopyUp(d) => s.(promoting := s.promoting + {d})
    case CopyUpFile(d) => s.(disk := CopyAtomic(s.disk, d, Cold, Hot))
    case CopyUpRow(d, now) =>
      s.(db := if d in s.db.blocks then SetRow(s.db, d, Promoted(s.db.blocks[d], now))
        else s.db, promoting := s.promoting - {d})
    case RecordRepair(d, repair) =>
      s.(db := if d in s.db.blocks then SetRow(s.db, d, Recorded(s.db.blocks[d], repair)) else s.db)
    case DrainUnlink(d, t) => s.(disk := Unlink(s.disk, d, t), draining := s.draining + {(d, t)})
    case DrainDequeue(d, t) =>
      s.(db := Dequeue(s.db, (d, t)), committed := Dequeue(s.committed, (d, t)), draining := s.draining - {(d, t)})
    case Commit => s.(committed := s.db, written := map[], demotion := NotDemoting)
    case Abort => s.(db := s.committed, written := map[], demotion := NotDemoting)
    case Crash => s.(db := s.committed, written := map[], demotion := NotDemoting, promoting := {}, draining := {})
  }

  /** The two things the code does not check.  A file left over for the digest has the encoding now being
      written, because `write_atomic` keeps it; and a block does not become hot by insertion while the
      deletion of its hot file is still queued, unless a cold file backs it up. */
  ghost predicate Guard(s: State, step: Step) {
    match step
    case WriteFile(d, payload) => forall t :: (d, t) in s.disk ==> s.disk[(d, t)] == payload
    case InsertBlock(d, row) => row.storage == Tiered ==> (d, Hot) !in s.db.queue || (d, Cold) in s.disk
    case _ => true
  }

  // ----- the invariant -----

  ghost predicate FilesMatch(disk: Disk, d: Digest, payload: Payload) {
    forall t :: (d, t) in disk ==> disk[(d, t)] == payload
  }

  /** Somewhere a copy will stay: a cold file, or a hot file whose deletion is not queued. */
  predicate Kept(disk: Disk, queue: set<(Digest, Tier)>, d: Digest) {
    (d, Cold) in disk || ((d, Hot) in disk && (d, Hot) !in queue)
  }

  ghost predicate RowSafe(d: Digest, row: BlockRow, disk: Disk, queue: set<(Digest, Tier)>) {
    && RowCheck(row)
    && (row.storage == Inline ==> row.inlinePayload == Some(Encode(d.data, row.compressed)))
    && (row.storage == Tiered ==> Kept(disk, queue, d) && FilesMatch(disk, d, Encode(d.data, row.compressed)))
    && (row.cold ==> (d, Cold) in disk)
    && row.rawSize == |d.data|
  }

  ghost predicate TablesSafe(db: Database, disk: Disk) {
    forall d :: d in db.blocks ==> RowSafe(d, db.blocks[d], disk, db.queue)
  }

  ghost predicate Inv(s: State) {
    && RefsExact(s.committed) && RefsExact(s.db)
    && TablesSafe(s.committed, s.disk) && TablesSafe(s.db, s.disk)
    && s.committed.queue <= s.db.queue
    && (forall item :: item in s.db.queue ==> item.1 == Hot)
    && (forall item :: item in s.draining ==> item.1 == Hot)
    && (s.demotion != NotDemoting ==> (s.demotion.digest, Cold) in s.disk)
    && (forall d :: d in s.promoting ==> (d, Cold) in s.disk)
    && (forall d :: d in s.written ==> FilesMatch(s.disk, d, s.written[d]))
    && (forall d :: d in s.written && (d, Hot) !in s.db.queue ==> (d, Hot) in s.disk || (d, Cold) in s.disk)
  }

  /** The payload of every committed chunk can be had: its block row exists, and either the payload is in the
      row or a file on some tier decodes to the block. */
  ghost predicate NoLoss(s: State) {
    forall k :: k in s.committed.chunks ==>
      && s.committed.chunks[k].digest in s.committed.blocks
      && Recoverable(s.committed.chunks[k].digest, s.committed.blocks[s.committed.chunks[k].digest], s.disk)
  }

  predicate Recoverable(d: Digest, row: BlockRow, disk: Disk) {
    var payload := Encode(d.data, row.compressed);
    match row.storage
    case Inline => row.inlinePayload == Some(payload)
    case Tiered => ((d, Hot) in disk && disk[(d, Hot)] == payload) || ((d, Cold) in disk && disk[(d, Cold)] == payload)
  }

  /** In every state of the invariant, nothing a committed file refers to has lost its last copy. */
  lemma InvGivesNoLoss(s: State)
    requires Inv(s)
    ensures NoLoss(s)
  {
    forall k | k in s.committed.chunks
      ensures s.committed.chunks[k].digest in s.committed.blocks
      ensures Recoverable(s.committed.chunks[k].digest, s.committed.blocks[s.committed.chunks[k].digest], s.disk)
    {
      var d := s.committed.chunks[k].digest;
      assert RowSafe(d, s.committed.blocks[d], s.disk, s.committed.queue);
    }
  }

  // ----- runs -----

  function Exec(s: State, steps: seq<Step>): State
    decreases |steps|
  {
    if steps == [] then s else Exec(Next(s, steps[0]), steps[1..])
  }

  /** Every step is one the code can take and meets its guard. */
  ghost predicate GuardedRun(s: State, steps: seq<Step>)
    decreases |steps|
  {
    steps == [] || (Enabled(s, steps[0]) && Guard(s, steps[0]) && GuardedRun(Next(s, steps[0]), steps[1..]))
  }

  ghost predicate Reaches(s: State, t: State) {
    exists steps :: GuardedRun(s, steps) && Exec(s, steps) == t
  }

  lemma {:induction false} RunThen(s: State, first: seq<Step>, second: seq<Step>)
    ensures Exec(s, first + second) == Exec(Exec(s, first), second)
    ensures GuardedRun(s, first) && GuardedRun(Exec(s, first), second) ==> GuardedRun(s, first + second)
    decreases |first|
  {
    if first == [] {
      assert first + second == second;
    } else {
      assert (first + second)[1..] == first[1..] + second;
      RunThen(Next(s, first[0]), first[1..], second);
    }
  }

  lemma RunOne(s: State, step: Step)
    ensures Exec(s, [step]) == Next(s, step)
    ensures GuardedRun(s, [step]) <==> Enabled(s, step) && Guard(s, step)
  {
    assert [step][1..] == [];
    assert Exec(Next(s, step), []) == Next(s, step);
    assert GuardedRun(Next(s, step), []);
  }

  lemma RunOneMore(s: State, steps: seq<Step>, step: Step)
    requires GuardedRun(s, steps) && Enabled(Exec(s, steps), step) && Guard(Exec(s, steps), step)
    ensures GuardedRun(s, steps + [step]) && Exec(s, steps + [step]) == Next(Exec(s, steps), step)
  {
    RunThen(s, steps, [step]);
    RunOne(Exec(s, steps), step);
  }

  lemma RunTwo(s: State, first: Step, second: Step)
    requires Enabled(s, first) && Guard(s, first)
    requires Enabled(Next(s, first), second) && Guard(Next(s, first), second)
    ensures GuardedRun(s, [first, second]) && Exec(s, [first, second]) == Next(Next(s, first), second)
  {
    RunOne(s, first);
    RunOneMore(s, [first], second);
    assert [first] + [second] == [first, second];
  }

  lemma ReachesStep(s: State, t: State, step: Step)
    requires Reaches(s, t) && Enabled(t, step) && Guard(t, step)
    ensures Reaches(s, Next(t, step))
  {
    var steps :| GuardedRun(s, steps) && Exec(s, steps) == t;
    RunOneMore(s, steps, step);
  }

  lemma ReachesSelf(s: State)
    ensures Reaches(s, s)
  {
    assert GuardedRun(s, []) && Exec(s, []) == s;
  }

  lemma ReachesThen(s: State, t: State, u: State)
    requires Reaches(s, t) && Reaches(t, u)
    ensures Reaches(s, u)
  {
    var first :| GuardedRun(s, first) && Exec(s, first) == t;
    var second :| GuardedRun(t, second) && Exec(t, second) == u;
    RunThen(s, first, second);
    assert GuardedRun(s, first + second);
  }

  /** A mounted file system with no files: only the root directory. */
  const EMPTY_DATABASE := Database(map[1 := Inode(Dir, 0, 1)], map[], map[], map[], {})

  const START := State(EMPTY_DATABASE, EMPTY_DATABASE, map[], map[], NotDemoting, {}, {})

  /** A block of one byte, for examples. */
  const BLOCK := Digest([7])

  /** Its row right after it was written. */
  const FRESH_ROW := BlockRow(Tiered, false, 1, 1, 0, true, false, Some(Hot), None, None, None)

  /** With both tiers reachable, reading the block gives back the bytes its digest stands for. */
  ghost predicate ReadsBack(d: Digest, row: BlockRow, disk: Disk) {
    match row.storage
    case Inline => row.inlinePayload == Some(Encode(d.data, row.compressed))
    case Tiered =>
      var r := ReadTiered(row, ProbeDisk(disk, d, Hot), ProbeDisk(disk, d, Cold));
      r.Ok? && (d, r.value.tier) in disk && disk[(d, r.value.tier)] == Encode(d.data, row.compressed)
  }

  ghost predicate ReadsAll(s: State) {
    forall k :: k in s.committed.chunks ==>
      && s.committed.chunks[k].digest in s.committed.blocks
      && ReadsBack(s.committed.chunks[k].digest, s.committed.blocks[s.committed.chunks[k].digest], s.disk)
  }
}
