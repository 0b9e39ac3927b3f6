/** The fsck pass as it runs: a loop over the block records loaded at the start, a loop over the files found on
    disk at the start, each repair applied where its issue is found.  Repairs of rows are one transaction. */
module Checker {
  import opened Types
  import opened Schema
  import opened ChunkTable
  import opened TierRead
  import opened Tiering
  import opened Presence
  import opened Fsck

  function Tagged(codes: seq<Code>, d: Digest): seq<Issue> {
    seq(|codes|, i requires 0 <= i < |codes| => Issue(codes[i], d))
  }

  /** The row after the middle part of the check, `counted` being the row with its count corrected. */
  function BodyRow(row: BlockRow, counted: BlockRow, actual: nat, hot: Probe, cold: Probe): Option<BlockRow> {
    if IsColdGarbage(row, actual) then
      if cold == Missing then None else Some(counted.(hot := hot == Found))
    else if actual == 0 then
      if ColdUnverified(row, hot, cold) then Some(counted) else None
    else if row.storage == Inline then
      Some(counted)
    else if ColdUnverified(row, hot, cold) then
      Some(counted.(hot := hot == Found))
    else if hot != Found && cold != Found then
      Some(counted)
    else
      Some(Placed(row, counted, hot == Found, cold == Found))
  }

  function Placed(row: BlockRow, counted: BlockRow, hot: bool, cold: bool): BlockRow {
    var mismatch := row.hot != hot || row.cold != cold;
    counted.(hot := if mismatch then hot else counted.hot, cold := if mismatch then cold else counted.cold,
             preferred := if !PreferredExists(row, hot, cold) then Some(if hot then Hot else Cold)
                          else if mismatch then Some(RepairedPreference(row, hot, cold)) else counted.preferred)
  }

  predicate NoPresence(row: BlockRow, actual: nat) {
    actual != 0 && row.storage == Tiered && !row.hot && !row.cold
  }

  function PresenceFromDisk(row: BlockRow, hot: bool, cold: bool): BlockRow {
    row.(hot := hot, cold := cold, preferred := Some(if hot then Hot else Cold))
  }

  /** The three stages of the loop body amount to the verdict. */
  lemma StagesAgree(row: BlockRow, actual: nat, hot: Probe, cold: Probe)
    ensures var body := BodyRow(row, row.(refcount := actual), actual, hot, cold);
      RepairedRow(row, actual, hot, cold)
      == if body.Some? && NoPresence(row, actual) then Some(PresenceFromDisk(body.value, hot == Found, cold == Found))
        else body
    ensures NoPresence(row, actual) ==> BodyRow(row, row.(refcount := actual), actual, hot, cold).Some?
  {
  }

  lemma LogThree(issues: seq<Issue>, a: seq<Code>, b: seq<Code>, c: seq<Code>, d: Digest)
    ensures issues + Tagged(a, d) + Tagged(b, d) + Tagged(c, d) == issues + Tagged(a + b + c, d)
  {
  }

  /** The tables with one record replaced or deleted. */
  function WithRow(blocks: map<Digest, BlockRow>, d: Digest, row: Option<BlockRow>): map<Digest, BlockRow> {
    if row.Some? then blocks[d := row.value] else blocks - {d}
  }

  lemma WithRowTwice(blocks: map<Digest, BlockRow>, d: Digest, x: Option<BlockRow>, y: Option<BlockRow>)
    ensures WithRow(WithRow(blocks, d, x), d, y) == WithRow(blocks, d, y)
  {
  }

  function IssuesHere(s: Store, down: Down, repair: bool, d: Digest): seq<Code> {
    if d in s.db.blocks
    then IssuesOf(s.db.blocks[d], Actual(s.db.chunks, d), ProbeIn(s.disk, down, d, Hot), ProbeIn(s.disk, down, d, Cold),
      repair)
    else []
  }

  /** Tables after the records in `done` were handled. */
  function RowsDone(s: Store, down: Down, done: set<Digest>): map<Digest, BlockRow> {
    map d | d in s.db.blocks && (d in done ==> Verdict(s, down, d).Some?) ::
      if d in done then Verdict(s, down, d).value else s.db.blocks[d]
  }

  function FilesDone(s: Store, down: Down, done: set<Digest>): Disk {
    map f | f in s.disk && (f in down || !(f.0 in done && f.0 in s.db.blocks && Drops(s, down, f.0))) :: s.disk[f]
  }

  /** Both files of a digest, where they can be reached, are gone. */
  function Freed(disk: Disk, down: Down, d: Digest): Disk {
    disk - ({(d, Hot), (d, Cold)} - down)
  }

  lemma RowsDoneStep(s: Store, down: Down, done: set<Digest>, d: Digest)
    requires d in s.db.blocks && d !in done
    ensures d in RowsDone(s, down, done) && RowsDone(s, down, done)[d] == s.db.blocks[d]
    ensures WithRow(RowsDone(s, down, done), d, Verdict(s, down, d)) == RowsDone(s, down, done + {d})
  {
  }

  lemma FilesDoneStep(s: Store, down: Down, done: set<Digest>, d: Digest)
    requires d in s.db.blocks && d !in done
    ensures forall t :: (d, t) in FilesDone(s, down, done) <==> (d, t) in s.disk
    ensures (if Drops(s, down, d) then Freed(FilesDone(s, down, done), down, d) else FilesDone(s, down, done))
      == FilesDone(s, down, done + {d})
  {
    forall f: (Digest, Tier) | f.0 == d ensures f == (d, Hot) || f == (d, Cold) {
      assert f.1 == Hot || f.1 == Cold;
    }
  }

  function WithoutOrphans(disk: Disk, down: Down, blocks: map<Digest, BlockRow>, done: set<Digest>): Disk {
    map f | f in disk && (f in down || !(f.0 in done && Orphan(blocks, f.0))) :: disk[f]
  }

  // ----- inodes, chunks and directory entries -----

  /** What the checks of the other tables report.  Only wrong link counts are repaired. */
  datatype MetadataReport = MetadataReport(
    emptyFiles: set<InodeId>,
    missingBlock: set<Key>,
    missingInode: set<Key>,
    wrongSize: set<Key>,
    notOfFile: set<Key>,
    badEntries: set<(InodeId, Name)>,
    wrongLinks: set<InodeId>,
    unscannedTiers: set<Tier>)

  /** Nonempty files without chunks, which are looked for only when there is no block record at all. */
  function EmptyFiles(inodes: map<InodeId, Inode>, chunks: Chunks, hadRecords: bool): set<InodeId> {
    set id | id in inodes && !hadRecords && inodes[id].kind == File && inodes[id].size > 0 && !HasChunk(chunks, id)
  }

  predicate HasChunk(chunks: Chunks, id: InodeId) {
    exists k :: k in chunks && k.file == id
  }

  predicate BadEntry(db: Database, e: (InodeId, Name))
    requires e in db.entries
  {
    e.0 !in db.inodes || db.entries[e] !in db.inodes || db.inodes[e.0].kind != Dir
  }

  function WrongLinks(db: Database): set<InodeId> {
    set id | id in db.inodes && db.inodes[id].nlink != ExpectedLinks(db, id)
  }

  /** The five queries of `_check_chunk_metadata`. */
  function ChunkMetadata(db: Database): MetadataReport {
    var missingBlock := set k | k in db.chunks && db.chunks[k].digest !in db.blocks;
    var missingInode := set k | k in db.chunks && k.file !in db.inodes;
    var wrongSize := set k | k in db.chunks && db.chunks[k].digest in db.blocks
      && db.chunks[k].size != db.blocks[db.chunks[k].digest].rawSize;
    var notOfFile := set k | k in db.chunks && k.file in db.inodes && db.inodes[k.file].kind != File;
    var badEntries := set e | e in db.entries && BadEntry(db, e);
    MetadataReport({}, missingBlock, missingInode, wrongSize, notOfFile, badEntries, {}, {})
  }

  function ReportOf(db: Database, hadRecords: bool): MetadataReport {
    ChunkMetadata(db).(emptyFiles := EmptyFiles(db.inodes, db.chunks, hadRecords), wrongLinks := WrongLinks(db))
  }

  /** What the checks of the other tables report, and nothing else: chunks whose block or inode is missing, whose size
      is not that of the block, or that belong to no file; entries that do not join a directory and an inode; inodes
      whose link count is not the number of their entries, one for the root; files that should have chunks. */
  lemma MetadataReportedExactly(db: Database, hadRecords: bool)
    ensures forall k :: k in ReportOf(db, hadRecords).missingBlock <==>
      k in db.chunks && db.chunks[k].digest !in db.blocks
    ensures forall k :: k in ReportOf(db, hadRecords).missingInode <==> k in db.chunks && k.file !in db.inodes
    ensures forall k :: k in ReportOf(db, hadRecords).wrongSize <==>
      k in db.chunks && db.chunks[k].digest in db.blocks && db.chunks[k].size != db.blocks[db.chunks[k].digest].rawSize
    ensures forall k :: k in ReportOf(db, hadRecords).notOfFile <==>
      k in db.chunks && k.file in db.inodes && db.inodes[k.file].kind != File
    ensures forall e :: e in ReportOf(db, hadRecords).badEntries <==>
      e in db.entries && !(e.0 in db.inodes && db.inodes[e.0].kind == Dir && db.entries[e] in db.inodes)
    ensures forall id :: id in ReportOf(db, hadRecords).wrongLinks <==>
      id in db.inodes && db.inodes[id].nlink != if id == 1 then 1 else |set e | e in db.entries && db.entries[e] == id|
    ensures forall id :: id in ReportOf(db, hadRecords).emptyFiles <==>
      && !hadRecords && id in db.inodes && db.inodes[id].kind == File && db.inodes[id].size > 0
      && forall k :: k in db.chunks ==> k.file != id
  {
    forall id ensures EntriesOf(db.entries, id) == set e | e in db.entries && db.entries[e] == id {
    }
  }

  lemma ReportInParts(before: Database, db: Database, hadRecords: bool)
    requires db.inodes == before.inodes && db.chunks == before.chunks
    ensures ReportOf(db, hadRecords) == ChunkMetadata(db).(
      emptyFiles := EmptyFiles(before.inodes, before.chunks, hadRecords), wrongLinks := WrongLinks(db))
  {
  }

  ghost predicate SomeFails(s: Store, down: Down) {
    exists d :: d in s.db.blocks && Fails(s, down, d)
  }

  ghost predicate NoneFails(s: Store, down: Down, done: set<Digest>) {
    forall d :: d in done && d in s.db.blocks ==> !Fails(s, down, d)
  }

  ghost predicate Splits(all: set<Digest>, todo: set<Digest>, done: set<Digest>) {
    todo + done == all && todo !! done
  }

  lemma SplitsMore(all: set<Digest>, todo: set<Digest>, done: set<Digest>, d: Digest)
    requires Splits(all, todo, done) && d in todo
    ensures Splits(all, todo - {d}, done + {d})
  {
  }

  class Checker {
    var db: Database
    var disk: Disk
    var issues: seq<Issue>
    const down: Down
    const rootsDown: set<Tier>
    const repair: bool

    constructor (db: Database, disk: Disk, down: Down, rootsDown: set<Tier>, repair: bool)
      ensures this.db == db && this.disk == disk && this.issues == []
      ensures this.down == down && this.rootsDown == rootsDown && this.repair == repair
    {
      this.db, this.disk, this.issues := db, disk, [];
      this.down, this.rootsDown, this.repair := down, rootsDown, repair;
    }

    /** No path can be reached below a tier directory that cannot. */
    predicate Nested()
      reads this`disk
    {
      forall f :: f in disk && f.1 in rootsDown ==> f in down
    }

    /** `_scan_disk_blocks`: the digests of the files it can see, and the tiers it cannot look into. */
    method ScanDiskBlocks() returns (found: set<Digest>, unscanned: set<Tier>)
      requires Nested()
      ensures found == (set f | f in disk && f !in down :: f.0) && unscanned == rootsDown
    {
      var hot := if Hot in rootsDown then {} else set f | f in disk && f !in down && f.1 == Hot :: f.0;
      var cold := if Cold in rootsDown then {} else set f | f in disk && f !in down && f.1 == Cold :: f.0;
      found := hot + cold;
      unscanned := (if Hot in rootsDown then {Hot} else {}) + (if Cold in rootsDown then {Cold} else {});
      SeenInEitherTier(disk, down, rootsDown);
    }

    method Report(code: Code, d: Digest)
      modifies this`issues
      ensures issues == old(issues) + [Issue(code, d)]
    {
      issues := issues + [Issue(code, d)];
    }

    /** A repair of one record: an UPDATE, or a DELETE when there is no row. */
    method Write(d: Digest, row: Option<BlockRow>)
      modifies this`db
      ensures db == if repair then old(db).(blocks := WithRow(old(db).blocks, d, row)) else old(db)
    {
      if repair {
        db := db.(blocks := WithRow(db.blocks, d, row));
      }
    }

    /** `_unlink_block_file`. */
    method UnlinkBlockFile(d: Digest, t: Tier)
      modifies this`disk, this`issues
      ensures disk == old(disk) - ({(d, t)} - down)
      ensures issues == old(issues) + Tagged(Undeletable(ProbeIn(old(disk), down, d, t)), d)
    {
      if (d, t) in down {
        Report(PayloadUnavailable, d);
      } else if (d, t) in disk {
        disk := disk - {(d, t)};
      }
    }

    /** `_delete_disk_block_files` for both tiers. */
    method DeleteFiles(d: Digest)
      modifies this`disk, this`issues
      ensures disk == Freed(old(disk), down, d)
      ensures issues == old(issues)
        + Tagged(Undeletable(ProbeIn(old(disk), down, d, Hot)) + Undeletable(ProbeIn(old(disk), down, d, Cold)), d)
    {
      UnlinkBlockFile(d, Hot);
      UnlinkBlockFile(d, Cold);
    }

    method CheckGarbage(d: Digest, row: BlockRow, counted: BlockRow, hot: Probe, cold: Probe)
      returns (after: Option<BlockRow>)
      requires repair ==> d in db.blocks && db.blocks[d] == counted
      requires counted.hot == row.hot
      modifies this`db, this`issues
      ensures after == if cold == Missing then None else Some(counted.(hot := hot == Found))
      ensures issues == old(issues)
        + Tagged(HotIssues(row, hot)
          + (if cold == Unavailable then [PayloadUnavailable]
            else if cold == Missing then [MissingColdGarbage] else []), d)
      ensures db == if repair then old(db).(blocks := WithRow(old(db).blocks, d, after)) else old(db)
    {
      after := Some(counted);
      if row.hot != (hot == Found) {
        Report(PresenceMismatch, d);
        after := Some(counted.(hot := hot == Found));
        Write(d, after);
      }
      if cold == Unavailable {
        Report(PayloadUnavailable, d);
      } else if cold == Missing {
        Report(MissingColdGarbage, d);
        after := None;
        Write(d, after);
      }
    }

    /** A record nobody refers to goes with its files, unless a cold copy cannot be looked at. */
    method CheckUnreferenced(d: Digest, row: BlockRow, counted: BlockRow, hot: Probe, cold: Probe)
      returns (after: Option<BlockRow>)
      requires hot == ProbeIn(disk, down, d, Hot) && cold == ProbeIn(disk, down, d, Cold)
      requires repair ==> d in db.blocks && db.blocks[d] == counted
      modifies this`db, this`disk, this`issues
      ensures after == if ColdUnverified(row, hot, cold) then Some(counted) else None
      ensures issues == old(issues)
        + Tagged((if repair && !ColdUnverified(row, hot, cold) then Undeletable(hot) + Undeletable(cold) else [])
          + [UnreferencedRecord], d)
      ensures db == if repair then old(db).(blocks := WithRow(old(db).blocks, d, after)) else old(db)
      ensures disk == if repair && !ColdUnverified(row, hot, cold) then Freed(old(disk), down, d) else old(disk)
    {
      after := Some(counted);
      if !ColdUnverified(row, hot, cold) {
        after := None;
        if repair {
          Write(d, None);
          DeleteFiles(d);
        }
      }
      Report(UnreferencedRecord, d);
    }

    /** A referenced block whose cold copy cannot be looked at: only the hot bit is brought up to date, which the
        database refuses when it is the last one. */
    method CheckUnverified(d: Digest, row: BlockRow, counted: BlockRow, hot: Probe) returns (after: BlockRow, ok: bool)
      requires counted.hot == row.hot
      requires repair ==> d in db.blocks && db.blocks[d] == counted
      modifies this`db, this`issues
      ensures ok <==> !(repair && row.hot && hot != Found && !row.cold)
      ensures after == counted.(hot := hot == Found)
      ensures ok ==> issues == old(issues) + Tagged([PayloadUnavailable] + HotIssues(row, hot), d)
      ensures ok ==> db == if repair then old(db).(blocks := WithRow(old(db).blocks, d, Some(after))) else old(db)
    {
      after := counted.(hot := hot == Found);
      Report(PayloadUnavailable, d);
      if row.hot != (hot == Found) {
        if repair && hot != Found && !row.cold {
          return after, false;
        }
        Report(PresenceMismatch, d);
        Write(d, Some(after));
      }
      return after, true;
    }

    method CheckPlacement(d: Digest, row: BlockRow, counted: BlockRow, hot: bool, cold: bool) returns (after: BlockRow)
      requires repair ==> d in db.blocks && db.blocks[d] == counted
      requires hot || cold
      modifies this`db, this`issues
      ensures after == Placed(row, counted, hot, cold)
      ensures db == if repair then old(db).(blocks := WithRow(old(db).blocks, d, Some(after))) else old(db)
      ensures issues == old(issues) + Tagged(PlacementIssues(row, hot, cold), d)
    {
      after := counted;
      if row.hot != hot || row.cold != cold {
        Report(PresenceMismatch, d);
        after := after.(hot := hot, cold := cold, preferred := Some(RepairedPreference(row, hot, cold)));
        Write(d, Some(after));
      }
      if !PreferredExists(row, hot, cold) {
        Report(PreferredTierMissing, d);
        after := after.(preferred := Some(if hot then Hot else Cold));
        Write(d, Some(after));
      }
    }

    method CheckBody(d: Digest, row: BlockRow, counted: BlockRow, actual: nat, hot: Probe, cold: Probe)
      returns (after: Option<BlockRow>, ok: bool)
      requires repair ==> d in db.blocks && db.blocks[d] == counted
      requires counted == row.(refcount := actual) && hot == ProbeIn(disk, down, d, Hot)
      requires cold == ProbeIn(disk, down, d, Cold)
      modifies this`db, this`disk, this`issues
      ensures ok <==> !(repair && Refused(row, actual, hot, cold))
      ensures after == BodyRow(row, counted, actual, hot, cold)
      ensures ok ==> issues == old(issues) + Tagged(BodyIssues(row, actual, hot, cold, repair), d)
      ensures ok ==> db == if repair then old(db).(blocks := WithRow(old(db).blocks, d, after)) else old(db)
      ensures disk == if repair && DropsFiles(row, actual, hot, cold) then Freed(old(disk), down, d) else old(disk)
    {
      after, ok := Some(counted), true;
      if IsColdGarbage(row, actual) {
        after := CheckGarbage(d, row, counted, hot, cold);
      } else if actual == 0 {
        after := CheckUnreferenced(d, row, counted, hot, cold);
      } else if row.storage == Inline {
        if row.inlinePayload.None? {
          Report(MissingInlinePayload, d);
        }
      } else {
        after, ok := CheckReferenced(d, row, counted, actual, hot, cold);
      }
    }

    /** The branches of the record check for a referenced tiered block. */
    method CheckReferenced(d: Digest, row: BlockRow, counted: BlockRow, ghost actual: nat, hot: Probe, cold: Probe)
      returns (after: Option<BlockRow>, ok: bool)
      requires actual > 0 && row.storage == Tiered && counted == row.(refcount := actual)
      requires repair ==> d in db.blocks && db.blocks[d] == counted
      modifies this`db, this`issues
      ensures ok <==> !(repair && Refused(row, actual, hot, cold))
      ensures after == BodyRow(row, counted, actual, hot, cold)
      ensures ok ==> issues == old(issues) + Tagged(BodyIssues(row, actual, hot, cold, repair), d)
      ensures ok ==> db == if repair then old(db).(blocks := WithRow(old(db).blocks, d, after)) else old(db)
    {
      after, ok := Some(counted), true;
      if ColdUnverified(row, hot, cold) {
        var kept;
        kept, ok := CheckUnverified(d, row, counted, hot);
        after := Some(kept);
      } else if hot != Found && cold != Found {
        Report(MissingBlockFile, d);
      } else {
        var placed := CheckPlacement(d, row, counted, hot == Found, cold == Found);
        after := Some(placed);
      }
    }

    method CheckCount(d: Digest, row: BlockRow, actual: nat)
      requires d in db.blocks && db.blocks[d] == row
      modifies this`db, this`issues
      ensures issues == old(issues) + Tagged(CountIssues(row, actual), d)
      ensures db == if repair then old(db).(blocks := WithRow(old(db).blocks, d, Some(row.(refcount := actual))))
        else old(db)
    {
      if row.refcount != actual {
        Report(RefcountMismatch, d);
        Write(d, Some(row.(refcount := actual)));
      }
    }

    method CheckPresence(d: Digest, row: BlockRow, after: Option<BlockRow>, actual: nat, hot: bool, cold: bool)
      returns (final: Option<BlockRow>)
      requires NoPresence(row, actual) ==> after.Some?
      requires repair ==> db == db.(blocks := WithRow(db.blocks, d, after))
      modifies this`db, this`issues
      ensures final == if NoPresence(row, actual) then Some(PresenceFromDisk(after.value, hot, cold)) else after
      ensures issues == old(issues) + Tagged(PresenceIssues(row, actual), d)
      ensures db == if repair then old(db).(blocks := WithRow(old(db).blocks, d, final)) else old(db)
    {
      final := after;
      if actual != 0 && row.storage == Tiered && !row.hot && !row.cold {
        Report(MissingPresence, d);
        final := Some(PresenceFromDisk(after.value, hot, cold));
        Write(d, final);
      }
    }

    /** One iteration of `_check_block_records`; `row` is the record as loaded at the start. */
    method CheckBlock(d: Digest, row: BlockRow, actual: nat) returns (ok: bool)
      requires d in db.blocks && db.blocks[d] == row
      modifies this`db, this`disk, this`issues
      ensures var hot, cold := ProbeIn(old(disk), down, d, Hot), ProbeIn(old(disk), down, d, Cold);
        && (ok <==> !(repair && Refused(row, actual, hot, cold)))
        && (ok ==> issues == old(issues) + Tagged(IssuesOf(row, actual, hot, cold, repair), d))
        && (ok ==>
             db == if repair then old(db).(blocks := WithRow(old(db).blocks, d, RepairedRow(row, actual, hot, cold)))
                   else old(db))
        && disk == if repair && DropsFiles(row, actual, hot, cold) then Freed(old(disk), down, d) else old(disk)
    {
      var hot, cold := ProbeIn(disk, down, d, Hot), ProbeIn(disk, down, d, Cold);
      var counted := row.(refcount := actual);
      CheckCount(d, row, actual);
      var after;
      after, ok := CheckBody(d, row, counted, actual, hot, cold);
      if !ok {
        return;
      }
      WithRowTwice(old(db).blocks, d, Some(counted), after);
      WithRowTwice(old(db).blocks, d, after, after);
      StagesAgree(row, actual, hot, cold);
      var final := CheckPresence(d, row, after, actual, hot == Found, cold == Found);
      WithRowTwice(old(db).blocks, d, after, final);
      LogThree(old(issues), CountIssues(row, actual), BodyIssues(row, actual, hot, cold, repair),
        PresenceIssues(row, actual), d);
    }

    /** The loop over the records, begun on `start`, when those in `done` were handled. */
    ghost predicate At(start: Store, first: seq<Issue>, done: set<Digest>)
      reads this
    {
      && db == (if repair then start.db.(blocks := RowsDone(start, down, done)) else start.db)
      && disk == (if repair then FilesDone(start, down, done) else start.disk)
      && LogOf(start, down, repair, done, first, issues)
    }

    lemma AtStart()
      ensures At(Store(db, disk), issues, {})
    {
      NothingDone(Store(db, disk), down);
    }

    /** One record more is done. */
    method Advance(ghost start: Store, ghost first: seq<Issue>, ghost done: set<Digest>, d: Digest, row: BlockRow,
                   actual: nat)
      returns (ok: bool)
      requires d in start.db.blocks && start.db.blocks[d] == row && d !in done && actual == Actual(start.db.chunks, d)
      requires At(start, first, done)
      modifies this`db, this`disk, this`issues
      ensures ok && repair && NoneFails(start, down, done) ==> NoneFails(start, down, done + {d})
      ensures !ok ==> repair && SomeFails(start, down)
      ensures ok ==> At(start, first, done + {d})
      ensures disk == if repair then FilesDone(start, down, done + {d}) else start.disk
    {
      RowsDoneStep(start, down, done, d);
      FilesDoneStep(start, down, done, d);
      ok := CheckBlock(d, row, actual);
      if ok {
        LogStep(start, down, repair, done, d, first, old(issues), issues);
      }
    }

    /** `_check_block_records` over the records loaded at the start; `handled` are those it got to. */
    method CheckBlockRecords() returns (ok: bool, ghost handled: set<Digest>)
      modifies this`db, this`disk, this`issues
      ensures ok <==> !(repair && SomeFails(old(Store(db, disk)), down))
      ensures ok ==> At(old(Store(db, disk)), old(issues), old(db).blocks.Keys)
      ensures !ok ==> disk == FilesDone(old(Store(db, disk)), down, handled)
    {
      ghost var start := Store(db, disk);
      var records, chunks := db.blocks, db.chunks;
      var todo := records.Keys;
      ghost var done: set<Digest> := {};
      AtStart();
      while todo != {}
        invariant Splits(records.Keys, todo, done)
        invariant At(start, old(issues), done)
        invariant repair ==> NoneFails(start, down, done)
        decreases todo
      {
        var d :| d in todo;
        ok := Advance(start, old(issues), done, d, records[d], Actual(chunks, d));
        if !ok {
          return ok, done + {d};
        }
        SplitsMore(records.Keys, todo, done, d);
        todo, done := todo - {d}, done + {d};
      }
      assert done == records.Keys;
      return true, done;
    }

    /** `_check_inline_payload_records` on the rows as they are by then. */
    method CheckInlinePayloads(hadRecords: bool) returns (emptyFiles: set<InodeId>)
      modifies this`db, this`issues
      ensures emptyFiles == EmptyFiles(db.inodes, db.chunks, hadRecords)
      ensures db == if repair then old(db).(blocks := ClearedRows(old(db).blocks, old(db).blocks.Keys)) else old(db)
      ensures forall issue :: issue in issues <==>
        issue in old(issues) || (issue.code == UnexpectedPayload && HasUnexpected(old(db).blocks, issue.digest))
    {
      emptyFiles := EmptyFiles(db.inodes, db.chunks, hadRecords);
      var records := db.blocks;
      var todo := records.Keys;
      ghost var done: set<Digest> := {};
      NothingCleared(records);
      while todo != {}
        invariant todo + done == records.Keys && todo !! done
        invariant db == if repair then old(db).(blocks := ClearedRows(records, done)) else old(db)
        invariant forall issue :: issue in issues <==>
          issue in old(issues)
            || (issue.code == UnexpectedPayload && issue.digest in done && HasUnexpected(records, issue.digest))
        decreases todo
      {
        var d :| d in todo;
        ClearStep(records, done, d);
        if records[d].inlinePayload.Some? && records[d].storage != Inline {
          Report(UnexpectedPayload, d);
          Write(d, Some(records[d].(inlinePayload := None)));
        }
        todo, done := todo - {d}, done + {d};
      }
    }

    /** `_check_disk_orphans`: files found at the start whose digest had no tiered record then. */
    method CheckDiskOrphans(records: map<Digest, BlockRow>, found: set<Digest>)
      modifies this`disk, this`issues
      ensures disk == if repair then WithoutOrphans(old(disk), down, records, found) else old(disk)
      ensures forall issue :: issue in issues <==>
        issue in old(issues) || (issue.digest in found && Orphan(records, issue.digest) && issue.code == OrphanFile)
    {
      var todo := found;
      ghost var done: set<Digest> := {};
      while todo != {}
        invariant todo + done == found && todo !! done
        invariant disk == if repair then WithoutOrphans(old(disk), down, records, done) else old(disk)
        invariant forall issue :: issue in issues <==>
          issue in old(issues) || (issue.digest in done && Orphan(records, issue.digest) && issue.code == OrphanFile)
        decreases todo
      {
        var d :| d in todo;
        OrphansStep(old(disk), down, records, done, d);
        if Orphan(records, d) {
          Report(OrphanFile, d);
          DropFound(d);
        }
        todo, done := todo - {d}, done + {d};
      }
    }

    /** The files the scan found, which are those that can be reached. */
    method DropFound(d: Digest)
      modifies this`disk
      ensures disk == if repair then Freed(old(disk), down, d) else old(disk)
    {
      if repair {
        disk := disk - ({(d, Hot), (d, Cold)} - down);
      }
    }

    method SetLinks(id: InodeId, inode: Inode)
      modifies this`db
      ensures db == if repair then old(db).(inodes := old(db).inodes[id := inode]) else old(db)
    {
      if repair {
        db := db.(inodes := db.inodes[id := inode]);
      }
    }

    /** `_check_nlinks`: an inode's link count is its number of directory entries, and 1 for the root. */
    method CheckNlinks() returns (mismatches: set<InodeId>)
      modifies this`db
      ensures db == if repair then old(db).(inodes := LinksDone(old(db), old(db).inodes.Keys)) else old(db)
      ensures mismatches == WrongLinks(old(db))
    {
      var inodes, entries := db.inodes, db.entries;
      var todo := inodes.Keys;
      ghost var done: set<InodeId> := {};
      mismatches := {};
      NoLinksDone(db);
      while todo != {}
        invariant todo + done == inodes.Keys && todo !! done
        invariant db == if repair then old(db).(inodes := LinksDone(old(db), done)) else old(db)
        invariant forall id :: id in mismatches <==> id in done && inodes[id].nlink != ExpectedLinks(old(db), id)
        decreases todo
      {
        SomeMember(todo);
        var id :| id in todo;
        var expected := if id == 1 then 1 else |EntriesOf(entries, id)|;
        LinksStep(old(db), done, id);
        if inodes[id].nlink != expected {
          mismatches := mismatches + {id};
          SetLinks(id, inodes[id].(nlink := expected));
        }
        todo, done := todo - {id}, done + {id};
      }
      assert done == inodes.Keys;
      forall id ensures id in mismatches <==> id in WrongLinks(old(db)) {
      }
    }

    /** The three stages about blocks; `found` is what the scan saw. */
    method CheckBlocks(found: set<Digest>) returns (r: Result<set<InodeId>>)
      requires issues == [] && found == set f | f in disk && f !in down :: f.0
      modifies this`db, this`disk, this`issues
      ensures r.Err? <==> repair && SomeFails(old(Store(db, disk)), down)
      ensures r.Err? ==> r.errno == Internal && OnlyDropped(old(Store(db, disk)), down, disk)
      ensures r.Ok? && repair ==> Store(db, disk) == Repaired(old(Store(db, disk)), down)
      ensures !repair ==> db == old(db) && disk == old(disk)
      ensures r.Ok? ==> forall issue :: issue in issues <==> IssueOfRun(old(Store(db, disk)), down, repair, issue)
      ensures r.Ok? ==> r.value == EmptyFiles(old(db).inodes, old(db).chunks, old(db).blocks != map[])
    {
      ghost var start := Store(db, disk);
      var records := db.blocks;
      var ok;
      ghost var handled;
      ok, handled := CheckBlockRecords();
      if !ok {
        OnlyDroppedAt(start, down, handled);
        return Err(Internal);
      }
      ghost var log1, rows := issues, db.blocks;
      var emptyFiles := CheckInlinePayloads(records != map[]);
      ghost var log2 := issues;
      CheckDiskOrphans(records, found);
      RepairedInStages(start, down);
      RunIssues(start, down, repair, rows, found, log1, log2, issues);
      return Ok(emptyFiles);
    }

    /** `run` without scrub.  Repair fails exactly when it would clear the only presence bit of a referenced block;
        then the rows are as before, and of the files at most those of records nobody refers to are gone.  Otherwise
        the store becomes the repaired store and link counts are right.  Without repair nothing changes.  The issues
        are exactly those of the store as it was. */
    method Run() returns (r: Result<MetadataReport>)
      requires issues == [] && Nested()
      modifies this`db, this`disk, this`issues
      ensures r.Err? <==> repair && SomeFails(old(Store(db, disk)), down)
      ensures r.Err? ==> db == old(db) && OnlyDropped(old(Store(db, disk)), down, disk)
      ensures r.Ok? && repair ==>
        db == Repaired(old(Store(db, disk)), down).db.(inodes := LinksDone(old(db), old(db).inodes.Keys))
      ensures r.Ok? && repair ==> disk == Repaired(old(Store(db, disk)), down).disk
      ensures !repair ==> db == old(db) && disk == old(disk)
      ensures r.Ok? ==> forall issue :: issue in issues <==> IssueOfRun(old(Store(db, disk)), down, repair, issue)
      ensures r.Ok? ==>
        var final := if repair then Repaired(old(Store(db, disk)), down).db else old(db);
        r.value == ReportOf(final, old(db).blocks != map[]).(unscannedTiers := rootsDown)
    {
      var before := db;
      var found, unscanned := ScanDiskBlocks();
      var emptyFiles := CheckBlocks(found);
      if emptyFiles.Err? {
        db := before;
        return Err(emptyFiles.errno);
      }
      var report := ChunkMetadata(db);
      ReportInParts(before, db, before.blocks != map[]);
      var wrongLinks := CheckNlinks();
      return Ok(report.(emptyFiles := emptyFiles.value, wrongLinks := wrongLinks, unscannedTiers := unscanned));
    }
  }

  /** The logs of the three stages together. */
  lemma RunIssues(s: Store, down: Down, repair: bool, rows: map<Digest, BlockRow>, found: set<Digest>,
                  log1: seq<Issue>, log2: seq<Issue>, log3: seq<Issue>)
    requires LogOf(s, down, repair, s.db.blocks.Keys, [], log1) && found == set f | f in s.disk && f !in down :: f.0
    requires rows == if repair then RowsDone(s, down, s.db.blocks.Keys) else s.db.blocks
    requires forall issue :: issue in log2 <==>
      issue in log1 || (issue.code == UnexpectedPayload && HasUnexpected(rows, issue.digest))
    requires forall issue :: issue in log3 <==>
      issue in log2 || (issue.digest in found && Orphan(s.db.blocks, issue.digest) && issue.code == OrphanFile)
    ensures forall issue :: issue in log3 <==> IssueOfRun(s, down, repair, issue)
  {
    forall d ensures d in found <==> exists t :: (d, t) in s.disk && (d, t) !in down {
      if t :| (d, t) in s.disk && (d, t) !in down { assert (d, t).0 in found; }
    }
    forall d
      ensures HasUnexpected(rows, d) <==> HasUnexpected(s.db.blocks, d) && (repair ==> Verdict(s, down, d).Some?)
    {
    }
    forall issue: Issue
      ensures issue.code in IssuesHere(s, down, repair, issue.digest) <==>
        issue.digest in s.db.blocks && DueAt(issue.code, s, down, repair, issue.digest)
    {
      ReportedHere(s, down, repair, issue.code, issue.digest);
    }
  }

  lemma SeenInEitherTier(disk: Disk, down: Down, roots: set<Tier>)
    ensures roots == (if Hot in roots then {Hot} else {}) + (if Cold in roots then {Cold} else {})
    ensures (set f | f in disk && f !in down :: f.0)
         == (set f | f in disk && f !in down && f.1 == Hot :: f.0)
           + (set f | f in disk && f !in down && f.1 == Cold :: f.0)
  {
    forall t
      ensures t in roots <==> t in (if Hot in roots then {Hot} else {}) + (if Cold in roots then {Cold} else {})
    {
      match t
      case Hot =>
      case Cold =>
    }
    forall f | f in disk && f !in down ensures f.1 == Hot || f.1 == Cold {
      match f.1
      case Hot =>
      case Cold =>
    }
  }

  lemma OrphansStep(disk: Disk, down: Down, blocks: map<Digest, BlockRow>, done: set<Digest>, d: Digest)
    requires d !in done
    ensures WithoutOrphans(disk, down, blocks, done + {d})
         == if Orphan(blocks, d) then Freed(WithoutOrphans(disk, down, blocks, done), down, d)
           else WithoutOrphans(disk, down, blocks, done)
  {
    forall f: (Digest, Tier) | f.0 == d ensures f == (d, Hot) || f == (d, Cold) {
      assert f.1 == Hot || f.1 == Cold;
    }
  }

  /** Files may be missing only if they belonged to records nobody refers to and could be reached. */
  ghost predicate OnlyDropped(s: Store, down: Down, disk: Disk) {
    && (forall f :: f in disk ==> f in s.disk && disk[f] == s.disk[f])
    && (forall f ::
         f in s.disk && f !in disk ==>
           f !in down && f.0 in s.db.blocks && Drops(s, down, f.0) && Actual(s.db.chunks, f.0) == 0)
  }

  lemma OnlyDroppedAt(s: Store, down: Down, done: set<Digest>)
    ensures OnlyDropped(s, down, FilesDone(s, down, done))
  {
  }

  /** An issue about a block that a run reports. */
  ghost predicate IssueOfRun(s: Store, down: Down, repair: bool, issue: Issue) {
    || (issue.digest in s.db.blocks && DueAt(issue.code, s, down, repair, issue.digest))
    || (issue.code == OrphanFile
        && (issue.digest !in s.db.blocks || s.db.blocks[issue.digest].storage != Tiered)
        && exists t :: (issue.digest, t) in s.disk && (issue.digest, t) !in down)
    || (issue.code == UnexpectedPayload && issue.digest in s.db.blocks
        && s.db.blocks[issue.digest].storage != Inline && s.db.blocks[issue.digest].inlinePayload.Some?
        && (repair ==> Verdict(s, down, issue.digest).Some?))
  }

  /** The issue is due by the record, the chunks that name it and what the probes of its files see. */
  ghost predicate DueAt(code: Code, s: Store, down: Down, repair: bool, d: Digest)
    requires d in s.db.blocks
  {
    Due(code, s.db.blocks[d], |Naming(s.db.chunks, d)|,
        ProbeIn(s.disk, down, d, Hot), ProbeIn(s.disk, down, d, Cold), repair)
  }

  lemma ReportedHere(s: Store, down: Down, repair: bool, code: Code, d: Digest)
    ensures code in IssuesHere(s, down, repair, d) <==> d in s.db.blocks && DueAt(code, s, down, repair, d)
  {
    if d in s.db.blocks {
      ReportedExactly(code, s.db.blocks[d], Actual(s.db.chunks, d), ProbeIn(s.disk, down, d, Hot),
        ProbeIn(s.disk, down, d, Cold), repair);
    }
  }

  /** A referenced tiered block whose paths can be looked at and that has no file on either tier is reported missing. */
  lemma LostBlockIsReported(s: Store, down: Down, repair: bool, d: Digest)
    requires d in s.db.blocks && s.db.blocks[d].storage == Tiered
    requires exists k :: k in s.db.chunks && s.db.chunks[k].digest == d
    requires forall t :: (d, t) !in s.disk && (d, t) !in down
    ensures IssueOfRun(s, down, repair, Issue(MissingBlockFile, d))
  {
    var k :| k in s.db.chunks && s.db.chunks[k].digest == d;
    assert k in Naming(s.db.chunks, d);
  }

  predicate HasUnexpected(blocks: map<Digest, BlockRow>, d: Digest) {
    d in blocks && blocks[d].inlinePayload.Some? && blocks[d].storage != Inline
  }

  function ClearedRows(blocks: map<Digest, BlockRow>, done: set<Digest>): map<Digest, BlockRow> {
    map d | d in blocks :: if d in done then Cleared(blocks[d]) else blocks[d]
  }

  lemma NothingCleared(blocks: map<Digest, BlockRow>)
    ensures ClearedRows(blocks, {}) == blocks
  {
  }

  lemma ClearStep(blocks: map<Digest, BlockRow>, done: set<Digest>, d: Digest)
    requires d in blocks && d !in done
    ensures ClearedRows(blocks, done + {d})
         == if HasUnexpected(blocks, d)
            then WithRow(ClearedRows(blocks, done), d, Some(blocks[d].(inlinePayload := None)))
            else ClearedRows(blocks, done)
  {
  }

  lemma RepairedInStages(s: Store, down: Down)
    ensures var rows := RowsDone(s, down, s.db.blocks.Keys);
      Repaired(s, down).db == s.db.(blocks := ClearedRows(rows, rows.Keys))
    ensures Repaired(s, down).disk
         == WithoutOrphans(FilesDone(s, down, s.db.blocks.Keys), down, s.db.blocks,
                           set f | f in s.disk && f !in down :: f.0)
  {
    var rows := RowsDone(s, down, s.db.blocks.Keys);
    assert Repaired(s, down).db.blocks == ClearedRows(rows, rows.Keys);
    var found := set f | f in s.disk && f !in down :: f.0;
    var staged := WithoutOrphans(FilesDone(s, down, s.db.blocks.Keys), down, s.db.blocks, found);
    forall f ensures f in Repaired(s, down).disk <==> f in staged {
      if f in s.disk && f !in down { assert f.0 in found; }
    }
  }

  function ExpectedLinks(db: Database, id: InodeId): nat {
    if id == 1 then 1 else |EntriesOf(db.entries, id)|
  }

  function LinksDone(db: Database, done: set<InodeId>): map<InodeId, Inode> {
    map id | id in db.inodes :: if id in done then db.inodes[id].(nlink := ExpectedLinks(db, id)) else db.inodes[id]
  }

  lemma NoLinksDone(db: Database)
    ensures LinksDone(db, {}) == db.inodes
  {
  }

  lemma LinksStep(db: Database, done: set<InodeId>, id: InodeId)
    requires id in db.inodes && id !in done
    ensures LinksDone(db, done + {id}) == LinksDone(db, done)[id := db.inodes[id].(nlink := ExpectedLinks(db, id))]
    ensures LinksDone(db, done)[id] == db.inodes[id]
    ensures db.inodes[id].nlink == ExpectedLinks(db, id) ==> LinksDone(db, done + {id}) == LinksDone(db, done)
  {
  }

  lemma NothingDone(s: Store, down: Down)
    ensures RowsDone(s, down, {}) == s.db.blocks && FilesDone(s, down, {}) == s.disk
  {
  }

  /** The issues logged since `first` are those of the records in `done`. */
  ghost predicate LogOf(s: Store, down: Down, repair: bool, done: set<Digest>, first: seq<Issue>, issues: seq<Issue>) {
    forall issue :: issue in issues <==>
      issue in first || (issue.digest in done && issue.code in IssuesHere(s, down, repair, issue.digest))
  }

  lemma LogStep(s: Store, down: Down, repair: bool, done: set<Digest>, d: Digest, first: seq<Issue>, before: seq<Issue>,
                after: seq<Issue>)
    requires LogOf(s, down, repair, done, first, before) && after == before + Tagged(IssuesHere(s, down, repair, d), d)
    ensures LogOf(s, down, repair, done + {d}, first, after)
  {
    LogContains(before, IssuesHere(s, down, repair, d), d, after);
  }

  lemma LogContains(before: seq<Issue>, codes: seq<Code>, d: Digest, after: seq<Issue>)
    requires after == before + Tagged(codes, d)
    ensures forall issue :: issue in after <==> issue in before || (issue.digest == d && issue.code in codes)
  {
    forall issue ensures issue in after <==> issue in before || (issue.digest == d && issue.code in codes) {
      InTagged(codes, d, issue);
    }
  }

  lemma InTagged(codes: seq<Code>, d: Digest, issue: Issue)
    ensures issue in Tagged(codes, d) <==> issue.digest == d && issue.code in codes
  {
    if issue.digest == d && issue.code in codes {
      var i :| 0 <= i < |codes| && codes[i] == issue.code;
      assert Tagged(codes, d)[i] == issue;
    }
  }

  /** A second pass has nothing to report about a referenced block whose paths can be reached and that has a file. */
  lemma SecondPassIsSilent(s: Store, down: Down, repair: bool, d: Digest)
    requires d in s.db.blocks && RowCheck(s.db.blocks[d]) && ReferencedWithFile(s, d) && (d, Hot) !in down
    requires (d, Cold) !in down
    ensures IssuesHere(Repaired(s, down), down, repair, d) == []
  {
    OnePassRepairs(s, down, d);
  }
}
