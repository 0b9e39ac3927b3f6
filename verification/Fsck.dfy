/** `fsck --repair` on block records and orphan files. Paths may be unreachable while it runs. A cold copy it cannot
    look at is not taken to be missing; a hot one is. */
module Fsck {
  import opened Types
  import opened Schema
  import opened ChunkTable
  import opened TierRead
  import opened Tiering
  import opened Presence

  datatype Code =
    | RefcountMismatch | PresenceMismatch | MissingColdGarbage | UnreferencedRecord | PayloadUnavailable
    | MissingInlinePayload | MissingBlockFile | PreferredTierMissing | MissingPresence | UnexpectedPayload | OrphanFile

  datatype Issue = Issue(code: Code, digest: Digest)

  /** Paths that cannot be reached. */
  type Down = set<(Digest, Tier)>

  predicate IsColdGarbage(row: BlockRow, actual: nat) {
    actual == 0 && row.storage == Tiered && row.cold && row.coldGc.Some?
  }

  /** The cold copy may be there, and it matters. */
  predicate ColdUnverified(row: BlockRow, hot: Probe, cold: Probe) {
    cold == Unavailable && (row.cold || hot != Found)
  }

  /** The preferred tier a presence repair writes. */
  function RepairedPreference(row: BlockRow, hot: bool, cold: bool): Tier {
    if row.preferred == Some(Cold) && cold then Cold else if hot then Hot else Cold
  }

  function PreferredExists(row: BlockRow, hot: bool, cold: bool): bool {
    if row.preferred == Some(Hot) then hot else cold
  }

  // ----- what the pass does to one row, given what the two probes see -----

  /** The issues reported for one block record, in order. */
  function IssuesOf(row: BlockRow, actual: nat, hot: Probe, cold: Probe, repair: bool): seq<Code> {
    CountIssues(row, actual) + BodyIssues(row, actual, hot, cold, repair) + PresenceIssues(row, actual)
  }

  function CountIssues(row: BlockRow, actual: nat): seq<Code> {
    if row.refcount != actual then [RefcountMismatch] else []
  }

  function PresenceIssues(row: BlockRow, actual: nat): seq<Code> {
    if actual != 0 && row.storage == Tiered && !row.hot && !row.cold then [MissingPresence] else []
  }

  function BodyIssues(row: BlockRow, actual: nat, hot: Probe, cold: Probe, repair: bool): seq<Code> {
    if IsColdGarbage(row, actual) then
      HotIssues(row, hot)
        + (if cold == Unavailable then [PayloadUnavailable] else if cold == Missing then [MissingColdGarbage] else [])
    else if actual == 0 then
      (if repair && !ColdUnverified(row, hot, cold) then Undeletable(hot) + Undeletable(cold) else [])
        + [UnreferencedRecord]
    else if row.storage == Inline then
      if row.inlinePayload.None? then [MissingInlinePayload] else []
    else if ColdUnverified(row, hot, cold) then
      [PayloadUnavailable] + HotIssues(row, hot)
    else if hot != Found && cold != Found then
      [MissingBlockFile]
    else
      PlacementIssues(row, hot == Found, cold == Found)
  }

  function HotIssues(row: BlockRow, hot: Probe): seq<Code> {
    if row.hot != (hot == Found) then [PresenceMismatch] else []
  }

  /** A file that should go but cannot be reached is reported and stays. */
  function Undeletable(probe: Probe): seq<Code> {
    if probe == Unavailable then [PayloadUnavailable] else []
  }

  function PlacementIssues(row: BlockRow, hot: bool, cold: bool): seq<Code> {
    (if row.hot != hot || row.cold != cold then [PresenceMismatch] else [])
    + (if !PreferredExists(row, hot, cold) then [PreferredTierMissing] else [])
  }

  /** The three repairs that may write the preference; the last one wins. */
  function PreferenceAfter(row: BlockRow, hot: bool, cold: bool): Option<Tier> {
    if (!row.hot && !row.cold) || !PreferredExists(row, hot, cold) then Some(if hot then Hot else Cold)
    else if row.hot != hot || row.cold != cold then Some(RepairedPreference(row, hot, cold))
    else row.preferred
  }

  /** The repaired row; None when the record is deleted. */
  function RepairedRow(row: BlockRow, actual: nat, hot: Probe, cold: Probe): Option<BlockRow> {
    var counted := row.(refcount := actual);
    if IsColdGarbage(row, actual) then
      if cold == Missing then None else Some(counted.(hot := hot == Found))
    else if actual == 0 then
      if ColdUnverified(row, hot, cold) then Some(counted) else None
    else if row.storage == Inline then
      Some(counted)
    else if ColdUnverified(row, hot, cold) then
      var preferred := if !row.hot && !row.cold then Some(if hot == Found then Hot else Cold) else row.preferred;
      Some(counted.(hot := hot == Found, preferred := preferred))
    else if hot != Found && cold != Found then
      Some(if !row.hot && !row.cold then counted.(preferred := Some(Cold)) else counted)
    else
      Some(counted.(hot := hot == Found, cold := cold == Found,
        preferred := PreferenceAfter(row, hot == Found, cold == Found)))
  }

  /** The reachable files of an unreferenced record that is not cold garbage go with it. */
  predicate DropsFiles(row: BlockRow, actual: nat, hot: Probe, cold: Probe) {
    actual == 0 && !IsColdGarbage(row, actual) && !ColdUnverified(row, hot, cold)
  }

  /** The repair would clear the only presence bit of the row: the CHECK constraint refuses the UPDATE and the pass
      fails. */
  predicate Refused(row: BlockRow, actual: nat, hot: Probe, cold: Probe) {
    actual > 0 && row.storage == Tiered && row.hot && !row.cold && hot != Found && cold == Unavailable
  }

  lemma RefusedExactly(row: BlockRow, actual: nat, hot: Probe, cold: Probe)
    requires RowCheck(row) && RepairedRow(row, actual, hot, cold).Some?
    ensures RowCheck(RepairedRow(row, actual, hot, cold).value) <==> !Refused(row, actual, hot, cold)
  {
  }

  // ----- the same in terms of the columns, the count and the files -----

  /** When an issue about a record is due: `actual` chunks name the block, and a probe finds the file of a tier, finds
      none, or cannot look. */
  ghost predicate Due(code: Code, row: BlockRow, actual: nat, hot: Probe, cold: Probe, repair: bool) {
    var garbage := actual == 0 && row.storage == Tiered && row.cold && row.coldGc.Some?;
    var live := actual > 0 && row.storage == Tiered;
    var unsure := cold == Unavailable && (row.cold || hot != Found);
    var placed := live && !unsure && (hot == Found || cold == Found);
    match code
    case RefcountMismatch => row.refcount != actual
    case MissingPresence => live && !row.hot && !row.cold
    case MissingInlinePayload => actual > 0 && row.storage == Inline && row.inlinePayload.None?
    case MissingBlockFile => live && hot != Found && cold == Missing
    case MissingColdGarbage => garbage && cold == Missing
    case UnreferencedRecord => actual == 0 && !garbage
    case PresenceMismatch =>
      || ((garbage || (live && unsure) || placed) && row.hot != (hot == Found))
      || (placed && row.cold != (cold == Found))
    case PreferredTierMissing => placed && (if row.preferred == Some(Hot) then hot != Found else cold != Found)
    case PayloadUnavailable =>
      || (garbage && cold == Unavailable) || (live && unsure)
      || (actual == 0 && !garbage && repair && !unsure && (hot == Unavailable || cold == Unavailable))
    case UnexpectedPayload => false
    case OrphanFile => false
  }

  /** Exactly the issues that are due are reported. */
  lemma ReportedExactly(code: Code, row: BlockRow, actual: nat, hot: Probe, cold: Probe, repair: bool)
    ensures code in IssuesOf(row, actual, hot, cold, repair) <==> Due(code, row, actual, hot, cold, repair)
  {
    assert code in CountIssues(row, actual) <==> code == RefcountMismatch && Due(code, row, actual, hot, cold, repair);
    assert code in PresenceIssues(row, actual) <==>
      code == MissingPresence && Due(code, row, actual, hot, cold, repair);
    BodyReportedExactly(code, row, actual, hot, cold, repair);
  }

  ghost predicate DueInBody(code: Code, row: BlockRow, actual: nat, hot: Probe, cold: Probe, repair: bool) {
    code != RefcountMismatch && code != MissingPresence && Due(code, row, actual, hot, cold, repair)
  }

  lemma BodyReportedExactly(code: Code, row: BlockRow, actual: nat, hot: Probe, cold: Probe, repair: bool)
    ensures code in BodyIssues(row, actual, hot, cold, repair) <==> DueInBody(code, row, actual, hot, cold, repair)
  {
    if IsColdGarbage(row, actual) {
      GarbageReported(code, row, actual, hot, cold, repair);
    } else if actual == 0 || row.storage == Inline {
      RestReported(code, row, actual, hot, cold, repair);
    } else if ColdUnverified(row, hot, cold) {
      UnsureReported(code, row, actual, hot, cold, repair);
    } else {
      SeenReported(code, row, actual, hot, cold, repair);
    }
  }

  lemma HotIssuesAre(code: Code, row: BlockRow, hot: Probe)
    ensures code in HotIssues(row, hot) <==> code == PresenceMismatch && row.hot != (hot == Found)
  {
  }

  lemma PlacementIssuesAre(code: Code, row: BlockRow, hot: bool, cold: bool)
    ensures code in PlacementIssues(row, hot, cold) <==>
      || (code == PresenceMismatch && (row.hot != hot || row.cold != cold))
      || (code == PreferredTierMissing && !PreferredExists(row, hot, cold))
  {
  }

  lemma GarbageReported(code: Code, row: BlockRow, actual: nat, hot: Probe, cold: Probe, repair: bool)
    requires IsColdGarbage(row, actual)
    ensures code in BodyIssues(row, actual, hot, cold, repair) <==> DueInBody(code, row, actual, hot, cold, repair)
  {
    HotIssuesAre(code, row, hot);
  }

  lemma RestReported(code: Code, row: BlockRow, actual: nat, hot: Probe, cold: Probe, repair: bool)
    requires !IsColdGarbage(row, actual) && (actual == 0 || row.storage == Inline)
    ensures code in BodyIssues(row, actual, hot, cold, repair) <==> DueInBody(code, row, actual, hot, cold, repair)
  {
  }

  lemma UnsureReported(code: Code, row: BlockRow, actual: nat, hot: Probe, cold: Probe, repair: bool)
    requires actual > 0 && row.storage == Tiered && ColdUnverified(row, hot, cold)
    ensures code in BodyIssues(row, actual, hot, cold, repair) <==> DueInBody(code, row, actual, hot, cold, repair)
  {
    HotIssuesAre(code, row, hot);
  }

  lemma SeenReported(code: Code, row: BlockRow, actual: nat, hot: Probe, cold: Probe, repair: bool)
    requires actual > 0 && row.storage == Tiered && !ColdUnverified(row, hot, cold)
    ensures code in BodyIssues(row, actual, hot, cold, repair) <==> DueInBody(code, row, actual, hot, cold, repair)
  {
    PlacementIssuesAre(code, row, hot == Found, cold == Found);
  }

  /** Nobody refers to the record, and it is not one that keeps a cold copy as garbage. */
  predicate Unreferenced(row: BlockRow, actual: nat) {
    actual == 0 && !(row.storage == Tiered && row.cold && row.coldGc.Some?)
  }

  /** The files of a referenced block were seen well enough to say where it is. */
  predicate Located(row: BlockRow, actual: nat, hot: Probe, cold: Probe) {
    && actual > 0 && row.storage == Tiered && (hot == Found || cold == Found)
    && !(cold == Unavailable && (row.cold || hot != Found))
  }

  /** What a repair writes: the record goes when nobody refers to it and no cold copy is or may be in the way; else the
      count becomes exact, the bits become what was seen, and the preferred copy is one that was seen. */
  lemma RepairedColumns(row: BlockRow, actual: nat, hot: Probe, cold: Probe)
    ensures RepairedRow(row, actual, hot, cold).None? <==>
      if Unreferenced(row, actual) then cold != Unavailable || (!row.cold && hot == Found)
      else actual == 0 && cold == Missing
    ensures RepairedRow(row, actual, hot, cold).Some? ==>
      var r := RepairedRow(row, actual, hot, cold).value;
      && r == row.(refcount := actual, hot := r.hot, cold := r.cold, preferred := r.preferred)
      && r.cold == (if Located(row, actual, hot, cold) then cold == Found else row.cold)
      && r.hot == (if row.storage == Inline || Unreferenced(row, actual)
                     || (hot != Found && cold == Missing && actual > 0)
                   then row.hot else hot == Found)
    ensures RepairedRow(row, actual, hot, cold).Some? && row.preferred.Some? && (row.hot || row.cold) ==>
      if Located(row, actual, hot, cold) && row.preferred == Some(Hot) && hot != Found
      then RepairedRow(row, actual, hot, cold).value.preferred == Some(Cold)
      else if Located(row, actual, hot, cold) && row.preferred == Some(Cold) && cold != Found
      then RepairedRow(row, actual, hot, cold).value.preferred == Some(Hot)
      else RepairedRow(row, actual, hot, cold).value.preferred == row.preferred
    ensures actual > 0 && row.storage == Tiered && !row.hot && !row.cold ==>
      RepairedRow(row, actual, hot, cold).Some?
      && RepairedRow(row, actual, hot, cold).value.preferred == Some(if hot == Found then Hot else Cold)
  {
    assert row.preferred.Some? ==> row.preferred.value == Hot || row.preferred.value == Cold;
  }

  // ----- the whole pass -----

  function Actual(chunks: Chunks, d: Digest): nat {
    |Naming(chunks, d)|
  }

  function Verdict(s: Store, down: Down, d: Digest): Option<BlockRow>
    requires d in s.db.blocks
  {
    RepairedRow(s.db.blocks[d], Actual(s.db.chunks, d), ProbeIn(s.disk, down, d, Hot), ProbeIn(s.disk, down, d, Cold))
  }

  predicate Drops(s: Store, down: Down, d: Digest)
    requires d in s.db.blocks
  {
    DropsFiles(s.db.blocks[d], Actual(s.db.chunks, d), ProbeIn(s.disk, down, d, Hot), ProbeIn(s.disk, down, d, Cold))
  }

  predicate Fails(s: Store, down: Down, d: Digest)
    requires d in s.db.blocks
  {
    Refused(s.db.blocks[d], Actual(s.db.chunks, d), ProbeIn(s.disk, down, d, Hot), ProbeIn(s.disk, down, d, Cold))
  }

  predicate Orphan(blocks: map<Digest, BlockRow>, d: Digest) {
    d !in blocks || blocks[d].storage != Tiered
  }

  /** A tiered record has no inline payload. */
  function Cleared(row: BlockRow): BlockRow {
    if row.storage == Tiered then row.(inlinePayload := None) else row
  }

  /** Rows and files after `_check_block_records`, `_check_inline_payload_records` and `_check_disk_orphans` with
      repair. */
  function Repaired(s: Store, down: Down): Store {
    Store(s.db.(blocks := map d | d in s.db.blocks && Verdict(s, down, d).Some? :: Cleared(Verdict(s, down, d).value)),
          map f | f in s.disk && (f in down || (!Orphan(s.db.blocks, f.0) && !Drops(s, down, f.0))) :: s.disk[f])
  }

  /** Blocks the guarantee is about. */
  predicate ReferencedWithFile(s: Store, d: Digest) {
    && d in s.db.blocks && s.db.blocks[d].storage == Tiered && Actual(s.db.chunks, d) > 0
    && ((d, Hot) in s.disk || (d, Cold) in s.disk)
  }

  predicate ForeignKeys(db: Database) {
    forall k :: k in db.chunks ==> db.chunks[k].digest in db.blocks
  }

  /** The row tells the truth: exact count, bits equal to the disk, and a preferred copy that exists. */
  predicate Truthful(s: Store, d: Digest) {
    && d in s.db.blocks
    && s.db.blocks[d].refcount == Actual(s.db.chunks, d)
    && s.db.blocks[d].hot == ((d, Hot) in s.disk) && s.db.blocks[d].cold == ((d, Cold) in s.disk)
    && s.db.blocks[d].preferred.Some? && (d, s.db.blocks[d].preferred.value) in s.disk
  }

  lemma FilesStay(s: Store, down: Down, d: Digest)
    requires d in s.db.blocks && s.db.blocks[d].storage == Tiered && Actual(s.db.chunks, d) > 0
    ensures forall t :: ((d, t) in Repaired(s, down).disk <==> (d, t) in s.disk)
    ensures forall t :: (d, t) in s.disk ==> Repaired(s, down).disk[(d, t)] == s.disk[(d, t)]
  {
  }

  lemma RowBecomesTrue(row: BlockRow, actual: nat, hot: Probe, cold: Probe)
    requires RowCheck(row) && row.storage == Tiered && actual > 0 && hot != Unavailable && cold != Unavailable
    requires hot == Found || cold == Found
    ensures var r := RepairedRow(row, actual, hot, cold);
      && r.Some? && r.value.hot == (hot == Found) && r.value.cold == (cold == Found) && r.value.refcount == actual
      && r.value.preferred.Some? && (if r.value.preferred.value == Hot then hot else cold) == Found
      && RowCheck(r.value) && forall repair :: IssuesOf(r.value, actual, hot, cold, repair) == []
  {
  }

  /** Nothing to report about the row. */
  ghost predicate Silent(row: BlockRow, actual: nat, hot: Probe, cold: Probe) {
    forall repair :: IssuesOf(row, actual, hot, cold, repair) == []
  }

  lemma ClearedIsSilent(row: BlockRow, actual: nat, hot: Probe, cold: Probe)
    requires RowCheck(row) && row.storage == Tiered && actual > 0 && hot != Unavailable && cold != Unavailable
    requires hot == Found || cold == Found
    ensures RepairedRow(row, actual, hot, cold).Some?
    ensures var r := Cleared(RepairedRow(row, actual, hot, cold).value);
      && r.hot == (hot == Found) && r.cold == (cold == Found) && r.refcount == actual
      && r.preferred.Some? && (if r.preferred.value == Hot then hot else cold) == Found
      && RowCheck(r) && Silent(r, actual, hot, cold)
  {
    RowBecomesTrue(row, actual, hot, cold);
  }

  lemma ProbesStay(s: Store, down: Down, d: Digest)
    requires d in s.db.blocks && s.db.blocks[d].storage == Tiered && Actual(s.db.chunks, d) > 0
    ensures Repaired(s, down).db.chunks == s.db.chunks
    ensures forall t :: ProbeIn(Repaired(s, down).disk, down, d, t) == ProbeIn(s.disk, down, d, t)
  {
    FilesStay(s, down, d);
  }

  lemma SurvivesExactly(s: Store, down: Down, d: Digest)
    requires d in s.db.blocks
    ensures d in Repaired(s, down).db.blocks <==> Verdict(s, down, d).Some?
    ensures d in Repaired(s, down).db.blocks ==> Repaired(s, down).db.blocks[d] == Cleared(Verdict(s, down, d).value)
  {
  }

  /** Nothing is said about the cold copy: it cannot be looked at, and the row claims it or no hot copy was found. */
  predicate ColdInDoubt(s: Store, down: Down, d: Digest) {
    d in s.db.blocks && (d, Cold) in down && (s.db.blocks[d].cold || (d, Hot) in down || (d, Hot) !in s.disk)
  }

  /** A file goes exactly when it can be reached and either no tiered record names it, or no chunk refers to that
      record, which is no cold garbage and leaves no doubt about a cold copy. */
  lemma FilesAfterExactly(s: Store, down: Down, d: Digest, t: Tier)
    requires (d, t) in s.disk
    ensures (d, t) !in Repaired(s, down).disk <==>
      && (d, t) !in down
      && (d in s.db.blocks && s.db.blocks[d].storage == Tiered ==>
            && (forall k :: k in s.db.chunks ==> s.db.chunks[k].digest != d)
            && !(s.db.blocks[d].cold && s.db.blocks[d].coldGc.Some?) && !ColdInDoubt(s, down, d))
    ensures (d, t) in Repaired(s, down).disk ==> Repaired(s, down).disk[(d, t)] == s.disk[(d, t)]
  {
    if Naming(s.db.chunks, d) != {} {
      var k :| k in Naming(s.db.chunks, d);
      assert s.db.chunks[k].digest == d;
    } else {
      forall k | k in s.db.chunks ensures s.db.chunks[k].digest != d {
        assert k !in Naming(s.db.chunks, d);
      }
    }
  }

  /** One pass deletes no file of a referenced tiered block.  When its paths can be reached and it has a file, the pass
      makes the row truthful, and a second pass has nothing to report about it. */
  lemma OnePassRepairs(s: Store, down: Down, d: Digest)
    requires d in s.db.blocks && RowCheck(s.db.blocks[d]) && s.db.blocks[d].storage == Tiered
    requires Actual(s.db.chunks, d) > 0
    ensures var r := Repaired(s, down);
      forall t :: (d, t) in s.disk ==> (d, t) in r.disk && r.disk[(d, t)] == s.disk[(d, t)]
    ensures ReferencedWithFile(s, d) && (d, Hot) !in down && (d, Cold) !in down ==>
      var r := Repaired(s, down);
      && Truthful(r, d) && RowCheck(r.db.blocks[d])
      && Silent(r.db.blocks[d], Actual(r.db.chunks, d), ProbeIn(r.disk, down, d, Hot), ProbeIn(r.disk, down, d, Cold))
  {
    FilesStay(s, down, d);
    ProbesStay(s, down, d);
    if ReferencedWithFile(s, d) && (d, Hot) !in down && (d, Cold) !in down {
      SurvivesExactly(s, down, d);
      ClearedIsSilent(s.db.blocks[d], Actual(s.db.chunks, d), ProbeDisk(s.disk, d, Hot), ProbeDisk(s.disk, d, Cold));
    }
  }

  /** Reference counts are exact everywhere after one pass. */
  lemma OnePassCounts(s: Store, down: Down)
    requires ForeignKeys(s.db)
    ensures RefsExact(Repaired(s, down).db)
  {
    var r := Repaired(s, down);
    forall k | k in s.db.chunks ensures s.db.chunks[k].digest in r.db.blocks {
      assert k in Naming(s.db.chunks, s.db.chunks[k].digest);
      ReferencedStays(s, down, s.db.chunks[k].digest);
    }
    forall d | d in r.db.blocks ensures r.db.blocks[d].refcount == Actual(s.db.chunks, d) {
      CountedExactly(s, down, d);
    }
  }

  lemma ReferencedStays(s: Store, down: Down, d: Digest)
    requires d in s.db.blocks && Actual(s.db.chunks, d) > 0
    ensures d in Repaired(s, down).db.blocks
  {
  }

  lemma CountedExactly(s: Store, down: Down, d: Digest)
    requires d in Repaired(s, down).db.blocks
    ensures Repaired(s, down).db.blocks[d].refcount == Actual(s.db.chunks, d)
  {
  }

  // ----- what cannot be looked at -----

  /** A record that claims a cold copy which cannot be looked at keeps that claim, its preference and its files, whoever
      refers to it. */
  lemma UnverifiedStays(s: Store, down: Down, d: Digest)
    requires d in s.db.blocks && RowCheck(s.db.blocks[d]) && s.db.blocks[d].cold && (d, Cold) in down
    ensures var r := Repaired(s, down);
      && d in r.db.blocks && r.db.blocks[d].cold && r.db.blocks[d].preferred == s.db.blocks[d].preferred
      && forall t :: (d, t) in s.disk ==> (d, t) in r.disk && r.disk[(d, t)] == s.disk[(d, t)]
  {
    assert Verdict(s, down, d).Some?;
  }

  /** The pass leaves the claim of a hot copy alone and does not report the copy. */
  predicate HotClaimKept(s: Store, down: Down, repair: bool, d: Digest)
    requires d in s.db.blocks
  {
    var hot, cold := ProbeIn(s.disk, down, d, Hot), ProbeIn(s.disk, down, d, Cold);
    var issues := IssuesOf(s.db.blocks[d], Actual(s.db.chunks, d), hot, cold, repair);
    && d in Repaired(s, down).db.blocks && Repaired(s, down).db.blocks[d].hot
    && MissingBlockFile !in issues && PresenceMismatch !in issues
  }

  /** With the hot copy there is no such care: where it cannot be looked at the claim is dropped or the copy reported
      missing, unless nobody refers to the block, it is no garbage, and the cold copy cannot be looked at either. */
  lemma HotClaimKeptExactly(s: Store, down: Down, repair: bool, d: Digest)
    requires d in s.db.blocks && RowCheck(s.db.blocks[d]) && s.db.blocks[d].hot && (d, Hot) in down
    requires !Fails(s, down, d)
    ensures HotClaimKept(s, down, repair, d) <==>
      Actual(s.db.chunks, d) == 0 && !IsColdGarbage(s.db.blocks[d], 0) && (d, Cold) in down
  {
    SurvivesExactly(s, down, d);
    RowHotKept(s.db.blocks[d], Actual(s.db.chunks, d), ProbeIn(s.disk, down, d, Cold), repair);
  }

  lemma RowHotKept(row: BlockRow, actual: nat, cold: Probe, repair: bool)
    requires RowCheck(row) && row.hot && !Refused(row, actual, Unavailable, cold)
    ensures var verdict := RepairedRow(row, actual, Unavailable, cold);
      var issues := IssuesOf(row, actual, Unavailable, cold, repair);
      verdict.Some? && verdict.value.hot && MissingBlockFile !in issues && PresenceMismatch !in issues
      <==> actual == 0 && !IsColdGarbage(row, 0) && cold == Unavailable
  {
    if actual > 0 && cold == Missing {
      assert BodyIssues(row, actual, Unavailable, cold, repair) == [MissingBlockFile];
    }
  }

  /** The tables hold only true claims of cold copies, each block keeps a copy and passes the CHECK constraints: a pass
      keeps all this, whatever it cannot reach, if and only if no repair is refused. */
  lemma RepairSafeExactly(s: Store, down: Down)
    requires RefsExact(s.db) && TablesSafe(s.db, s.disk)
    ensures TablesSafe(Repaired(s, down).db, Repaired(s, down).disk) <==>
      forall d :: d in s.db.blocks ==> !Fails(s, down, d)
  {
    var r := Repaired(s, down);
    forall d | d in r.db.blocks ensures RowSafe(d, r.db.blocks[d], r.disk, r.db.queue) <==> !Fails(s, down, d) {
      RowKept(s, down, d);
    }
    forall d | d in s.db.blocks && Fails(s, down, d) ensures d in r.db.blocks {
      assert Verdict(s, down, d).Some?;
    }
  }

  lemma RowKept(s: Store, down: Down, d: Digest)
    requires RefsExact(s.db) && TablesSafe(s.db, s.disk) && d in Repaired(s, down).db.blocks
    ensures RowSafe(d, Repaired(s, down).db.blocks[d], Repaired(s, down).disk, s.db.queue) <==> !Fails(s, down, d)
  {
    SurvivorIs(s, down, d);
    StaysSafe(d, s.db.blocks[d], s.disk, Repaired(s, down).disk, down, s.db.queue, Actual(s.db.chunks, d));
  }

  /** The record and, if it is tiered, the files of a block whose record the pass does not delete. */
  lemma SurvivorIs(s: Store, down: Down, d: Digest)
    requires d in Repaired(s, down).db.blocks
    ensures d in s.db.blocks && Verdict(s, down, d).Some?
      && Repaired(s, down).db.blocks[d] == Cleared(Verdict(s, down, d).value)
    ensures s.db.blocks[d].storage == Tiered ==> SameFiles(d, s.disk, Repaired(s, down).disk)
  {
  }

  ghost predicate SameFiles(d: Digest, disk: Disk, after: Disk) {
    forall t :: ((d, t) in after <==> (d, t) in disk) && ((d, t) in disk ==> after[(d, t)] == disk[(d, t)])
  }

  lemma StaysSafe(d: Digest, row: BlockRow, disk: Disk, after: Disk, down: Down, queue: set<(Digest, Tier)>,
                  actual: nat)
    requires RowSafe(d, row, disk, queue) && (row.storage == Tiered ==> SameFiles(d, disk, after))
    requires RepairedRow(row, actual, ProbeIn(disk, down, d, Hot), ProbeIn(disk, down, d, Cold)).Some?
    ensures var hot, cold := ProbeIn(disk, down, d, Hot), ProbeIn(disk, down, d, Cold);
      RowSafe(d, Cleared(RepairedRow(row, actual, hot, cold).value), after, queue) <==> !Refused(row, actual, hot, cold)
  {
    RefusedExactly(row, actual, ProbeIn(disk, down, d, Hot), ProbeIn(disk, down, d, Cold));
  }

  // ----- back to true presence bits -----

  /** A tiered row that is referenced or has a hot file does not have that file queued for deletion. */
  predicate Unqueued(s: Store, d: Digest, row: BlockRow) {
    row.storage == Tiered && (row.refcount > 0 || (d, Hot) in s.disk) ==> (d, Hot) !in s.db.queue
  }

  /** A row whose hot file the repair relies on: it is referenced, or it is cold garbage that still has a hot file. */
  predicate ReliesOnHot(s: Store, d: Digest, row: BlockRow) {
    row.storage == Tiered && (row.refcount > 0 || (IsColdGarbage(row, 0) && (d, Hot) in s.disk))
  }

  lemma ReliesExactly(s: Store, d: Digest)
    requires RefsExact(s.db) && TablesSafe(s.db, s.disk) && d in s.db.blocks
    ensures d in Repaired(s, {}).db.blocks && !Unqueued(s, d, Repaired(s, {}).db.blocks[d])
       <==> ReliesOnHot(s, d, s.db.blocks[d]) && (d, Hot) in s.db.queue
  {
    assert RowSafe(d, s.db.blocks[d], s.disk, s.db.queue);
    SurvivesExactly(s, {}, d);
    VerdictRelies(s, d, s.db.blocks[d], Actual(s.db.chunks, d));
  }

  lemma VerdictRelies(s: Store, d: Digest, row: BlockRow, actual: nat)
    requires RowCheck(row) && row.refcount == actual && (row.cold ==> (d, Cold) in s.disk)
    ensures var verdict := RepairedRow(row, actual, ProbeDisk(s.disk, d, Hot), ProbeDisk(s.disk, d, Cold));
      verdict.Some? && !Unqueued(s, d, Cleared(verdict.value)) <==> ReliesOnHot(s, d, row) && (d, Hot) in s.db.queue
  {
  }

  /** From any state a crash can leave, one repair pass that reaches every file makes all presence bits true, so that
      cleanup and demotion are safe again, if and only if no row that relies on its hot file has that file queued for
      deletion.  The pass leaves the queue as it is. */
  lemma FsckRestoresBitsExactly(s: Store)
    requires RefsExact(s.db) && TablesSafe(s.db, s.disk)
    ensures Strict(Repaired(s, {})) <==>
      forall d :: d in s.db.blocks && ReliesOnHot(s, d, s.db.blocks[d]) ==> (d, Hot) !in s.db.queue
  {
    var r := Repaired(s, {});
    OnePassCounts(s, {});
    forall d | d in r.db.blocks
      ensures BitsTrue(d, r.db.blocks[d], r.disk, r.db.queue) <==> Unqueued(s, d, r.db.blocks[d])
    {
      RowRestored(s, d);
    }
    forall d | d in s.db.blocks
      ensures d in r.db.blocks && !Unqueued(s, d, r.db.blocks[d]) <==>
        ReliesOnHot(s, d, s.db.blocks[d]) && (d, Hot) in s.db.queue
    {
      ReliesExactly(s, d);
    }
  }

  lemma RowRestored(s: Store, d: Digest)
    requires RefsExact(s.db) && TablesSafe(s.db, s.disk) && d in Repaired(s, {}).db.blocks
    ensures var row := Repaired(s, {}).db.blocks[d];
      BitsTrue(d, row, Repaired(s, {}).disk, s.db.queue) <==> Unqueued(s, d, row)
  {
    SurvivorIs(s, {}, d);
    assert RowSafe(d, s.db.blocks[d], s.disk, s.db.queue);
    BitsRestored(d, s.db.blocks[d], s.disk, Repaired(s, {}).disk, s.db.queue, Actual(s.db.chunks, d));
  }

  lemma BitsRestored(d: Digest, row: BlockRow, disk: Disk, after: Disk, queue: set<(Digest, Tier)>, actual: nat)
    requires RowSafe(d, row, disk, queue) && (row.storage == Tiered ==> SameFiles(d, disk, after))
    requires row.refcount == actual
    requires RepairedRow(row, actual, ProbeDisk(disk, d, Hot), ProbeDisk(disk, d, Cold)).Some?
    ensures var after1 := Cleared(RepairedRow(row, actual, ProbeDisk(disk, d, Hot), ProbeDisk(disk, d, Cold)).value);
      BitsTrue(d, after1, after, queue)
      <==> (after1.storage == Tiered && (after1.refcount > 0 || (d, Hot) in disk) ==> (d, Hot) !in queue)
  {
  }
}
