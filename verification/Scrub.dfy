/** The scrub stage of fsck: every payload is read and validated, and a bad copy is dropped when the copy on the
    other tier passed in the same pass. */
module Scrub {
  import opened Types
  import opened Schema

  /** What reading a path gives.  Content is seen through its length and the length it decompresses to, if it
      does; an absent file has no entry. */
  datatype File = Unreachable | Unreadable | Content(length: nat, unzipped: Option<nat>)

  type Files = map<(Digest, Tier), File>

  datatype ScrubCode = PayloadUnavailable | CorruptPayload | StoredSizeMismatch | RawSizeMismatch | MissingInline

  datatype ScrubIssue = ScrubIssue(code: ScrubCode, digest: Digest, tier: Option<Tier>, repairable: bool,
                                   repaired: bool)

  /** `_validate_payload`; None is a pass. */
  function Validate(row: BlockRow, f: File): Option<ScrubCode>
    requires f.Content?
  {
    var decoded := if row.compressed then f.unzipped else Some(f.length);
    if f.length != row.storedSize then Some(StoredSizeMismatch)
    else if decoded.None? then Some(CorruptPayload)
    else if decoded.value != row.rawSize then Some(RawSizeMismatch)
    else None
  }

  /** The result for one tier; None when the tier is not looked at or has no file. */
  datatype Scrubbed = NotScrubbed | Passed | Failed(code: ScrubCode)

  function ScrubTier(row: BlockRow, files: Files, d: Digest, t: Tier, includeCold: bool): Scrubbed {
    if t == Cold && !includeCold then NotScrubbed
    else if (d, t) !in files then NotScrubbed
    else match files[(d, t)]
      case Unreachable => NotScrubbed
      case Unreadable => Failed(CorruptPayload)
      case Content(_, _) =>
        match Validate(row, files[(d, t)])
        case None => Passed
        case Some(code) => Failed(code)
  }

  /** What makes a copy good: it can be read, has the stored length, and is or decodes to the raw length. */
  ghost predicate Good(row: BlockRow, files: Files, d: Digest, t: Tier) {
    && (d, t) in files && files[(d, t)].Content? && files[(d, t)].length == row.storedSize
    && DecodedIs(row, files[(d, t)], row.rawSize)
  }

  /** The content has this length once it is decoded, if the row says that it must be. */
  ghost predicate DecodedIs(row: BlockRow, f: File, size: int)
    requires f.Content?
  {
    if row.compressed then f.unzipped.Some? && f.unzipped.value == size else f.length == size
  }

  /** What is wrong with a copy, in terms of what was read and of the row. */
  ghost predicate FailsWith(row: BlockRow, f: File, code: ScrubCode) {
    match code
    case StoredSizeMismatch => f.Content? && f.length != row.storedSize
    case CorruptPayload =>
      f.Unreadable? || (f.Content? && f.length == row.storedSize && row.compressed && f.unzipped.None?)
    case RawSizeMismatch =>
      && f.Content? && f.length == row.storedSize && !DecodedIs(row, f, row.rawSize)
      && (row.compressed ==> f.unzipped.Some?)
    case _ => false
  }

  /** The copy is looked at: the hot one always, the cold one when asked for, unless its path cannot be reached. */
  ghost predicate LookedAt(files: Files, d: Digest, t: Tier, includeCold: bool) {
    (t == Hot || includeCold) && (d, t) in files && files[(d, t)] != Unreachable
  }

  lemma ResultExactly(row: BlockRow, files: Files, d: Digest, t: Tier, includeCold: bool)
    ensures var r := ScrubTier(row, files, d, t, includeCold);
      && (r.NotScrubbed? <==> !LookedAt(files, d, t, includeCold))
      && (r.Passed? <==> LookedAt(files, d, t, includeCold) && Good(row, files, d, t))
      && forall code :: r == Failed(code) <==>
           LookedAt(files, d, t, includeCold) && FailsWith(row, files[(d, t)], code)
  {
  }

  /** The copy is dropped. */
  predicate Drops(row: BlockRow, files: Files, d: Digest, t: Tier, includeCold: bool) {
    && row.storage == Tiered
    && ScrubTier(row, files, d, t, includeCold).Failed?
    && (ScrubTier(row, files, d, Hot, includeCold).Passed? || ScrubTier(row, files, d, Cold, includeCold).Passed?)
  }

  /** `_remove_bad_block_copy` on the row. */
  function WithoutCopy(row: BlockRow, t: Tier): BlockRow {
    row.(hot := if t == Hot then false else row.hot, cold := if t == Cold then false else row.cold,
         preferred := if row.preferred == Some(t) then Some(Other(t)) else row.preferred)
  }

  function ScrubbedRow(loaded: map<Digest, BlockRow>, files: Files, d: Digest, row: BlockRow,
                       includeCold: bool): BlockRow
  {
    if d in loaded then ScrubbedCopy(loaded[d], files, d, row, includeCold) else row
  }

  /** The row `now` once the copies of the block were compared with `loaded`. */
  function ScrubbedCopy(loaded: BlockRow, files: Files, d: Digest, now: BlockRow, includeCold: bool): BlockRow {
    if Drops(loaded, files, d, Hot, includeCold) then WithoutCopy(now, Hot)
    else if Drops(loaded, files, d, Cold, includeCold) then WithoutCopy(now, Cold)
    else now
  }

  /** Rows and files once the loaded blocks in `done` are scrubbed. */
  function RowsAfter(rows: map<Digest, BlockRow>, loaded: map<Digest, BlockRow>, files: Files, done: set<Digest>,
                     includeCold: bool): map<Digest, BlockRow>
  {
    map d | d in rows :: if d in done then ScrubbedRow(loaded, files, d, rows[d], includeCold) else rows[d]
  }

  function FilesAfter(loaded: map<Digest, BlockRow>, files: Files, done: set<Digest>, includeCold: bool): Files {
    map f | f in files && !(f.0 in done && f.0 in loaded && Drops(loaded[f.0], files, f.0, f.1, includeCold)) ::
      files[f]
  }

  /** The whole stage. */
  function RowsScrubbed(rows: map<Digest, BlockRow>, loaded: map<Digest, BlockRow>, files: Files,
                        includeCold: bool): map<Digest, BlockRow>
  {
    RowsAfter(rows, loaded, files, loaded.Keys, includeCold)
  }

  function FilesScrubbed(loaded: map<Digest, BlockRow>, files: Files, includeCold: bool): Files {
    FilesAfter(loaded, files, loaded.Keys, includeCold)
  }

  // ----- what the stage guarantees -----

  /** A copy goes exactly when it was read and failed while the other tier's copy was read and passed. */
  lemma DroppedExactly(loaded: map<Digest, BlockRow>, files: Files, includeCold: bool, d: Digest, t: Tier)
    requires (d, t) in files
    ensures (d, t) !in FilesScrubbed(loaded, files, includeCold)
       <==> d in loaded && loaded[d].storage == Tiered && includeCold && Good(loaded[d], files, d, Other(t))
            && files[(d, t)] != Unreachable && !Good(loaded[d], files, d, t)
  {
    if d in loaded {
      assert {t, Other(t)} == {Hot, Cold};
      assert ScrubTier(loaded[d], files, d, t, includeCold).Passed? ==> !Drops(loaded[d], files, d, t, includeCold);
    }
  }

  /** The same for one block. */
  lemma DropsExactly(row: BlockRow, files: Files, d: Digest, t: Tier, includeCold: bool)
    ensures Drops(row, files, d, t, includeCold) <==> MustGo(row, files, d, t, includeCold)
  {
    ResultExactly(row, files, d, Hot, includeCold);
    ResultExactly(row, files, d, Cold, includeCold);
    assert {t, Other(t)} == {Hot, Cold};
  }

  /** A copy that was read and is not good, beside one that is. */
  ghost predicate MustGo(row: BlockRow, files: Files, d: Digest, t: Tier, includeCold: bool) {
    && row.storage == Tiered && includeCold && (d, t) in files && files[(d, t)] != Unreachable
    && !Good(row, files, d, t) && Good(row, files, d, Other(t))
  }

  /** No validated copy is ever dropped, so no block loses its last one, over any set of blocks. */
  lemma GoodCopiesStay(loaded: map<Digest, BlockRow>, files: Files, includeCold: bool, d: Digest, t: Tier)
    requires d in loaded && Good(loaded[d], files, d, t)
    ensures Good(loaded[d], FilesScrubbed(loaded, files, includeCold), d, t)
  {
    DroppedExactly(loaded, files, includeCold, d, t);
  }

  /** Where a copy was dropped, the row no longer claims it, names the other tier as preferred, and that tier holds
      a validated copy; a row whose presence bits were those of the disk keeps the CHECK constraints. */
  lemma DroppedIsReplaced(rows: map<Digest, BlockRow>, loaded: map<Digest, BlockRow>, files: Files, includeCold: bool,
                          d: Digest, t: Tier)
    requires (d, t) in files && (d, t) !in FilesScrubbed(loaded, files, includeCold)
    requires d in rows && RowCheck(rows[d]) && rows[d].storage == Tiered
    ensures var row := RowsScrubbed(rows, loaded, files, includeCold)[d];
      && !Present(row, t) && row.preferred == Some(Other(t)) && Present(row, Other(t)) == Present(rows[d], Other(t))
      && row == rows[d].(hot := row.hot, cold := row.cold, preferred := row.preferred)
      && d in loaded && Good(loaded[d], FilesScrubbed(loaded, files, includeCold), d, Other(t))
      && (Present(rows[d], Other(t)) ==> RowCheck(row))
  {
    DroppedExactly(loaded, files, includeCold, d, t);
    GoodCopiesStay(loaded, files, includeCold, d, Other(t));
    assert Drops(loaded[d], files, d, t, includeCold) && !Drops(loaded[d], files, d, Other(t), includeCold);
    assert rows[d].preferred.value == t || rows[d].preferred.value == Other(t);
  }

  /** Rows of blocks that lose no copy stay as they are. */
  lemma OtherRowsStay(rows: map<Digest, BlockRow>, loaded: map<Digest, BlockRow>, files: Files, includeCold: bool,
                      d: Digest)
    requires d in loaded ==> forall t :: !MustGo(loaded[d], files, d, t, includeCold)
    ensures d in RowsScrubbed(rows, loaded, files, includeCold) <==> d in rows
    ensures d in rows ==> RowsScrubbed(rows, loaded, files, includeCold)[d] == rows[d]
  {
    if d in loaded {
      DropsExactly(loaded[d], files, d, Hot, includeCold);
      DropsExactly(loaded[d], files, d, Cold, includeCold);
    }
  }

  /** A second pass drops nothing. */
  lemma SecondPassDropsNothing(loaded: map<Digest, BlockRow>, files: Files, includeCold: bool)
    ensures FilesScrubbed(loaded, FilesScrubbed(loaded, files, includeCold), includeCold)
      == FilesScrubbed(loaded, files, includeCold)
  {
    var once := FilesScrubbed(loaded, files, includeCold);
    var twice := FilesScrubbed(loaded, once, includeCold);
    forall f | f in once ensures f in twice {
      DroppedExactly(loaded, files, includeCold, f.0, f.1);
      DroppedExactly(loaded, once, includeCold, f.0, f.1);
    }
  }

  // ----- what the stage reports -----

  function UnreachableIssues(files: Files, d: Digest, t: Tier, includeCold: bool): seq<ScrubIssue> {
    if (t == Hot || includeCold) && (d, t) in files && files[(d, t)].Unreachable?
    then [ScrubIssue(PayloadUnavailable, d, Some(t), false, false)] else []
  }

  function FailedIssues(d: Digest, t: Tier, result: Scrubbed, hasGood: bool, repair: bool): seq<ScrubIssue> {
    if result.Failed? then [ScrubIssue(result.code, d, Some(t), hasGood, hasGood && repair)] else []
  }

  function InlineIssues(row: BlockRow, d: Digest, payload: Option<File>): seq<ScrubIssue>
    requires payload.Some? ==> payload.value.Content?
  {
    if payload.None? then [ScrubIssue(MissingInline, d, None, false, false)]
    else
      match Validate(row, payload.value)
      case Some(code) => [ScrubIssue(code, d, None, false, false)]
      case None => []
  }

  function TieredIssues(row: BlockRow, files: Files, d: Digest, includeCold: bool, repair: bool): seq<ScrubIssue> {
    var (hot, cold) := (ScrubTier(row, files, d, Hot, includeCold), ScrubTier(row, files, d, Cold, includeCold));
    var hasGood := hot.Passed? || cold.Passed?;
    UnreachableIssues(files, d, Hot, includeCold) + UnreachableIssues(files, d, Cold, includeCold)
    + FailedIssues(d, Hot, hot, hasGood, repair) + FailedIssues(d, Cold, cold, hasGood, repair)
  }

  /** The issues of one record, in order. */
  function BlockIssues(row: BlockRow, files: Files, d: Digest, payload: Option<File>, includeCold: bool,
                       repair: bool): seq<ScrubIssue>
    requires payload.Some? ==> payload.value.Content?
  {
    if row.storage == Inline then InlineIssues(row, d, payload) else TieredIssues(row, files, d, includeCold, repair)
  }

  function PayloadOf(inlined: map<Digest, File>, d: Digest): Option<File> {
    if d in inlined then Some(inlined[d]) else None
  }

  /** An issue about one copy of a tiered block, in terms of files and row. */
  ghost predicate TierIssue(row: BlockRow, files: Files, issue: ScrubIssue, includeCold: bool, repair: bool) {
    && issue.tier.Some? && (issue.digest, issue.tier.value) in files && (issue.tier.value == Hot || includeCold)
    && var (d, t) := (issue.digest, issue.tier.value);
      if files[(d, t)].Unreachable? then issue.code == PayloadUnavailable && !issue.repairable && !issue.repaired
      else && FailsWith(row, files[(d, t)], issue.code)
           && (issue.repairable <==> includeCold && Good(row, files, d, Other(t)) && !Good(row, files, d, t))
           && (issue.repaired <==> issue.repairable && repair)
  }

  /** Exactly these are reported about a tiered block. */
  lemma TieredIssuesExactly(row: BlockRow, files: Files, d: Digest, includeCold: bool, repair: bool, issue: ScrubIssue)
    ensures issue in TieredIssues(row, files, d, includeCold, repair) <==>
      issue.digest == d && TierIssue(row, files, issue, includeCold, repair)
  {
    ResultExactly(row, files, d, Hot, includeCold);
    ResultExactly(row, files, d, Cold, includeCold);
  }

  /** And these about an inline one. */
  lemma InlineIssuesExactly(row: BlockRow, d: Digest, payload: Option<File>, issue: ScrubIssue)
    requires payload.Some? ==> payload.value.Content?
    ensures issue in InlineIssues(row, d, payload) <==>
      issue.digest == d && InlineIssue(row, payload, issue)
  {
  }

  ghost predicate InlineIssue(row: BlockRow, payload: Option<File>, issue: ScrubIssue) {
    && issue.tier.None? && !issue.repairable && !issue.repaired
    && if payload.None? then issue.code == MissingInline else FailsWith(row, payload.value, issue.code)
  }

  /** What is to be reported about one record. */
  ghost predicate IssueOf(row: BlockRow, files: Files, payload: Option<File>, issue: ScrubIssue, includeCold: bool,
                          repair: bool)
  {
    if row.storage == Inline then InlineIssue(row, payload, issue)
    else TierIssue(row, files, issue, includeCold, repair)
  }

  lemma BlockIssuesExactly(row: BlockRow, files: Files, d: Digest, payload: Option<File>, includeCold: bool,
                           repair: bool, issue: ScrubIssue)
    requires payload.Some? ==> payload.value.Content?
    ensures issue in BlockIssues(row, files, d, payload, includeCold, repair) <==>
      issue.digest == d && IssueOf(row, files, payload, issue, includeCold, repair)
  {
    if row.storage == Inline {
      InlineIssuesExactly(row, d, payload, issue);
    } else {
      TieredIssuesExactly(row, files, d, includeCold, repair, issue);
    }
  }

  /** Besides what was there before, exactly the issues of the records in `done` are in the list. */
  ghost predicate ReportsExactly(before: seq<ScrubIssue>, issues: seq<ScrubIssue>, loaded: map<Digest, BlockRow>,
                                 files: Files,
                                 inlined: map<Digest, File>, done: set<Digest>, includeCold: bool, repair: bool)
    requires done <= loaded.Keys && forall d :: d in inlined ==> inlined[d].Content?
  {
    forall issue: ScrubIssue :: issue in issues <==>
      issue in before || (issue.digest in done
                          && IssueOf(loaded[issue.digest], files, PayloadOf(inlined, issue.digest), issue, includeCold,
                               repair))
  }

  /** A failed copy is reported as repaired exactly when the stage drops it. */
  lemma RepairedExactly(row: BlockRow, files: Files, d: Digest, t: Tier, includeCold: bool)
    requires row.storage == Tiered && ScrubTier(row, files, d, t, includeCold).Failed?
    ensures ScrubIssue(ScrubTier(row, files, d, t, includeCold).code, d, Some(t), true, true) in TieredIssues(row,
      files, d, includeCold, true)
       <==> Drops(row, files, d, t, includeCold)
  {
    assert t == Hot || t == Cold;
  }

  // ----- the loop -----

  lemma RowsAfterStep(rows: map<Digest, BlockRow>, loaded: map<Digest, BlockRow>, files: Files, todo: set<Digest>,
                      d: Digest, includeCold: bool)
    requires d in todo && d in loaded
    ensures var before := RowsAfter(rows, loaded, files, loaded.Keys - todo, includeCold);
      RowsAfter(rows, loaded, files, loaded.Keys - (todo - {d}), includeCold)
      == if d in before then before[d := ScrubbedCopy(loaded[d], files, d, before[d], includeCold)] else before
  {
  }

  lemma FilesAfterStep(loaded: map<Digest, BlockRow>, files: Files, todo: set<Digest>, d: Digest, includeCold: bool)
    requires d in todo && d in loaded
    ensures var before := FilesAfter(loaded, files, loaded.Keys - todo, includeCold);
      FilesAfter(loaded, files, loaded.Keys - (todo - {d}), includeCold)
      == before - DropSet(loaded[d], files, d, includeCold)
    ensures forall t :: ((d, t) in FilesAfter(loaded, files, loaded.Keys - todo, includeCold) <==> (d, t) in files)
    ensures forall t ::
      (d, t) in files ==> FilesAfter(loaded, files, loaded.Keys - todo, includeCold)[(d, t)] == files[(d, t)]
  {
    forall f: (Digest, Tier) | f.0 == d ensures f == (d, Hot) || f == (d, Cold) {
      assert f.1 == Hot || f.1 == Cold;
    }
  }

  ghost predicate OwnFilesSame(files: Files, now: Files, d: Digest) {
    forall t :: ((d, t) in now <==> (d, t) in files) && ((d, t) in files ==> now[(d, t)] == files[(d, t)])
  }

  /** Results depend on the block's own files only. */
  lemma SameResults(row: BlockRow, files: Files, now: Files, d: Digest, t: Tier, includeCold: bool)
    requires OwnFilesSame(files, now, d)
    ensures ScrubTier(row, now, d, t, includeCold) == ScrubTier(row, files, d, t, includeCold)
    ensures UnreachableIssues(now, d, t, includeCold) == UnreachableIssues(files, d, t, includeCold)
  {
  }

  lemma SameBlock(row: BlockRow, files: Files, now: Files, d: Digest, includeCold: bool, repair: bool)
    requires OwnFilesSame(files, now, d)
    ensures DropSet(row, now, d, includeCold) == DropSet(row, files, d, includeCold)
    ensures TieredIssues(row, now, d, includeCold, repair) == TieredIssues(row, files, d, includeCold, repair)
  {
    SameResults(row, files, now, d, Hot, includeCold);
    SameResults(row, files, now, d, Cold, includeCold);
  }

  lemma SameCopy(row: BlockRow, files: Files, now: Files, d: Digest, includeCold: bool, r: BlockRow)
    requires OwnFilesSame(files, now, d)
    ensures ScrubbedCopy(row, now, d, r, includeCold) == ScrubbedCopy(row, files, d, r, includeCold)
  {
    SameResults(row, files, now, d, Hot, includeCold);
    SameResults(row, files, now, d, Cold, includeCold);
  }

  function DropSet(row: BlockRow, files: Files, d: Digest, includeCold: bool): set<(Digest, Tier)> {
    set t | t in {Hot, Cold} && Drops(row, files, d, t, includeCold) :: (d, t)
  }

  /** Of two results at most one copy goes. */
  function DroppedPaths(d: Digest, hot: Scrubbed, cold: Scrubbed, repair: bool): set<(Digest, Tier)> {
    if !repair then {}
    else if hot.Failed? && cold.Passed? then {(d, Hot)}
    else if cold.Failed? && hot.Passed? then {(d, Cold)}
    else {}
  }

  function DroppedRow(row: BlockRow, hot: Scrubbed, cold: Scrubbed, repair: bool): BlockRow {
    if !repair then row
    else if hot.Failed? && cold.Passed? then WithoutCopy(row, Hot)
    else if cold.Failed? && hot.Passed? then WithoutCopy(row, Cold)
    else row
  }

  lemma FiveJoin<T>(before: seq<T>, a: seq<T>, b: seq<T>, c: seq<T>, e: seq<T>)
    ensures before + a + b + c + e == before + (a + b + c + e)
  {
  }

  /** The issues of a tiered block in the order of the reads and the reports. */
  lemma TieredJoin(before: seq<ScrubIssue>, row: BlockRow, files: Files, d: Digest, includeCold: bool, repair: bool)
    ensures var hot, cold := ScrubTier(row, files, d, Hot, includeCold), ScrubTier(row, files, d, Cold, includeCold);
      var hasGood := hot.Passed? || cold.Passed?;
      before + UnreachableIssues(files, d, Hot, includeCold) + UnreachableIssues(files, d, Cold, includeCold)
        + FailedIssues(d, Hot, hot, hasGood, repair) + FailedIssues(d, Cold, cold, hasGood, repair)
      == before + TieredIssues(row, files, d, includeCold, repair)
  {
    var hot, cold := ScrubTier(row, files, d, Hot, includeCold), ScrubTier(row, files, d, Cold, includeCold);
    var hasGood := hot.Passed? || cold.Passed?;
    FiveJoin(before, UnreachableIssues(files, d, Hot, includeCold), UnreachableIssues(files, d, Cold, includeCold),
      FailedIssues(d, Hot, hot, hasGood, repair), FailedIssues(d, Cold, cold, hasGood, repair));
  }

  lemma DropsSetWhen(row: BlockRow, files: Files, d: Digest, includeCold: bool)
    requires row.storage == Tiered
    ensures var hot, cold := ScrubTier(row, files, d, Hot, includeCold), ScrubTier(row, files, d, Cold, includeCold);
      DropSet(row, files, d, includeCold) == DroppedPaths(d, hot, cold, true)
  {
  }

  lemma DropsRowWhen(row: BlockRow, files: Files, d: Digest, now: BlockRow, includeCold: bool)
    requires row.storage == Tiered
    ensures var hot, cold := ScrubTier(row, files, d, Hot, includeCold), ScrubTier(row, files, d, Cold, includeCold);
      ScrubbedCopy(row, files, d, now, includeCold) == DroppedRow(now, hot, cold, true)
  {
  }

  /** The copies that go and the issues that are reported when one tiered block is scrubbed, in terms of files and
      row. */
  lemma TieredExactly(row: BlockRow, files: Files, d: Digest, includeCold: bool, repair: bool)
    ensures forall t :: (d, t) in DropSet(row, files, d, includeCold) <==> MustGo(row, files, d, t, includeCold)
    ensures forall f :: f in DropSet(row, files, d, includeCold) ==> f.0 == d
    ensures forall issue :: issue in TieredIssues(row, files, d, includeCold, repair) <==>
      issue.digest == d && TierIssue(row, files, issue, includeCold, repair)
  {
    forall t ensures (d, t) in DropSet(row, files, d, includeCold) <==> MustGo(row, files, d, t, includeCold) {
      DropsExactly(row, files, d, t, includeCold);
      assert t == Hot || t == Cold;
    }
    forall issue ensures issue in TieredIssues(row, files, d, includeCold, repair) <==>
      issue.digest == d && TierIssue(row, files, issue, includeCold, repair)
    {
      TieredIssuesExactly(row, files, d, includeCold, repair, issue);
    }
  }

  lemma ReportsMore(before: seq<ScrubIssue>, issues: seq<ScrubIssue>, loaded: map<Digest, BlockRow>, files: Files,
                    inlined: map<Digest, File>,
                    todo: set<Digest>, d: Digest, includeCold: bool, repair: bool)
    requires (forall e :: e in inlined ==> inlined[e].Content?) && d in todo && todo <= loaded.Keys
    requires ReportsExactly(before, issues, loaded, files, inlined, loaded.Keys - todo, includeCold, repair)
    ensures ReportsExactly(before,
      issues + BlockIssues(loaded[d], files, d, PayloadOf(inlined, d), includeCold, repair), loaded, files, inlined,
                           loaded.Keys - (todo - {d}), includeCold, repair)
  {
    forall issue
      ensures issue in BlockIssues(loaded[d], files, d, PayloadOf(inlined, d), includeCold, repair) <==>
        issue.digest == d && IssueOf(loaded[d], files, PayloadOf(inlined, d), issue, includeCold, repair)
    {
      BlockIssuesExactly(loaded[d], files, d, PayloadOf(inlined, d), includeCold, repair, issue);
    }
  }

  class Scrubber {
    var rows: map<Digest, BlockRow>
    var files: Files
    var issues: seq<ScrubIssue>
    const repair: bool
    const includeCold: bool

    constructor (rows: map<Digest, BlockRow>, files: Files, repair: bool, includeCold: bool)
      ensures this.rows == rows && this.files == files && issues == [] && this.repair == repair
        && this.includeCold == includeCold
    {
      this.rows, this.files, this.issues, this.repair, this.includeCold := rows, files, [], repair, includeCold;
    }

    /** `_remove_bad_block_copy`. */
    method RemoveBadCopy(d: Digest, t: Tier)
      modifies this`rows, this`files
      ensures files == old(files) - {(d, t)}
      ensures rows == if d in old(rows) then old(rows)[d := WithoutCopy(old(rows)[d], t)] else old(rows)
    {
      files := files - {(d, t)};
      if d in rows {
        rows := rows[d := WithoutCopy(rows[d], t)];
      }
    }

    method ReportTier(d: Digest, t: Tier, result: Scrubbed, hasGood: bool)
      modifies this`rows, this`files, this`issues
      ensures var drop := result.Failed? && hasGood && repair;
        && files == (if drop then old(files) - {(d, t)} else old(files))
        && rows == (if drop && d in old(rows) then old(rows)[d := WithoutCopy(old(rows)[d], t)] else old(rows))
      ensures issues == old(issues) + FailedIssues(d, t, result, hasGood, repair)
    {
      if result.Failed? {
        if hasGood && repair {
          RemoveBadCopy(d, t);
        }
        issues := issues + [ScrubIssue(result.code, d, Some(t), hasGood, hasGood && repair)];
      }
    }

    /** `_scrub_tiered_payloads` for one tier, with the issue for a path that cannot be reached. */
    method ReadTier(d: Digest, row: BlockRow, t: Tier) returns (result: Scrubbed)
      modifies this`issues
      ensures result == ScrubTier(row, files, d, t, includeCold)
      ensures issues == old(issues) + UnreachableIssues(files, d, t, includeCold)
    {
      if t == Cold && !includeCold {
        return NotScrubbed;
      }
      if (d, t) !in files {
        return NotScrubbed;
      }
      match files[(d, t)]
      case Unreachable =>
        issues := issues + [ScrubIssue(PayloadUnavailable, d, Some(t), false, false)];
        return NotScrubbed;
      case Unreadable =>
        return Failed(CorruptPayload);
      case Content(_, _) =>
        var code := Validate(row, files[(d, t)]);
        return if code.None? then Passed else Failed(code.value);
    }

    /** The two results of a block are reported, and a bad copy beside a good one goes. */
    method ReportBoth(d: Digest, hot: Scrubbed, cold: Scrubbed)
      modifies this`rows, this`files, this`issues
      ensures files == old(files) - DroppedPaths(d, hot, cold, repair)
      ensures rows == if d in old(rows) then old(rows)[d := DroppedRow(old(rows)[d], hot, cold, repair)] else old(rows)
      ensures var hasGood := hot.Passed? || cold.Passed?;
        issues == old(issues) + FailedIssues(d, Hot, hot, hasGood, repair)
          + FailedIssues(d, Cold, cold, hasGood, repair)
    {
      var hasGood := hot.Passed? || cold.Passed?;
      ReportTier(d, Hot, hot, hasGood);
      ReportTier(d, Cold, cold, hasGood);
    }

    method ScrubTiered(d: Digest, row: BlockRow)
      requires row.storage == Tiered
      modifies this`rows, this`files, this`issues
      ensures files == if repair then old(files) - DropSet(row, old(files), d, includeCold) else old(files)
      ensures !repair ==> rows == old(rows)
      ensures repair ==> rows == if d in old(rows)
        then old(rows)[d := ScrubbedCopy(row, old(files), d, old(rows)[d], includeCold)] else old(rows)
      ensures issues == old(issues) + TieredIssues(row, old(files), d, includeCold, repair)
    {
      var hot := ReadTier(d, row, Hot);
      var cold := ReadTier(d, row, Cold);
      DropsSetWhen(row, files, d, includeCold);
      if d in rows {
        DropsRowWhen(row, files, d, rows[d], includeCold);
      }
      TieredJoin(old(issues), row, files, d, includeCold, repair);
      ReportBoth(d, hot, cold);
    }

    /** The check of a block stored inline. */
    method ScrubInline(d: Digest, row: BlockRow, payload: Option<File>)
      requires payload.Some? ==> payload.value.Content?
      modifies this`issues
      ensures issues == old(issues) + InlineIssues(row, d, payload)
    {
      if payload.None? {
        issues := issues + [ScrubIssue(MissingInline, d, None, false, false)];
        return;
      }
      var code := Validate(row, payload.value);
      if code.Some? {
        issues := issues + [ScrubIssue(code.value, d, None, false, false)];
      }
    }

    /** One record of the loop, seen from where the loop began. */
    method ScrubBlock(ghost rows0: map<Digest, BlockRow>, ghost files0: Files, loaded: map<Digest, BlockRow>,
                      ghost todo: set<Digest>, d: Digest,
                      payload: Option<File>)
      requires d in todo && d in loaded && (payload.Some? ==> payload.value.Content?)
      requires repair ==> rows == RowsAfter(rows0, loaded, files0, loaded.Keys - todo, includeCold)
      requires repair ==> files == FilesAfter(loaded, files0, loaded.Keys - todo, includeCold)
      requires !repair ==> files == files0
      modifies this`rows, this`files, this`issues
      ensures repair ==> rows == RowsAfter(rows0, loaded, files0, loaded.Keys - (todo - {d}), includeCold)
      ensures repair ==> files == FilesAfter(loaded, files0, loaded.Keys - (todo - {d}), includeCold)
      ensures !repair ==> rows == old(rows) && files == old(files)
      ensures issues == old(issues) + BlockIssues(loaded[d], files0, d, payload, includeCold, repair)
    {
      RowsAfterStep(rows0, loaded, files0, todo, d, includeCold);
      FilesAfterStep(loaded, files0, todo, d, includeCold);
      SameBlock(loaded[d], files0, files, d, includeCold, repair);
      if d in rows {
        SameCopy(loaded[d], files0, files, d, includeCold, rows[d]);
      }
      if loaded[d].storage == Inline {
        ScrubInline(d, loaded[d], payload);
      } else {
        ScrubTiered(d, loaded[d]);
      }
    }

    /** `_scrub_block_payloads` over the records loaded when the check began: rows and files are those of the stage, and
        exactly its issues are reported. */
    method ScrubBlockPayloads(loaded: map<Digest, BlockRow>, inlined: map<Digest, File>)
      requires forall d :: d in inlined ==> inlined[d].Content?
      modifies this`rows, this`files, this`issues
      ensures repair ==> rows == RowsScrubbed(old(rows), loaded, old(files), includeCold)
      ensures repair ==> files == FilesScrubbed(loaded, old(files), includeCold)
      ensures !repair ==> rows == old(rows) && files == old(files)
      ensures forall f :: f in files <==>
        f in old(files)
        && !(repair && f.0 in loaded && MustGo(loaded[f.0], old(files), f.0, f.1, includeCold))
      ensures ReportsExactly(old(issues), issues, loaded, old(files), inlined, loaded.Keys, includeCold, repair)
    {
      var todo := loaded.Keys;
      ghost var rows0, files0, issues0 := rows, files, issues;
      assert RowsAfter(rows0, loaded, files0, loaded.Keys - todo, includeCold) == rows0;
      assert FilesAfter(loaded, files0, loaded.Keys - todo, includeCold) == files0;
      while todo != {}
        invariant todo <= loaded.Keys
        invariant repair ==> rows == RowsAfter(rows0, loaded, files0, loaded.Keys - todo, includeCold)
        invariant repair ==> files == FilesAfter(loaded, files0, loaded.Keys - todo, includeCold)
        invariant !repair ==> rows == rows0 && files == files0
        invariant ReportsExactly(issues0, issues, loaded, files0, inlined, loaded.Keys - todo, includeCold, repair)
        decreases todo
      {
        var d :| d in todo;
        ReportsMore(issues0, issues, loaded, files0, inlined, todo, d, includeCold, repair);
        ScrubBlock(rows0, files0, loaded, todo, d, PayloadOf(inlined, d));
        todo := todo - {d};
      }
      assert loaded.Keys - todo == loaded.Keys;
      forall f ensures f in FilesScrubbed(loaded, files0, includeCold) <==>
        f in files0 && !(f.0 in loaded && MustGo(loaded[f.0], files0, f.0, f.1, includeCold))
      {
        if f.0 in loaded {
          DropsExactly(loaded[f.0], files0, f.0, f.1, includeCold);
        }
      }
    }
  }
}
