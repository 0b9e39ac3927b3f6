/** Preparing, storing and reading content-addressed blocks on two tiers, as code over the metadata store and the
    block files.  `View` shows the object as a state of the transition system, so that every method that
    touches rows or files is seen to take that system's steps. */
module BlockStore {
  import opened Types
  import opened Schema
  import opened TierRead
  import opened Tiering
  import opened Metadata

  datatype PreparedBlock = PreparedBlock(digest: Digest, rawData: Bytes, compressed: bool, payload: Payload,
                                         storedSize: int, inlined: bool)

  /** Stored length of a payload: of a plain one its own length, of a compressed one whatever zstd makes of it. */
  datatype Codec = Codec(length: Payload -> nat, compressionMin: int, inlineMax: int)

  ghost predicate GoodCodec(codec: Codec) {
    && (forall data :: codec.length(Plain(data)) == |data|)
    && (forall data :: codec.length(Zstd(data)) > 0)
  }

  /** `encode_block`: whether the block is compressed. */
  predicate Compresses(codec: Codec, data: Bytes, compress: bool) {
    compress && |data| >= codec.compressionMin
  }

  function Prepare(codec: Codec, data: Bytes, compress: bool): PreparedBlock {
    var compressed := Compresses(codec, data, compress);
    var payload := Encode(data, compressed);
    var size := codec.length(payload);
    PreparedBlock(Digest(data), data, compressed, payload, size, codec.inlineMax > 0 && size <= codec.inlineMax)
  }

  /** What is prepared: the block itself, compressed when that is asked for and it is long enough, and inline when
      what is to be stored is short enough. */
  lemma PreparedExactly(codec: Codec, data: Bytes, compress: bool)
    ensures var b := Prepare(codec, data, compress);
      && b.digest.data == b.rawData == b.payload.data == data
      && (b.payload == Zstd(data) <==> compress && !(|data| < codec.compressionMin))
      && b.compressed == b.payload.Zstd? && b.storedSize == codec.length(b.payload)
      && (b.inlined <==> !(codec.inlineMax <= 0) && !(b.storedSize > codec.inlineMax))
  {
  }

  ghost predicate WellPrepared(codec: Codec, b: PreparedBlock) {
    && b.digest == Digest(b.rawData) && b.rawData != []
    && b.payload == Encode(b.rawData, b.compressed) && b.storedSize == codec.length(b.payload)
  }

  /** The row `insert_blocks` stores for a prepared block. */
  function RowOf(b: PreparedBlock): BlockRow {
    if b.inlined
    then BlockRow(Inline, b.compressed, |b.rawData|, b.storedSize, 0, false, false, None, None, None, Some(b.payload))
    else BlockRow(Tiered, b.compressed, |b.rawData|, b.storedSize, 0, true, false, Some(Hot), None, None, None)
  }

  /** `decode_payload`: wrong framing or wrong length is an error. */
  function Decode(row: BlockRow, payload: Payload): Result<Bytes> {
    if payload.Zstd? == row.compressed && |payload.data| == row.rawSize then Ok(payload.data) else Err(EIO)
  }

  /** `read_block_snapshot` without the cache.  A successful read gives the block's own bytes, cut or zero-filled
      to the expected size, whatever was unreachable or left over. */
  function Snapshot(disk: Disk, down: set<(Digest, Tier)>, d: Digest, row: BlockRow, expected: nat): (r: Result<Bytes>)
    ensures Addressed(disk) && (row.inlinePayload.Some? ==> row.inlinePayload.value.data == d.data) && r.Ok?
      ==> r.value == Fit(d.data, expected)
  {
    var payload := match row.storage
      case Inline => row.inlinePayload
      case Tiered =>
        (match ReadTiered(row, ProbeIn(disk, down, d, Hot), ProbeIn(disk, down, d, Cold))
         case Ok(decision) => if (d, decision.tier) in disk then Some(disk[(d, decision.tier)]) else None
         case Err(_) => None);
    if payload.None? then Err(EIO)
    else match Decode(row, payload.value)
      case Ok(data) => Ok(Fit(data, expected))
      case Err(e) => Err(e)
  }

  /** The copy a read decodes: the inline one, or of a tiered block the preferred copy when its file is there, and
      else the other one when its file is there and the preferred one is missing, or away while the row declares the
      other. */
  ghost predicate IsReadCopy(disk: Disk, down: set<(Digest, Tier)>, d: Digest, row: BlockRow, copy: Payload) {
    var t := PreferredTier(row);
    if row.storage == Inline then row.inlinePayload == Some(copy)
    else if (d, t) !in down && (d, t) in disk then copy == disk[(d, t)]
    else && (d, Other(t)) !in down && (d, Other(t)) in disk && copy == disk[(d, Other(t))]
         && ((d, t) in down ==> Present(row, Other(t)))
  }

  /** A read succeeds if and only if there is such a copy, framed as the row says and of the length the row says. */
  lemma SnapshotExactly(disk: Disk, down: set<(Digest, Tier)>, d: Digest, row: BlockRow, expected: nat)
    ensures Snapshot(disk, down, d, row, expected).Ok? <==>
      exists copy :: IsReadCopy(disk, down, d, row, copy) && copy.Zstd? == row.compressed && |copy.data| == row.rawSize
    ensures forall copy ::
      IsReadCopy(disk, down, d, row, copy) && Snapshot(disk, down, d, row, expected).Ok? ==>
        Snapshot(disk, down, d, row, expected) == Ok(Fit(copy.data, expected))
  {
    var t := PreferredTier(row);
    if row.storage == Inline {
      assert row.inlinePayload.Some? ==> IsReadCopy(disk, down, d, row, row.inlinePayload.value);
    } else if (d, t) !in down && (d, t) in disk {
      assert IsReadCopy(disk, down, d, row, disk[(d, t)]);
    } else if (d, Other(t)) !in down && (d, Other(t)) in disk && ((d, t) in down ==> Present(row, Other(t))) {
      assert IsReadCopy(disk, down, d, row, disk[(d, Other(t))]);
    }
  }

  /** Files are content-addressed: whatever a file for a digest holds, it encodes that block. */
  ghost predicate Addressed(disk: Disk) {
    forall f :: f in disk ==> disk[f].data == f.0.data
  }

  /** Inline payloads encode their block. */
  ghost predicate InlineAddressed(db: Database) {
    forall d :: d in db.blocks && db.blocks[d].inlinePayload.Some? ==> db.blocks[d].inlinePayload.value.data == d.data
  }

  /** Under the crash invariant with both tiers reachable every read succeeds. */
  lemma SafeRowReads(disk: Disk, d: Digest, row: BlockRow, queue: set<(Digest, Tier)>, expected: nat)
    requires RowSafe(d, row, disk, queue)
    ensures Snapshot(disk, {}, d, row, expected) == Ok(Fit(d.data, expected))
  {
  }

  // ----- storing prepared blocks -----

  /** The row of a block after `ensure_prepared_blocks`, and the hot file it needs, if any. */
  function EnsuredRow(blocks: map<Digest, BlockRow>, b: PreparedBlock, now: int): BlockRow {
    if b.digest !in blocks then RowOf(b)
    else if blocks[b.digest].storage == Inline || blocks[b.digest].hot then blocks[b.digest]
    else HotAgain(blocks[b.digest], now)
  }

  function NeededFile(blocks: map<Digest, BlockRow>, b: PreparedBlock): Option<Payload> {
    if b.digest !in blocks then (if b.inlined then None else Some(b.payload))
    else if blocks[b.digest].storage == Inline || blocks[b.digest].hot then None
    else Some(Encode(b.rawData, blocks[b.digest].compressed))
  }

  /** A reused row must agree with the incoming block, and a file that is needed must be writable. */
  predicate CanStore(blocks: map<Digest, BlockRow>, codec: Codec, down: set<(Digest, Tier)>, b: PreparedBlock) {
    if b.digest in blocks && NeededFile(blocks, b).Some? then
      var row := blocks[b.digest];
      row.rawSize == |b.rawData| && codec.length(Encode(b.rawData, row.compressed)) == row.storedSize
        && (b.digest, Hot) !in down
    else
      NeededFile(blocks, b).None? || (b.digest, Hot) !in down
  }

  /** With which error storing a block fails: the sizes of its row are others, or the hot file it needs cannot be
      written. */
  predicate StoreFails(blocks: map<Digest, BlockRow>, codec: Codec, down: set<(Digest, Tier)>, b: PreparedBlock,
                       e: Errno) {
    var cold := b.digest in blocks && blocks[b.digest].storage == Tiered && !blocks[b.digest].hot;
    var clash := cold && (blocks[b.digest].rawSize != |b.rawData|
      || blocks[b.digest].storedSize != codec.length(Encode(b.rawData, blocks[b.digest].compressed)));
    if clash then
      e == Internal
    else
      e == EIO && (b.digest, Hot) in down && (cold || (b.digest !in blocks && !b.inlined))
  }

  /** A block that is only on the cold tier was stored while the codec was `before`. Written again under another one,
      say after a change of the compression level, it is accepted if and only if its row is not compressed or the
      length came out the same. */
  lemma ChangedCodecStoresExactly(before: Codec, now: Codec, blocks: map<Digest, BlockRow>, down: set<(Digest, Tier)>,
                                  b: PreparedBlock)
    requires GoodCodec(before) && GoodCodec(now) && b.digest in blocks && (b.digest, Hot) !in down
    requires var row := blocks[b.digest];
      && row.storage == Tiered && !row.hot && row.rawSize == |b.rawData|
      && row.storedSize == before.length(Encode(b.rawData, row.compressed))
    ensures CanStore(blocks, now, down, b) <==>
      !blocks[b.digest].compressed || now.length(Zstd(b.rawData)) == before.length(Zstd(b.rawData))
  {
    assert now.length(Plain(b.rawData)) == before.length(Plain(b.rawData));
  }

  /** A codec that makes the same of every block. */
  function FixedCodec(size: nat): Codec {
    Codec((payload: Payload) => if payload.Plain? then |payload.data| else size, 0, 0)
  }

  const COMPRESSED_COLD_ROW := BlockRow(Tiered, true, 1, 1, 1, false, true, Some(Cold), None, None, None)

  lemma ChangedCodecExample()
    ensures var blocks := map[BLOCK := COMPRESSED_COLD_ROW];
      && GoodCodec(FixedCodec(1)) && CanStore(blocks, FixedCodec(1), {}, Prepare(FixedCodec(1), BLOCK.data, true))
      && GoodCodec(FixedCodec(2)) && !CanStore(blocks, FixedCodec(2), {}, Prepare(FixedCodec(2), BLOCK.data, true))
  {
    var blocks, one, two := map[BLOCK := COMPRESSED_COLD_ROW], FixedCodec(1), FixedCodec(2);
    ChangedCodecStoresExactly(one, one, blocks, {}, Prepare(one, BLOCK.data, true));
    ChangedCodecStoresExactly(one, two, blocks, {}, Prepare(two, BLOCK.data, true));
  }

  /** The guards of the steps that store one block. */
  ghost predicate StoreGuard(s: State, b: PreparedBlock) {
    var file := NeededFile(s.db.blocks, b);
    && (file.Some? ==> FilesMatch(s.disk, b.digest, file.value))
    && (b.digest !in s.db.blocks && !b.inlined ==> (b.digest, Hot) !in s.db.queue || (b.digest, Cold) in s.disk)
  }

  function RowsAfter(blocks: map<Digest, BlockRow>, unique: map<Digest, PreparedBlock>, now: int): map<Digest,
                     BlockRow>
  {
    blocks + map d | d in unique :: EnsuredRow(blocks, unique[d], now)
  }

  /** Rows of blocks that existed already, after the blocks in `done` were stored. */
  /** The rows of a stored batch: a new block gets a row that nobody refers to yet, hot unless it is inline; a tiered
      one that was only cold becomes hot again; others stay. */
  lemma RowsAfterExactly(blocks: map<Digest, BlockRow>, unique: map<Digest, PreparedBlock>, now: int, d: Digest)
    requires d in unique ==> unique[d].digest == d
    ensures d in RowsAfter(blocks, unique, now) <==> d in blocks || d in unique
    ensures d in blocks && (d !in unique || blocks[d].storage == Inline || blocks[d].hot) ==>
      RowsAfter(blocks, unique, now)[d] == blocks[d]
    ensures d in blocks && d in unique && blocks[d].storage == Tiered && !blocks[d].hot ==>
      RowsAfter(blocks, unique, now)[d] == blocks[d].(hot := true, preferred := Some(Hot), lastPromoted := Some(now))
    ensures d in unique && d !in blocks ==>
      var row, b := RowsAfter(blocks, unique, now)[d], unique[d];
      && row.refcount == 0 && row.rawSize == |b.rawData| && row.storedSize == b.storedSize
      && row.compressed == b.compressed && row.coldGc.None? && row.lastPromoted.None?
      && (row.storage == Inline <==> b.inlined)
      && row.inlinePayload == (if b.inlined then Some(b.payload) else None)
      && (row.hot <==> !b.inlined) && !row.cold && row.preferred == (if b.inlined then None else Some(Hot))
  {
  }

  function ExistingAfter(blocks: map<Digest, BlockRow>, unique: map<Digest, PreparedBlock>, done: set<Digest>,
                         now: int): map<Digest, BlockRow>
  {
    map d | d in blocks :: if d in unique && d in done then EnsuredRow(blocks, unique[d], now) else blocks[d]
  }

  function NewRowsOf(blocks: map<Digest, BlockRow>, unique: map<Digest, PreparedBlock>, done: set<Digest>): map<Digest,
                     BlockRow>
  {
    map d | d in unique && d in done && d !in blocks :: RowOf(unique[d])
  }

  ghost predicate AllPrepared(codec: Codec, unique: map<Digest, PreparedBlock>) {
    forall d :: d in unique ==> unique[d].digest == d && WellPrepared(codec, unique[d])
  }

  lemma ExistingAfterStep(blocks: map<Digest, BlockRow>, unique: map<Digest, PreparedBlock>, todo: set<Digest>,
                          d: Digest, now: int)
    requires d in unique && d in todo && unique[d].digest == d
    ensures ExistingAfter(blocks, unique, unique.Keys - (todo - {d}), now)
         == if d in blocks
            then ExistingAfter(blocks, unique, unique.Keys - todo, now)[d := EnsuredRow(blocks, unique[d], now)]
            else ExistingAfter(blocks, unique, unique.Keys - todo, now)
    ensures d in blocks ==> ExistingAfter(blocks, unique, unique.Keys - todo, now)[d] == blocks[d]
  {
  }

  lemma NoneStored(blocks: map<Digest, BlockRow>, unique: map<Digest, PreparedBlock>, now: int)
    ensures ExistingAfter(blocks, unique, unique.Keys - unique.Keys, now) == blocks
  {
  }

  lemma AllStored(blocks: map<Digest, BlockRow>, unique: map<Digest, PreparedBlock>, now: int)
    requires forall d :: d in unique ==> unique[d].digest == d
    ensures ExistingAfter(blocks, unique, unique.Keys - {}, now) + NewRowsOf(blocks, unique, unique.Keys)
      == RowsAfter(blocks, unique, now)
  {
  }

  function WithRows(s: State, rows: map<Digest, BlockRow>): State {
    s.(db := s.db.(blocks := s.db.blocks + rows))
  }

  /** What `InsertBlock` needs, guard included. */
  ghost predicate CanInsert(s: State, d: Digest, row: BlockRow) {
    && d !in s.db.blocks && NewRow(d, row) && s.demotion == NotDemoting
    && (row.storage == Tiered ==> d in s.written && s.written[d] == Encode(d.data, row.compressed))
    && (row.storage == Tiered ==> (d, Hot) !in s.db.queue || (d, Cold) in s.disk)
  }

  lemma InsertOne(from: State, s: State, rows: map<Digest, BlockRow>, d: Digest, row: BlockRow)
    requires d !in rows && CanInsert(s, d, row) && Reaches(from, WithRows(s, rows))
    ensures Reaches(from, WithRows(s, rows[d := row]))
  {
    assert (s.db.blocks + rows)[d := row] == s.db.blocks + rows[d := row];
    ReachesStep(from, WithRows(s, rows), InsertBlock(d, row));
  }

  lemma AddedBack(rows: map<Digest, BlockRow>, d: Digest)
    requires d in rows
    ensures (rows - {d})[d := rows[d]] == rows && (rows - {d}).Keys < rows.Keys
    ensures forall e :: e in rows - {d} ==> e in rows && (rows - {d})[e] == rows[e]
  {
    assert d !in (rows - {d}).Keys;
  }

  /** `insert_blocks` as steps of the system. */
  lemma {:induction false} InsertMany(from: State, s: State, rows: map<Digest, BlockRow>)
    requires Reaches(from, s) && forall d :: d in rows ==> CanInsert(s, d, rows[d])
    ensures Reaches(from, WithRows(s, rows))
    decreases rows.Keys
  {
    if rows.Keys == {} {
      assert s.db.blocks + rows == s.db.blocks;
    } else {
      var d :| d in rows.Keys;
      var rest := rows - {d};
      AddedBack(rows, d);
      InsertMany(from, s, rest);
      InsertOne(from, s, rest, d, rows[d]);
    }
  }

  /** The disk once the blocks outside `todo` are stored: needed hot files were added, nothing was overwritten. */
  ghost predicate FilesStored(first: Disk, blocks: map<Digest, BlockRow>, unique: map<Digest, PreparedBlock>,
                              todo: set<Digest>, disk: Disk)
  {
    && (forall f :: f in disk <==>
         f in first || (f.1 == Hot && f.0 !in todo && f.0 in unique && NeededFile(blocks, unique[f.0]).Some?))
    && (forall f :: f in disk ==> disk[f] == if f in first then first[f] else NeededFile(blocks, unique[f.0]).value)
  }

  /** The files of a stored batch: every new tiered block and every one that was only cold has a hot file, and a file
      that was there stays as it was. */
  lemma FilesStoredExactly(first: Disk, blocks: map<Digest, BlockRow>, unique: map<Digest, PreparedBlock>, disk: Disk,
                           d: Digest)
    requires FilesStored(first, blocks, unique, {}, disk) && (d in unique ==> unique[d].digest == d)
    ensures (d, Cold) in disk <==> (d, Cold) in first
    ensures (d, Hot) in disk <==>
      || (d, Hot) in first
      || (d in unique && if d in blocks then blocks[d].storage == Tiered && !blocks[d].hot else !unique[d].inlined)
    ensures forall t :: (d, t) in first ==> disk[(d, t)] == first[(d, t)]
    ensures (d, Hot) in disk && (d, Hot) !in first ==>
      disk[(d, Hot)]
        == if d in blocks then Encode(unique[d].rawData, blocks[d].compressed) else unique[d].payload
  {
  }

  function AddNeeded(disk: Disk, d: Digest, needed: Option<Payload>): Disk {
    if needed.Some? then WriteAtomic(disk, d, Hot, needed.value) else disk
  }

  lemma FilesStoredStep(first: Disk, blocks: map<Digest, BlockRow>, unique: map<Digest, PreparedBlock>,
                        todo: set<Digest>, disk: Disk, d: Digest)
    requires FilesStored(first, blocks, unique, todo, disk) && d in unique && d in todo
    ensures FilesStored(first, blocks, unique, todo - {d}, AddNeeded(disk, d, NeededFile(blocks, unique[d])))
  {
  }

  lemma StoredAddressed(codec: Codec, first: Disk, blocks: map<Digest, BlockRow>, unique: map<Digest, PreparedBlock>,
                        todo: set<Digest>, disk: Disk)
    requires AllPrepared(codec, unique) && FilesStored(first, blocks, unique, todo, disk)
    ensures Addressed(first) ==> Addressed(disk)
  {
    forall f | f in disk && f !in first ensures disk[f].data == f.0.data {
      assert WellPrepared(codec, unique[f.0]);
    }
  }

  /** Storing other blocks does not affect the guard of one still to do. */
  lemma GuardStays(from: State, at: State, unique: map<Digest, PreparedBlock>, todo: set<Digest>, d: Digest)
    requires d in unique && d in todo && unique[d].digest == d && StoreGuard(from, unique[d])
    requires FilesStored(from.disk, from.db.blocks, unique, todo, at.disk) && at.db.queue == from.db.queue
    requires (d in at.db.blocks <==> d in from.db.blocks)
    requires (d in at.db.blocks ==> at.db.blocks[d] == from.db.blocks[d])
    ensures StoreGuard(at, unique[d])
  {
  }

  /** Blocks with one digest are one block. */
  predicate Agree(blocks: seq<PreparedBlock>) {
    forall i, j :: 0 <= i < j < |blocks| && blocks[i].digest == blocks[j].digest ==> blocks[i] == blocks[j]
  }

  ghost predicate AllGuards(from: State, unique: map<Digest, PreparedBlock>) {
    forall d :: d in unique ==> StoreGuard(from, unique[d])
  }

  /** Files of the blocks that get a new row are written, with the payload the row will describe. */
  ghost predicate NewFilesWritten(blocks: map<Digest, BlockRow>, unique: map<Digest, PreparedBlock>, todo: set<Digest>,
                                  written: map<Digest, Payload>)
  {
    forall d :: d in unique && d !in todo && d !in blocks && !unique[d].inlined ==>
      d in written && written[d] == unique[d].payload
  }

  lemma NewFilesStep(blocks: map<Digest, BlockRow>, unique: map<Digest, PreparedBlock>, todo: set<Digest>, d: Digest,
                     before: map<Digest, Payload>, after: map<Digest, Payload>)
    requires NewFilesWritten(blocks, unique, todo, before) && d in unique && before.Keys <= after.Keys
    requires forall e :: e in before && e != d ==> after[e] == before[e]
    requires d !in blocks && !unique[d].inlined ==> d in after && after[d] == unique[d].payload
    ensures NewFilesWritten(blocks, unique, todo - {d}, after)
  {
  }

  ghost predicate StorableBut(blocks: map<Digest, BlockRow>, codec: Codec, down: set<(Digest, Tier)>,
                              unique: map<Digest, PreparedBlock>,
                              todo: set<Digest>) {
    forall d :: d in unique && d !in todo ==> CanStore(blocks, codec, down, unique[d])
  }

  lemma StoredReaches(from: State, at: State, after: State, unique: map<Digest, PreparedBlock>, d: Digest)
    requires d in unique && (AllGuards(from, unique) ==> Reaches(from, at))
    requires StoreGuard(from, unique[d]) ==> Reaches(at, after)
    ensures AllGuards(from, unique) ==> Reaches(from, after)
  {
    if AllGuards(from, unique) {
      assert StoreGuard(from, unique[d]);
      ReachesThen(from, at, after);
    }
  }

  /** After the loop the new rows can be inserted one by one. */
  lemma NewRowsEnabled(from: State, at: State, codec: Codec, unique: map<Digest, PreparedBlock>)
    requires GoodCodec(codec) && AllPrepared(codec, unique) && AllGuards(from, unique) && at.demotion == NotDemoting
    requires FilesStored(from.disk, from.db.blocks, unique, {}, at.disk) && at.db.queue == from.db.queue
    requires at.db.blocks.Keys == from.db.blocks.Keys && NewFilesWritten(from.db.blocks, unique, {}, at.written)
    ensures forall d :: d in NewRowsOf(from.db.blocks, unique, unique.Keys) ==> CanInsert(at, d, RowOf(unique[d]))
  {
    forall d | d in NewRowsOf(from.db.blocks, unique, unique.Keys) ensures CanInsert(at, d, RowOf(unique[d])) {
      assert WellPrepared(codec, unique[d]) && StoreGuard(from, unique[d]);
      NewRowIsNew(codec, unique[d]);
    }
  }

  lemma InsertReaches(from: State, at: State, codec: Codec, unique: map<Digest, PreparedBlock>)
    requires GoodCodec(codec) && AllPrepared(codec, unique) && AllGuards(from, unique) && at.demotion == NotDemoting
    requires FilesStored(from.disk, from.db.blocks, unique, {}, at.disk) && at.db.queue == from.db.queue
    requires at.db.blocks.Keys == from.db.blocks.Keys && NewFilesWritten(from.db.blocks, unique, {}, at.written)
    requires Reaches(from, at)
    ensures Reaches(from, WithRows(at, NewRowsOf(from.db.blocks, unique, unique.Keys)))
  {
    NewRowsEnabled(from, at, codec, unique);
    InsertMany(from, at, NewRowsOf(from.db.blocks, unique, unique.Keys));
  }

  lemma NewRowIsNew(codec: Codec, b: PreparedBlock)
    requires GoodCodec(codec) && WellPrepared(codec, b)
    ensures NewRow(b.digest, RowOf(b))
  {
  }

  function Rewritten(s: State, d: Digest, payload: Payload, now: int): State {
    Next(Next(s, WriteFile(d, payload)), MakeHot(d, now))
  }

  lemma RewriteReaches(s: State, d: Digest, payload: Payload, now: int)
    requires d in s.db.blocks && s.db.blocks[d].storage == Tiered && !s.db.blocks[d].hot
    requires payload == Encode(d.data, s.db.blocks[d].compressed) && FilesMatch(s.disk, d, payload)
    ensures Reaches(s, Rewritten(s, d, payload, now))
  {
    ReachesSelf(s);
    ReachesStep(s, s, WriteFile(d, payload));
    ReachesStep(s, Next(s, WriteFile(d, payload)), MakeHot(d, now));
  }

  // ----- counting hot writes -----

  /** Bytes written to the hot tier since the last request, and whether a pass of demotion is requested. */
  datatype HotWrites = HotWrites(added: nat, requested: bool)

  predicate Below(hotMax: nat, hot: HotWrites) {
    hotMax > 0 ==> hot.added < hotMax
  }

  /** The counter and the request after `total` more bytes went to the hot tier, in however many writes: a pass of
      demotion is requested once the bytes since the last request reach the limit. */
  ghost predicate Noted(hotMax: nat, before: HotWrites, after: HotWrites, total: nat) {
    if hotMax == 0 then
      after == before
    else
      && (after.requested <==> before.requested || before.added + total >= hotMax)
      && (before.added + total < hotMax ==> after.added == before.added + total)
      && after.added < hotMax
  }

  function FileSize(codec: Codec, file: Option<Payload>): nat {
    if file.Some? then codec.length(file.value) else 0
  }

  /** Bytes `ensure_prepared_blocks` writes for the blocks in `todo`. */
  ghost function NeededBytes(codec: Codec, blocks: map<Digest, BlockRow>, unique: map<Digest, PreparedBlock>,
                             todo: set<Digest>): nat
  {
    if todo == {} then 0
    else
      var d :| d in todo;
      NeededSize(codec, blocks, unique, d) + NeededBytes(codec, blocks, unique, todo - {d})
  }

  ghost function NeededSize(codec: Codec, blocks: map<Digest, BlockRow>, unique: map<Digest, PreparedBlock>,
                            d: Digest): nat
  {
    if d in unique then FileSize(codec, NeededFile(blocks, unique[d])) else 0
  }

  /** The sum does not depend on the order in which the blocks are stored. */
  lemma {:induction false} NeededBytesLess(codec: Codec, blocks: map<Digest, BlockRow>,
                                           unique: map<Digest, PreparedBlock>,
                                           todo: set<Digest>, d: Digest)
    requires d in todo
    ensures NeededBytes(codec, blocks, unique, todo)
         == NeededSize(codec, blocks, unique, d) + NeededBytes(codec, blocks, unique, todo - {d})
    decreases todo
  {
    var e :| e in todo && NeededBytes(codec, blocks, unique, todo)
      == NeededSize(codec, blocks, unique, e) + NeededBytes(codec, blocks, unique, todo - {e});
    if e != d {
      NeededBytesLess(codec, blocks, unique, todo - {e}, d);
      NeededBytesLess(codec, blocks, unique, todo - {d}, e);
      assert todo - {e} - {d} == todo - {d} - {e};
    }
  }

  /** All blocks but those in `todo` are accounted for. */
  ghost predicate NotedBut(codec: Codec, hotMax: nat, before: HotWrites, after: HotWrites,
                           blocks: map<Digest, BlockRow>,
                           unique: map<Digest, PreparedBlock>, todo: set<Digest>) {
    var all, rest := NeededBytes(codec, blocks, unique, unique.Keys), NeededBytes(codec, blocks, unique, todo);
    rest <= all && Noted(hotMax, before, after, all - rest)
  }

  lemma NotedStep(codec: Codec, hotMax: nat, before: HotWrites, mid: HotWrites, after: HotWrites,
                  blocks: map<Digest, BlockRow>, unique: map<Digest, PreparedBlock>, todo: set<Digest>, d: Digest)
    requires d in unique && d in todo
    ensures NotedBut(codec, hotMax, before, mid, blocks, unique, todo) ==> (hotMax > 0 ==> mid.added < hotMax)
    ensures NotedBut(codec, hotMax, before, mid, blocks, unique, todo)
      && Noted(hotMax, mid, after, FileSize(codec, NeededFile(blocks, unique[d])))
      ==> NotedBut(codec, hotMax, before, after, blocks, unique, todo - {d})
  {
    NeededBytesLess(codec, blocks, unique, todo, d);
  }

  lemma StorableStep(blocks: map<Digest, BlockRow>, codec: Codec, down: set<(Digest, Tier)>,
                     unique: map<Digest, PreparedBlock>, todo: set<Digest>, d: Digest)
    requires d in unique && d in todo
    ensures CanStore(blocks, codec, down, unique[d]) && StorableBut(blocks, codec, down, unique, todo) ==>
      StorableBut(blocks, codec, down, unique, todo - {d})
    ensures !CanStore(blocks, codec, down, unique[d]) ==> !StorableBut(blocks, codec, down, unique, {})
  {
  }

  /** `should_copy_up_from_cold`. */
  predicate CopiesUp(hotMax: nat, row: BlockRow, tier: Tier) {
    tier == Cold && hotMax > 0 && row.storedSize <= hotMax
  }

  /** The read took its copy from a committed tiered row, from cold only where that row or the file says so. */
  ghost predicate CanCopyUp(s: State, d: Digest, tier: Tier) {
    && d in s.committed.blocks && s.committed.blocks[d].storage == Tiered
    && (tier == Cold ==> PreferredTier(s.committed.blocks[d]) == Cold || (d, Cold) in s.disk)
  }

  class BlockStore {
    const meta: MetadataStore
    const codec: Codec
    const hotMax: nat
    var disk: Disk
    var down: set<(Digest, Tier)>
    var inflight: set<Digest>
    var hot: HotWrites
    ghost var written: map<Digest, Payload>
    ghost var demotion: Demotion
    ghost var promoting: set<Digest>
    ghost var draining: set<(Digest, Tier)>

    constructor (meta: MetadataStore, codec: Codec, hotMax: nat, disk: Disk, down: set<(Digest, Tier)>)
      ensures this.meta == meta && this.codec == codec && this.hotMax == hotMax && this.disk == disk
        && this.down == down
      ensures Counting() && !hot.requested
      ensures View() == State(meta.committed, meta.db, disk, map[], NotDemoting, {}, {})
    {
      this.meta, this.codec, this.hotMax, this.disk, this.down, this.inflight := meta, codec, hotMax, disk, down, {};
      hot := HotWrites(0, false);
      written, demotion, promoting, draining := map[], NotDemoting, {}, {};
    }

    ghost function View(): State
      reads this, meta
    {
      State(meta.committed, meta.db, disk, written, demotion, promoting, draining)
    }

    /** The counter stays below the limit, where there is one. */
    predicate Counting()
      reads this`hot
    {
      Below(hotMax, hot)
    }

    /** `note_hot_write`. */
    method NoteHotWrite(size: nat)
      modifies this`hot
      ensures old(Counting()) ==> Noted(hotMax, old(hot), hot, size)
    {
      if hotMax <= 0 {
        return;
      }
      hot := hot.(added := hot.added + size);
      if hot.added >= hotMax {
        hot := HotWrites(0, true);
      }
    }

    /** `request_demotion`. */
    method RequestDemotion()
      modifies this`hot
      ensures hot == old(hot).(requested := old(hot).requested || hotMax > 0)
    {
      if hotMax > 0 {
        hot := hot.(requested := true);
      }
    }

    /** `take_demotion_request`. */
    method TakeDemotionRequest() returns (requested: bool)
      modifies this`hot
      ensures requested == old(hot).requested && hot == old(hot).(requested := false)
    {
      requested := hot.requested;
      hot := hot.(requested := false);
    }

    /** `prepare_blocks`, sequentially. */
    method PrepareBlocks(chunks: seq<(int, Bytes)>, compress: bool) returns (prepared: seq<(int, PreparedBlock)>)
      ensures |prepared| == |chunks|
      ensures forall i :: 0 <= i < |chunks| ==> prepared[i] == (chunks[i].0, Prepare(codec, chunks[i].1, compress))
    {
      prepared := seq(|chunks|, i requires 0 <= i < |chunks| => (chunks[i].0, Prepare(codec, chunks[i].1, compress)));
    }

    /** `write_atomic` to the hot tier; it fails when the path cannot be reached. */
    method WriteBlockFile(d: Digest, payload: Payload) returns (ok: bool)
      modifies this`disk, this`written
      ensures ok <==> (d, Hot) !in down
      ensures View() == if ok then Next(old(View()), WriteFile(d, payload)) else old(View())
    {
      if (d, Hot) in down {
        return false;
      }
      if (d, Hot) !in disk {
        disk := disk[(d, Hot) := payload];
      }
      written := written[d := payload];
      return true;
    }

    /** `_ensure_existing_block_hot_from_write`: the incoming bytes, in the encoding of the existing row. */
    method EnsureExisting(b: PreparedBlock, row: BlockRow, now: int) returns (r: Result<()>)
      requires b.digest in meta.db.blocks && meta.db.blocks[b.digest] == row && b.digest == Digest(b.rawData)
      modifies this`disk, this`written, this`hot, meta`db
      ensures r.Ok? ==>
        meta.db == old(meta.db).(blocks := old(meta.db).blocks[b.digest := EnsuredRow(old(meta.db).blocks, b, now)])
      ensures r.Ok? ==> disk == AddNeeded(old(disk), b.digest, NeededFile(old(meta.db).blocks, b))
      ensures r.Ok? ==> old(written).Keys <= written.Keys && forall d ::
        d in old(written) && d != b.digest ==> written[d] == old(written)[d]
      ensures r.Ok? && StoreGuard(old(View()), b) ==> Reaches(old(View()), View())
      ensures r.Err? ==> View() == old(View()) && StoreFails(old(meta.db).blocks, codec, down, b, r.errno)
      ensures r.Ok? <==> CanStore(old(meta.db).blocks, codec, down, b)
      ensures r.Ok? && old(Counting())
        ==> Noted(hotMax, old(hot), hot, FileSize(codec, NeededFile(old(meta.db).blocks, b)))
      ensures r.Ok? <==>
        || row.storage == Inline || row.hot
        || (row.rawSize == |b.rawData| && row.storedSize == codec.length(Encode(b.rawData, row.compressed))
            && (b.digest, Hot) !in down)
      ensures r.Ok? && row.storage == Tiered && !row.hot ==>
        && meta.db == old(meta.db).(blocks := old(meta.db).blocks[b.digest :=
                        row.(hot := true, preferred := Some(Hot), lastPromoted := Some(now))])
        && disk == if (b.digest, Hot) in old(disk) then old(disk)
                   else old(disk)[(b.digest, Hot) := Encode(b.rawData, row.compressed)]
      ensures row.storage == Inline || row.hot ==> meta.db == old(meta.db) && disk == old(disk)
    {
      ReachesSelf(View());
      if row.storage == Inline || row.hot {
        return Ok(());
      }
      var payload := Encode(b.rawData, row.compressed);
      if row.rawSize != |b.rawData| || codec.length(payload) != row.storedSize {
        return Err(Internal);
      }
      var ok := RewriteHot(b.digest, row, payload, now);
      if !ok {
        return Err(EIO);
      }
      if StoreGuard(old(View()), b) {
        RewriteReaches(old(View()), b.digest, payload, now);
      }
      return Ok(());
    }

    /** The file of a block whose row is not hot, and its row. */
    method RewriteHot(d: Digest, row: BlockRow, payload: Payload, now: int) returns (ok: bool)
      requires d in meta.db.blocks && meta.db.blocks[d] == row
      modifies this`disk, this`written, this`hot, meta`db
      ensures ok <==> (d, Hot) !in down
      ensures View() == if ok then Rewritten(old(View()), d, payload, now) else old(View())
      ensures ok && old(Counting()) ==> Noted(hotMax, old(hot), hot, codec.length(payload))
    {
      ok := WriteBlockFile(d, payload);
      if !ok {
        return;
      }
      NoteHotWrite(codec.length(payload));
      meta.db := meta.db.(blocks := meta.db.blocks[d := HotAgain(row, now)]);
    }

    /** A block without a row: its file goes to the hot tier, unless it is stored inline. */
    method EnsureFile(b: PreparedBlock) returns (ok: bool)
      requires b.digest !in meta.db.blocks && b.digest == Digest(b.rawData)
      requires b.payload == Encode(b.rawData, b.compressed)
      modifies this`disk, this`written, this`hot
      ensures ok <==> CanStore(meta.db.blocks, codec, down, b)
      ensures ok ==> disk == AddNeeded(old(disk), b.digest, NeededFile(meta.db.blocks, b))
      ensures ok ==> written == if b.inlined then old(written) else old(written)[b.digest := b.payload]
      ensures ok && StoreGuard(old(View()), b) ==> Reaches(old(View()), View())
      ensures ok && old(Counting())
        ==> Noted(hotMax, old(hot), hot, FileSize(codec, NeededFile(meta.db.blocks, b)))
      ensures !ok ==> View() == old(View())
      ensures ok <==> b.inlined || (b.digest, Hot) !in down
      ensures ok ==> disk == if b.inlined || (b.digest, Hot) in old(disk) then old(disk)
        else old(disk)[(b.digest, Hot) := b.payload]
    {
      ReachesSelf(View());
      if b.inlined {
        return true;
      }
      ok := WriteBlockFile(b.digest, b.payload);
      if !ok {
        return;
      }
      NoteHotWrite(codec.length(b.payload));
      if StoreGuard(old(View()), b) {
        ReachesStep(old(View()), old(View()), WriteFile(b.digest, b.payload));
      }
    }

    /** One block of the loop, `records` being the rows found before it. */
    method StoreOne(b: PreparedBlock, records: map<Digest, BlockRow>, now: int) returns (r: Result<()>)
      requires WellPrepared(codec, b)
      requires (b.digest in records <==> b.digest in meta.db.blocks)
      requires (b.digest in records ==> records[b.digest] == meta.db.blocks[b.digest])
      modifies this`disk, this`written, this`hot, meta`db
      ensures r.Ok? <==> CanStore(records, codec, down, b)
      ensures r.Ok? ==> meta.db == old(meta.db).(blocks :=
        if b.digest in records then old(meta.db).blocks[b.digest := EnsuredRow(records, b, now)]
          else old(meta.db).blocks)
      ensures r.Ok? ==> disk == AddNeeded(old(disk), b.digest, NeededFile(records, b))
      ensures r.Ok? ==> old(written).Keys <= written.Keys && forall d ::
        d in old(written) && d != b.digest ==> written[d] == old(written)[d]
      ensures r.Ok? && b.digest !in records && !b.inlined ==> b.digest in written && written[b.digest] == b.payload
      ensures r.Ok? && StoreGuard(old(View()), b) ==> Reaches(old(View()), View())
      ensures r.Ok? && old(Counting())
        ==> Noted(hotMax, old(hot), hot, FileSize(codec, NeededFile(records, b)))
      ensures r.Err? ==> View() == old(View()) && StoreFails(records, codec, down, b, r.errno)
    {
      if b.digest in records {
        r := EnsureExisting(b, records[b.digest], now);
      } else {
        var ok := EnsureFile(b);
        r := if ok then Ok(()) else Err(EIO);
      }
    }

    /** Blocks by digest; two blocks with one digest must agree in everything. */
    method UniqueBlocks(blocks: seq<PreparedBlock>) returns (unique: Option<map<Digest, PreparedBlock>>)
      ensures unique.None? <==>
        exists i, j :: 0 <= i < j < |blocks| && blocks[i].digest == blocks[j].digest && blocks[i] != blocks[j]
      ensures unique.Some? ==> forall i ::
        0 <= i < |blocks| ==> blocks[i].digest in unique.value && unique.value[blocks[i].digest] == blocks[i]
      ensures unique.Some? ==> forall d ::
        d in unique.value ==> unique.value[d].digest == d && unique.value[d] in blocks
    {
      var u: map<Digest, PreparedBlock> := map[];
      for i := 0 to |blocks|
        invariant forall j :: 0 <= j < i ==> blocks[j].digest in u && u[blocks[j].digest] == blocks[j]
        invariant forall d :: d in u ==> u[d].digest == d && u[d] in blocks[..i]
      {
        if blocks[i].digest in u && u[blocks[i].digest] != blocks[i] {
          var j :| 0 <= j < i && blocks[j] == u[blocks[i].digest];
          return None;
        }
        u := u[blocks[i].digest := blocks[i]];
        assert blocks[..i + 1] == blocks[..i] + [blocks[i]];
      }
      return Some(u);
    }

    /** The loop of `ensure_prepared_blocks`, begun in `from`, when the blocks in `todo` are left. */
    ghost predicate Stored(from: State, unique: map<Digest, PreparedBlock>, todo: set<Digest>, now: int)
      reads this, meta
    {
      && todo <= unique.Keys
      && meta.db == from.db.(blocks := ExistingAfter(from.db.blocks, unique, unique.Keys - todo, now))
      && FilesStored(from.disk, from.db.blocks, unique, todo, disk)
      && NewFilesWritten(from.db.blocks, unique, todo, written)
      && (AllGuards(from, unique) ==> Reaches(from, View()))
    }

    lemma StartStored(unique: map<Digest, PreparedBlock>, now: int)
      ensures Stored(View(), unique, unique.Keys, now)
    {
      ReachesSelf(View());
      NoneStored(meta.db.blocks, unique, now);
    }

    /** One block of the loop. */
    method StoreStep(ghost from: State, unique: map<Digest, PreparedBlock>, ghost todo: set<Digest>,
                     records: map<Digest, BlockRow>, d: Digest, now: int)
      returns (r: Result<()>)
      requires AllPrepared(codec, unique) && d in todo && records == from.db.blocks && Stored(from, unique, todo, now)
      modifies this`disk, this`written, this`hot, meta`db
      ensures r.Ok? <==> CanStore(records, codec, down, unique[d])
      ensures r.Err? ==> StoreFails(records, codec, down, unique[d], r.errno)
      ensures Stored(from, unique, if r.Ok? then todo - {d} else todo, now)
      ensures r.Ok? && old(Counting()) ==> Noted(hotMax, old(hot), hot, FileSize(codec, NeededFile(records, unique[d])))
    {
      ExistingAfterStep(records, unique, todo, d, now);
      FilesStoredStep(from.disk, records, unique, todo, disk, d);
      if StoreGuard(from, unique[d]) {
        GuardStays(from, View(), unique, todo, d);
      }
      r := StoreOne(unique[d], records, now);
      if r.Err? {
        return;
      }
      NewFilesStep(records, unique, todo, d, old(written), written);
      StoredReaches(from, old(View()), View(), unique, d);
    }

    /** The loop so far: the blocks outside `todo` were stored, could be stored, and are accounted for. */
    ghost predicate Going(before: HotWrites, from: State, unique: map<Digest, PreparedBlock>, todo: set<Digest>,
                          now: int)
      reads this, meta
    {
      && Stored(from, unique, todo, now) && StorableBut(from.db.blocks, codec, down, unique, todo)
      && (Below(hotMax, before) ==> NotedBut(codec, hotMax, before, hot, from.db.blocks, unique, todo))
    }

    method StoreNext(ghost before: HotWrites, ghost from: State, unique: map<Digest, PreparedBlock>,
                     ghost todo: set<Digest>, records: map<Digest, BlockRow>, d: Digest, now: int)
      returns (r: Result<()>)
      requires AllPrepared(codec, unique) && d in todo && records == from.db.blocks
      requires Going(before, from, unique, todo, now)
      modifies this`disk, this`written, this`hot, meta`db
      ensures r.Ok? ==> Going(before, from, unique, todo - {d}, now)
      ensures r.Err? ==> Stored(from, unique, todo, now) && !StorableBut(records, codec, down, unique, {})
      ensures r.Err? ==> StoreFails(records, codec, down, unique[d], r.errno)
    {
      r := StoreStep(from, unique, todo, records, d, now);
      StorableStep(records, codec, down, unique, todo, d);
      NotedStep(codec, hotMax, before, old(hot), hot, records, unique, todo, d);
    }

    lemma StartGoing(unique: map<Digest, PreparedBlock>, now: int)
      ensures Going(hot, View(), unique, unique.Keys, now)
    {
      StartStored(unique, now);
    }

    /** The loop itself; `todo` are the blocks it did not get to. */
    method StoreAll(unique: map<Digest, PreparedBlock>, now: int) returns (r: Result<()>, ghost todo: set<Digest>)
      requires AllPrepared(codec, unique)
      modifies this`disk, this`written, this`hot, meta`db
      ensures r.Ok? ==> todo == {} && Going(old(hot), old(View()), unique, {}, now)
      ensures r.Err? ==> Stored(old(View()), unique, todo, now)
      ensures r.Err? ==> !StorableBut(old(meta.db).blocks, codec, down, unique, {})
      ensures r.Err? ==>
        exists d :: d in unique && StoreFails(old(meta.db).blocks, codec, down, unique[d], r.errno)
    {
      ghost var from, before := View(), hot;
      var records := meta.db.blocks;
      var rest := unique.Keys;
      StartGoing(unique, now);
      while rest != {}
        invariant rest <= unique.Keys && Going(before, from, unique, rest, now)
        decreases rest
      {
        var d :| d in rest;
        r := StoreNext(before, from, unique, rest, records, d, now);
        if r.Err? {
          return r, rest;
        }
        rest := rest - {d};
      }
      return Ok(()), {};
    }

    method StoreLoop(unique: map<Digest, PreparedBlock>, now: int) returns (r: Result<()>)
      requires AllPrepared(codec, unique)
      modifies this`disk, this`written, this`hot, meta`db
      ensures r.Ok? <==> forall d :: d in unique ==> CanStore(old(meta.db).blocks, codec, down, unique[d])
      ensures r.Err? ==>
        exists d :: d in unique && StoreFails(old(meta.db).blocks, codec, down, unique[d], r.errno)
      ensures r.Ok? ==>
        meta.db == old(meta.db).(blocks := ExistingAfter(old(meta.db).blocks, unique, unique.Keys - {}, now))
      ensures r.Ok? ==> FilesStored(old(disk), old(meta.db).blocks, unique, {}, disk)
      ensures r.Ok? ==> NewFilesWritten(old(meta.db).blocks, unique, {}, written)
      ensures AllGuards(old(View()), unique) ==> Reaches(old(View()), View())
      ensures Addressed(old(disk)) ==> Addressed(disk)
      ensures r.Ok? && old(Counting())
        ==> Noted(hotMax, old(hot), hot, NeededBytes(codec, old(meta.db).blocks, unique, unique.Keys))
    {
      ghost var todo;
      r, todo := StoreAll(unique, now);
      StoredAddressed(codec, old(disk), old(meta.db).blocks, unique, todo, disk);
    }

    /** `insert_blocks`: the rows of the new blocks, after their files. */
    method InsertNew(ghost from: State, unique: map<Digest, PreparedBlock>, records: map<Digest, BlockRow>,
                     ghost now: int)
      requires GoodCodec(codec) && AllPrepared(codec, unique) && records == from.db.blocks
      requires meta.db == from.db.(blocks := ExistingAfter(records, unique, unique.Keys - {}, now))
      requires FilesStored(from.disk, records, unique, {}, disk) && NewFilesWritten(records, unique, {}, written)
      modifies meta`db
      ensures meta.db == from.db.(blocks := RowsAfter(records, unique, now))
      ensures AllGuards(from, unique) && demotion == NotDemoting && Reaches(from, old(View())) ==> Reaches(from, View())
    {
      ghost var at := View();
      var rows := NewRowsOf(records, unique, unique.Keys);
      AllStored(records, unique, now);
      AddRows(rows);
      if AllGuards(from, unique) && demotion == NotDemoting && Reaches(from, at) {
        InsertReaches(from, at, codec, unique);
      }
    }

    method AddRows(rows: map<Digest, BlockRow>)
      modifies meta`db
      ensures meta.db == old(meta.db).(blocks := old(meta.db).blocks + rows)
      ensures View() == WithRows(old(View()), rows)
    {
      meta.db := meta.db.(blocks := meta.db.blocks + rows);
    }

    /** `ensure_prepared_blocks`: afterwards every block has a row, and a hot file if it is tiered and had none to
        rely on; no other row and no existing file changes.  While the guards hold for each block these are
        steps of the transition system, wherever a crash would fall between them. */
    method EnsurePreparedBlocks(blocks: seq<PreparedBlock>, now: int) returns (r: Result<map<Digest, PreparedBlock>>)
      requires GoodCodec(codec) && forall b :: b in blocks ==> WellPrepared(codec, b)
      modifies this`disk, this`written, this`hot, meta`db
      ensures r.Ok? ==> AllPrepared(codec, r.value)
      ensures r.Ok? ==> forall i ::
        0 <= i < |blocks| ==> blocks[i].digest in r.value && r.value[blocks[i].digest] == blocks[i]
      ensures r.Ok? ==> forall d :: d in r.value ==> r.value[d] in blocks
      ensures r.Ok? ==> meta.db == old(meta.db).(blocks := RowsAfter(old(meta.db).blocks, r.value, now))
      ensures r.Ok? ==> FilesStored(old(disk), old(meta.db).blocks, r.value, {}, disk)
      ensures (forall b :: b in blocks ==> StoreGuard(old(View()), b)) && demotion == NotDemoting ==>
        Reaches(old(View()), View())
      ensures Addressed(old(disk)) ==> Addressed(disk)
      ensures r.Ok? <==> Agree(blocks) && forall b :: b in blocks ==> CanStore(old(meta.db).blocks, codec, down, b)
      ensures r.Err? ==> if Agree(blocks)
        then exists b :: b in blocks && StoreFails(old(meta.db).blocks, codec, down, b, r.errno)
        else r == Err(Internal)
      ensures r.Ok? && old(Counting())
        ==> Noted(hotMax, old(hot), hot, NeededBytes(codec, old(meta.db).blocks, r.value, r.value.Keys))
    {
      var unique := UniqueBlocks(blocks);
      if unique.None? {
        ReachesSelf(View());
        return Err(Internal);
      }
      ghost var from := View();
      var records := meta.db.blocks;
      var stored := StoreLoop(unique.value, now);
      if stored.Err? {
        return Err(stored.errno);
      }
      InsertNew(from, unique.value, records, now);
      return Ok(unique.value);
    }

    /** `should_copy_up_from_cold` and `schedule_cold_copy_up` after a read that takes the cold copy, by cache hit or
        from the file; a block is in flight once. */
    method ScheduleColdCopyUp(d: Digest, row: BlockRow, tier: Tier)
      modifies this`inflight, this`promoting
      ensures inflight == if tier == Cold && 0 < hotMax && !(row.storedSize > hotMax)
        then old(inflight) + {d} else old(inflight)
      ensures promoting == old(promoting) + (inflight - old(inflight))
      ensures CanCopyUp(old(View()), d, tier) ==> Reaches(old(View()), View())
    {
      ReachesSelf(View());
      if !CopiesUp(hotMax, row, tier) || d in inflight {
        return;
      }
      if CanCopyUp(View(), d, tier) {
        ReachesStep(View(), View(), ScheduleCopyUp(d));
      }
      inflight := inflight + {d};
      promoting := promoting + {d};
    }

    /** `copy_block` through `copy_atomic`: nothing happens while either path cannot be reached. */
    method CopyToHot(d: Digest)
      requires d in promoting
      modifies this`disk
      ensures disk == if (d, Cold) in down || (d, Hot) in down then old(disk) else CopyAtomic(old(disk), d, Cold, Hot)
      ensures Reaches(old(View()), View())
    {
      ReachesSelf(View());
      if (d, Cold) in down || (d, Hot) in down {
        return;
      }
      ReachesStep(View(), View(), CopyUpFile(d));
      disk := CopyAtomic(disk, d, Cold, Hot);
    }

    /** `_copy_up_cold_block`: the row claims the hot copy only once the file is there, in a transaction of its own. */
    method CopyUpColdBlock(d: Digest, now: int) returns (done: bool)
      requires d in promoting && meta.db == meta.committed && written == map[] && demotion == NotDemoting
      requires d in meta.db.blocks ==> meta.db.blocks[d].storage == Tiered
      modifies this`disk, this`promoting, this`inflight, this`hot, meta
      ensures Reaches(old(View()), View()) && meta.db == meta.committed && inflight == old(inflight) - {d}
      ensures hot == old(hot).(requested := old(hot).requested || (done && hotMax > 0))
      ensures done <==> (d, Hot) in disk && (d, Hot) !in down
      ensures disk == if (d, Cold) in down || (d, Hot) in down then old(disk) else CopyAtomic(old(disk), d, Cold, Hot)
      ensures disk ==
        if (d, Cold) !in down && (d, Hot) !in down && (d, Cold) in old(disk) && (d, Hot) !in old(disk)
        then old(disk)[(d, Hot) := old(disk)[(d, Cold)]] else old(disk)
      ensures meta.db == if done && d in old(meta.db).blocks
        then old(meta.db).(blocks := old(meta.db).blocks[d := Promoted(old(meta.db).blocks[d], now)]) else old(meta.db)
      ensures done && d in old(meta.db).blocks ==> meta.db.blocks[d] == old(meta.db).blocks[d].(
        hot := true, cold := true, preferred := Some(Hot), lastPromoted := Some(now))
    {
      ghost var from := View();
      CopyToHot(d);
      inflight := inflight - {d};
      if (d, Hot) in down || (d, Hot) !in disk {
        return false;
      }
      MarkPromoted(from, d, now);
      RequestDemotion();
      return true;
    }

    /** The transaction that records a finished copy. */
    method MarkPromoted(ghost from: State, d: Digest, now: int)
      requires d in promoting && demotion == NotDemoting && written == map[] && Reaches(from, View())
      requires d in meta.db.blocks ==> meta.db.blocks[d].storage == Tiered
      modifies this`promoting, meta
      ensures Reaches(from, View()) && meta.db == meta.committed
      ensures meta.db == if d in old(meta.db).blocks
        then old(meta.db).(blocks := old(meta.db).blocks[d := Promoted(old(meta.db).blocks[d], now)]) else old(meta.db)
    {
      ReachesStep(from, View(), CopyUpRow(d, now));
      if d in meta.db.blocks {
        meta.db := meta.db.(blocks := meta.db.blocks[d := Promoted(meta.db.blocks[d], now)]);
      }
      promoting := promoting - {d};
      ReachesStep(from, View(), Commit);
      meta.Commit();
    }
  }
}
