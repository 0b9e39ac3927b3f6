/** The SQLite tables as one value, with the CHECK constraints the schema puts on block rows. */
module Schema {
  import opened Types

  datatype Kind = File | Dir | Symlink

  datatype Inode = Inode(kind: Kind, size: nat, nlink: nat)

  type Name = string

  datatype ChunkRow = ChunkRow(digest: Digest, size: int)

  datatype Key = Key(file: InodeId, index: int)

  datatype Storage = Inline | Tiered

  /** One `blocks` row joined with its inline payload.  `preferred` is None for `preferred_tier = 0`. */
  datatype BlockRow = BlockRow(
    storage: Storage,
    compressed: bool,
    rawSize: int,
    storedSize: int,
    refcount: int,
    hot: bool,
    cold: bool,
    preferred: Option<Tier>,
    lastPromoted: Option<int>,
    coldGc: Option<int>,
    inlinePayload: Option<Payload>)

  datatype Database = Database(
    inodes: map<InodeId, Inode>,
    entries: map<(InodeId, Name), InodeId>,
    chunks: map<Key, ChunkRow>,
    blocks: map<Digest, BlockRow>,
    queue: set<(Digest, Tier)>)

  /** The directory entries that name an inode. */
  function EntriesOf(entries: map<(InodeId, Name), InodeId>, id: InodeId): set<(InodeId, Name)> {
    set e | e in entries && entries[e] == id
  }

  function Present(row: BlockRow, t: Tier): bool {
    if t == Hot then row.hot else row.cold
  }

  /** The CHECK clauses of the `blocks` table. */
  predicate RowCheck(row: BlockRow) {
    && row.refcount >= 0 && row.rawSize > 0 && row.storedSize > 0
    && (row.storage == Inline ==> row.preferred == None && !row.hot && !row.cold)
    && (row.storage == Tiered ==> row.preferred.Some? && (row.hot || row.cold))
  }
}
