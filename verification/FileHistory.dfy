/** Whole histories of file operations: through any sequence of them the rows stand for the same byte sequences as
    plain files on which the operations are done directly. */
module FileHistory {
  import opened Types
  import opened Schema
  import opened FlatFile
  import opened BlockStore
  import opened FileView

  datatype FileOp =
    | CreateOp(id: InodeId)
    | WriteOp(id: InodeId, data: Bytes, offset: nat)
    | TruncateOp(id: InodeId, length: nat)
    | CloneOp(source: InodeId, target: InodeId)
    | DeleteOp(id: InodeId)
    | NameOp

  type PlainFiles = map<InodeId, Bytes>

  /** The operation on plain byte sequences. */
  function Plain(files: PlainFiles, op: FileOp): PlainFiles {
    match op
    case CreateOp(id) => files[id := []]
    case WriteOp(id, data, offset) => if id in files then files[id := FlatWrite(files[id], data, offset)] else files
    case TruncateOp(id, length) => if id in files then files[id := FlatTruncate(files[id], length)] else files
    case CloneOp(source, target) => if source in files then files[target := files[source]] else files
    case DeleteOp(id) => files - {id}
    case NameOp => files
  }

  predicate IsFile(db: Database, id: InodeId) {
    id in db.inodes && db.inodes[id].kind == File
  }

  ghost predicate Resized(before: Database, after: Database, id: InodeId, size: nat) {
    && id in before.inodes && after.inodes == before.inodes[id := before.inodes[id].(size := size)]
    && after.entries == before.entries
  }

  /** What the operation does to chunk rows and sizes. */
  ghost predicate Effect(before: Database, after: Database, cs: int, op: FileOp)
    requires cs > 0
  {
    match op
    case CreateOp(id) => id !in before.inodes && after.chunks == before.chunks
      && after.inodes == before.inodes[id := Inode(File, 0, 1)]
    case WriteOp(id, data, offset) =>
      && IsFile(before, id) && data != []
      && WriteRows(before.chunks, after.chunks, id, cs, before.inodes[id].size, data, offset)
      && Resized(before, after, id, Max(before.inodes[id].size, offset + |data|))
    case TruncateOp(id, length) =>
      && IsFile(before, id) && TruncateRows(before.chunks, after.chunks, id, cs, before.inodes[id].size, length)
      && Resized(before, after, id, length)
    case CloneOp(source, target) =>
      && IsFile(before, source) && target !in before.inodes
      && after.chunks == Cloned(before, source, target).chunks && after.inodes == Cloned(before, source, target).inodes
    case DeleteOp(id) => IsFile(before, id) && RowsRemoved(before.chunks, after.chunks, id, 0)
      && after.inodes == before.inodes - {id}
    case NameOp => after.chunks == before.chunks && SameSizes(before, after)
  }

  /** The files and their sizes are as before, whatever happened to names, link counts, directories and symlinks. */
  ghost predicate SameSizes(before: Database, after: Database) {
    && (forall id :: IsFile(after, id) <==> IsFile(before, id))
    && (forall id :: IsFile(before, id) ==> after.inodes[id].size == before.inodes[id].size)
  }

  lemma NamesDone(before: Database, after: Database, cs: int)
    requires cs > 0 && FilesFit(before, cs) && Effect(before, after, cs, NameOp)
    ensures FilesFit(after, cs) && Files(after, cs) == Files(before, cs)
  {
    forall id | IsFile(before, id) ensures IsFile(after, id) && FileBytes(after, cs, id) == FileBytes(before, cs, id) {
    }
    forall id | id in after.inodes && after.inodes[id].kind == File
      ensures ChunksFit(after.chunks, cs, id, after.inodes[id].size)
    {
      assert IsFile(after, id);
    }
    forall k | k in after.chunks ensures k.file in after.inodes && after.inodes[k.file].kind == File {
      assert IsFile(before, k.file);
    }
  }

  lemma CreateDone(before: Database, after: Database, cs: int, id: InodeId)
    requires cs > 0 && FilesFit(before, cs) && Effect(before, after, cs, CreateOp(id))
    ensures FilesFit(after, cs) && Files(after, cs) == Files(before, cs)[id := []]
  {
    assert FileBytes(after, cs, id) == [];
  }

  lemma SameFiles(a: Database, b: Database, cs: int)
    requires cs > 0 && a.chunks == b.chunks && a.inodes == b.inodes
    ensures FilesFit(a, cs) == FilesFit(b, cs) && Files(a, cs) == Files(b, cs)
  {
    forall id | id in a.inodes ensures FileBytes(a, cs, id) == FileBytes(b, cs, id) {
    }
  }

  lemma ResizedKeeps(codec: Codec, before: Database, put: Database, id: InodeId, size: nat)
    requires WellKept(codec, put) && id in before.inodes
    requires put.inodes == before.inodes && put.entries == before.entries
    ensures var after := put.(inodes := put.inodes[id := put.inodes[id].(size := size)]);
      WellKept(codec, after) && Resized(before, after, id, size)
  {
  }

  lemma ResizedIsEffect(codec: Codec, before: Database, cut: Database, cs: int, id: InodeId, length: nat)
    requires cs > 0 && IsFile(before, id) && ChunksCut(before, cut, cs, id, length) && WellKept(codec, cut)
    ensures var after := cut.(inodes := cut.inodes[id := cut.inodes[id].(size := length)]);
      WellKept(codec, after) && Effect(before, after, cs, TruncateOp(id, length))
  {
  }

  /** Each operation on rows is the operation on bytes; the bytes of every other file stay what they were. */
  lemma EffectRefines(before: Database, after: Database, cs: int, op: FileOp)
    requires cs > 0 && FilesFit(before, cs) && Effect(before, after, cs, op)
    ensures FilesFit(after, cs) && Files(after, cs) == Plain(Files(before, cs), op)
  {
    match op
    case CreateOp(id) => CreateDone(before, after, cs, id);
    case WriteOp(id, data, offset) =>
      WriteRefines(before.chunks, after.chunks, id, cs, before.inodes[id].size, data, offset);
      OneFileChanged(before, after, cs, id, Max(before.inodes[id].size, offset + |data|));
    case TruncateOp(id, length) => TruncateDone(before, after, cs, id, length);
    case CloneOp(source, target) =>
      CloneDone(before, cs, source, target);
      SameFiles(after, Cloned(before, source, target), cs);
    case DeleteOp(id) => FileRemoved(before, after, cs, id);
    case NameOp => NamesDone(before, after, cs);
  }

  function PlainRun(files: PlainFiles, ops: seq<FileOp>): PlainFiles {
    if ops == [] then files else Plain(PlainRun(files, ops[..|ops| - 1]), ops[|ops| - 1])
  }

  /** `dbs[i]` is the tables before operation `i`, and the last one those after all of them. */
  ghost predicate IsHistory(dbs: seq<Database>, ops: seq<FileOp>, cs: int)
    requires cs > 0
  {
    |dbs| == |ops| + 1 && forall i :: 0 <= i < |ops| ==> Effect(dbs[i], dbs[i + 1], cs, ops[i])
  }

  /** Any history of creations, writes, truncations, clones, deletions and changes of names, on any files that share
      blocks in any way, leaves in every file exactly the bytes of the plain history. */
  lemma {:induction false} HistoryRefines(dbs: seq<Database>, ops: seq<FileOp>, cs: int)
    requires cs > 0 && IsHistory(dbs, ops, cs) && FilesFit(dbs[0], cs)
    ensures FilesFit(dbs[|ops|], cs)
    ensures Files(dbs[|ops|], cs) == PlainRun(Files(dbs[0], cs), ops)
    decreases |ops|
  {
    if ops != [] {
      var n := |ops| - 1;
      HistoryRefines(dbs[..n + 1], ops[..n], cs);
      assert Effect(dbs[n], dbs[n + 1], cs, ops[n]);
      EffectRefines(dbs[n], dbs[n + 1], cs, ops[n]);
    }
  }

  /** A committed batch of prepared chunks and the new size are the effect of a write. */
  lemma WriteEffect(codec: Codec, before: Database, after: Database, cs: int, id: InodeId, data: Bytes, offset: nat,
                    compress: bool,
                    prepared: seq<(int, PreparedBlock)>)
    requires cs > 0 && data != [] && FilesFit(before, cs) && IsFile(before, id)
    requires IsPreparedWrite(codec, cs, FileBytes(before, cs, id), data, offset, compress, prepared)
    requires RowsPut(before.chunks, after.chunks, id, prepared)
    requires Resized(before, after, id, Max(before.inodes[id].size, offset + |data|))
    ensures Effect(before, after, cs, WriteOp(id, data, offset)) && FilesFit(after, cs)
    ensures Files(after, cs) == Files(before, cs)[id := FlatWrite(FileBytes(before, cs, id), data, offset)]
  {
    PutIsWrite(codec, before.chunks, after.chunks, cs, id, before.inodes[id].size, data, offset, compress, prepared);
    EffectRefines(before, after, cs, WriteOp(id, data, offset));
  }
}
