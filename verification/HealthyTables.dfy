/** What fsck says about tables that the file system's own operations keep: the invariants of names, lifetimes,
    reference counts and chunk sizes leave its checks of inodes, chunks and directory entries nothing to report, with
    one exception. */
module HealthyTables {
  import opened Types
  import opened Schema
  import opened ChunkTable
  import opened DirectoryTree
  import opened Lifetime
  import opened FlatFile
  import opened Tiering
  import opened BlockStore
  import opened FileView
  import opened FileHistory
  import opened Checker

  const SILENT := MetadataReport({}, {}, {}, {}, {}, {}, {}, {})

  lemma EntriesAreGood(db: Database)
    requires IsTree(db.inodes, db.entries)
    ensures ChunkMetadata(db).badEntries == {}
  {
    forall e | e in db.entries ensures !BadEntry(db, e) {
      assert IsDir(db.inodes, e.0);
    }
  }

  lemma LinksAreGood(db: Database)
    requires LinksExact(db.inodes, db.entries)
    ensures WrongLinks(db) == {}
  {
  }

  lemma ChunksAreGood(codec: Codec, cs: int, db: Database)
    requires RefsExact(db) && FilesFit(db, cs) && SizesExact(codec, db)
    ensures var report := ChunkMetadata(db);
      report.missingBlock == {} && report.missingInode == {} && report.wrongSize == {} && report.notOfFile == {}
  {
    forall k | k in db.chunks
      ensures db.chunks[k].digest in db.blocks && db.chunks[k].size == db.blocks[db.chunks[k].digest].rawSize
    {
      assert ChunksFit(db.chunks, cs, k.file, db.inodes[k.file].size);
    }
  }

  /** Without block records there are no chunks, so every nonempty file is reported. */
  lemma NoRecordsNoChunks(db: Database)
    requires RefsExact(db) && db.blocks == map[]
    ensures db.chunks == map[]
    ensures EmptyFiles(db.inodes, db.chunks, false)
         == set id | id in db.inodes && db.inodes[id].kind == File && db.inodes[id].size > 0
  {
    assert forall k :: k in db.chunks ==> db.chunks[k].digest in db.blocks;
    assert db.chunks.Keys == {};
  }

  predicate AllFilesEmpty(inodes: Inodes) {
    forall id :: id in inodes && inodes[id].kind == File ==> inodes[id].size == 0
  }

  /** Healthy tables draw no report if and only if there is some block record or every file is empty: a file system that
      holds nothing but holes is reported though nothing is missing. */
  lemma HealthyIsSilentExactly(codec: Codec, cs: int, db: Database, open: set<InodeId>)
    requires Sound(db, open) && FilesFit(db, cs) && SizesExact(codec, db)
    ensures ReportOf(db, db.blocks != map[]) == SILENT <==> db.blocks != map[] || AllFilesEmpty(db.inodes)
  {
    EntriesAreGood(db);
    LinksAreGood(db);
    ChunksAreGood(codec, cs, db);
    var empty := EmptyFiles(db.inodes, db.chunks, db.blocks != map[]);
    assert ReportOf(db, db.blocks != map[]) == SILENT.(emptyFiles := empty);
    if db.blocks == map[] {
      NoRecordsNoChunks(db);
      forall id | id in db.inodes && db.inodes[id].kind == File && db.inodes[id].size > 0 ensures id in empty {
      }
    }
  }

  /** Tables with a file that was unlinked while open, after a crash: not sound, yet neither the checks of the other
      tables report it nor does a repair of link counts remove it, because a link count of zero is what its entries
      say. */
  lemma UnlinkedStaysSilent(codec: Codec, cs: int, db: Database, open: set<InodeId>, id: InodeId)
    requires Sound(db, open) && FilesFit(db, cs) && SizesExact(codec, db) && db.blocks != map[]
    requires id in open && EntriesOf(db.entries, id) == {}
    ensures !Sound(db, {}) && ReportOf(db, true) == SILENT && LinksDone(db, db.inodes.Keys) == db.inodes
  {
    CrashKeepsSoundExactly(db, open);
    HealthyIsSilentExactly(codec, cs, db, open);
    forall i | i in db.inodes ensures db.inodes[i].nlink == ExpectedLinks(db, i) {
    }
  }

  /** One empty file, unlinked while open: it outlives the crash. */
  lemma UnlinkedStaysExample()
    ensures var db := EMPTY_DATABASE.(inodes := EMPTY_DATABASE.inodes[2 := Inode(File, 0, 0)]);
      Sound(db, {2}) && !Sound(db, {}) && ReportOf(db, false) == SILENT
  {
    var db := EMPTY_DATABASE.(inodes := EMPTY_DATABASE.inodes[2 := Inode(File, 0, 0)]);
    assert EntriesOf(db.entries, 2) == {} && EntriesOf(db.entries, ROOT) == {};
    assert Climb(db.entries, ROOT, 0) == ROOT;
    assert Named(db.inodes, db.entries, {2});
    CrashKeepsSoundExactly(db, {2});
    EntriesAreGood(db);
    LinksAreGood(db);
    assert EmptyFiles(db.inodes, db.chunks, false) == {};
  }

  function OneFile(size: nat): Database {
    EMPTY_DATABASE.(inodes := EMPTY_DATABASE.inodes[2 := Inode(File, size, 1)], entries := map[(ROOT, "a") := 2])
  }

  lemma OneFileSound(size: nat)
    ensures Sound(OneFile(size), {})
  {
    var db := OneFile(size);
    assert EntriesOf(db.entries, 2) == {(ROOT, "a")};
    assert EntriesOf(db.entries, ROOT) == {};
    assert Climb(db.entries, ROOT, 0) == ROOT;
    assert Named(db.inodes, db.entries, {});
  }

  /** Creating one file and extending it by truncation is enough. */
  lemma HolesReportedExample(cs: int)
    requires cs > 0
    ensures Sound(OneFile(5), {}) && Effect(OneFile(0), OneFile(5), cs, TruncateOp(2, 5))
    ensures ReportOf(OneFile(5), false).emptyFiles == {2}
  {
    OneFileSound(5);
  }
}
