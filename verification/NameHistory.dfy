/** The operations on names as operations on files: what each of them does to the byte sequences. */
module NameHistory {
  import opened Types
  import opened Schema
  import opened FlatFile
  import opened FileView
  import opened FileHistory
  import opened Lifetime
  import opened Namespace

  /** `create` of a missing name makes an empty file. */
  lemma CreatedIsEffect(db: Database, cs: int, k: EntryKey, id: InodeId)
    requires cs > 0 && id !in db.inodes
    ensures Effect(db, db.(inodes := db.inodes[id := Inode(File, 0, 1)], entries := db.entries[k := id]), cs,
      CreateOp(id))
  {
  }

  /** A new directory or symlink changes no file. */
  lemma OtherNodeIsEffect(db: Database, cs: int, k: EntryKey, id: InodeId, node: Inode)
    requires cs > 0 && id !in db.inodes && node.kind != File
    ensures Effect(db, db.(inodes := db.inodes[id := node], entries := db.entries[k := id]), cs, NameOp)
  {
  }

  lemma LinkedIsEffect(db: Database, cs: int, k: EntryKey, id: InodeId)
    requires cs > 0 && id in db.inodes
    ensures Effect(db, Linked(db, k, id), cs, NameOp)
  {
  }

  /** O_TRUNC in `create` is truncation to no bytes. */
  lemma EmptiedIsTruncation(db: Database, cs: int, id: InodeId, now: int)
    requires cs > 0 && IsFile(db, id)
    ensures Effect(db, Emptied(db, id, now), cs, TruncateOp(id, 0))
  {
    RemovalRemoves(db.chunks, id, 0);
    FirstOfZero(cs);
    RoundUp(0, cs);
  }

  lemma ClonedIsEffect(db: Database, cs: int, source: InodeId, k: EntryKey, id: InodeId)
    requires cs > 0 && IsFile(db, source) && id !in db.inodes
    ensures Effect(db, CloneAdded(db, source, k, id), cs, CloneOp(source, id))
  {
  }

  /** What taking away the last use of an inode does: a file goes, and anything else changes no file. */
  lemma DeletedIsEffect(db: Database, cs: int, id: InodeId, now: int)
    requires cs > 0
    ensures Effect(db, Deleted(db, id, now), cs, if IsFile(db, id) then DeleteOp(id) else NameOp)
  {
    RemovalRemoves(db.chunks, id, 0);
  }

  /** Unlinking deletes exactly the file that had this as its last link and is not open, and else changes no file. */
  lemma UnlinkedIsEffect(db: Database, cs: int, k: EntryKey, open: set<InodeId>, now: int)
    requires cs > 0 && k in db.entries && db.entries[k] in db.inodes && db.inodes[db.entries[k]].nlink > 0
    ensures var id := db.entries[k];
      var op := if IsFile(db, id) && db.inodes[id].nlink == 1 && id !in open then DeleteOp(id) else NameOp;
      Effect(db, Unlinked(db, k, open, now), cs, op)
  {
    var id, removed := db.entries[k], EntryRemoved(db, k);
    if db.inodes[id].nlink == 1 && id !in open {
      DeletedIsEffect(removed, cs, id, now);
      DeletedNames(removed, id, now);
      assert removed.inodes - {id} == db.inodes - {id};
    }
  }

  /** A rename deletes at most the file it replaces, and moves no bytes. */
  lemma RenamedIsEffect(db: Database, cs: int, from: EntryKey, to: EntryKey, open: set<InodeId>, now: int)
    requires cs > 0 && from in db.entries && from != to
    requires to in db.entries ==> db.entries[to] in db.inodes && db.inodes[db.entries[to]].nlink > 0
    ensures Effect(db, Renamed(db, from, to, open, now), cs,
                   if to in db.entries && IsFile(db, db.entries[to]) && db.inodes[db.entries[to]].nlink == 1
                     && db.entries[to] !in open
                   then DeleteOp(db.entries[to]) else NameOp)
  {
    if to in db.entries {
      UnlinkedIsEffect(db, cs, to, open, now);
    }
  }

  /** The last release of a file without links deletes it; any other release changes no file. */
  lemma ReleasedIsEffect(db: Database, cs: int, id: InodeId, open: set<InodeId>, now: int)
    requires cs > 0
    ensures Effect(db, AfterRelease(db, id, open, now), cs,
                   if id !in open && IsFile(db, id) && db.inodes[id].nlink == 0 then DeleteOp(id) else NameOp)
  {
    DeletedIsEffect(db, cs, id, now);
  }
}
