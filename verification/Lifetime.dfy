/** How long an inode lives: as long as a directory entry or an open handle refers to it. */
module Lifetime {
  import opened Types
  import opened Schema
  import opened ChunkTable
  import opened DirectoryTree
  import opened Handles

  function OpenSet(handles: map<int, InodeId>): set<InodeId> {
    set fh | fh in handles :: handles[fh]
  }

  lemma OpenExactly(handles: map<int, InodeId>, id: InodeId)
    ensures id in OpenSet(handles) <==> BoundTo(handles, id) != {}
  {
    if id in OpenSet(handles) {
      var fh :| fh in handles && handles[fh] == id;
      assert fh in BoundTo(handles, id);
    }
    if id !in OpenSet(handles) {
      forall fh ensures fh !in BoundTo(handles, id) {
      }
      assert BoundTo(handles, id) == {};
    }
  }

  /** An inode exists exactly while it is the root, has an entry or is open; only files are open. */
  ghost predicate Alive(inodes: Inodes, entries: Entries, open: set<InodeId>) {
    && (forall id :: id in inodes ==> id == ROOT || EntriesOf(entries, id) != {} || id in open)
    && (forall id :: id in open ==> id in inodes && inodes[id].kind == File)
  }

  /** The directory graph is a tree, link counts are exact and no inode outlives its uses. */
  ghost predicate Named(inodes: Inodes, entries: Entries, open: set<InodeId>) {
    IsTree(inodes, entries) && LinksExact(inodes, entries) && Alive(inodes, entries, open)
  }

  /** Chunk rows belong to existing files. */
  ghost predicate Owned(chunks: Chunks, inodes: Inodes) {
    forall k :: k in chunks ==> k.index >= 0 && k.file in inodes && inodes[k.file].kind == File
  }

  ghost predicate Sound(db: Database, open: set<InodeId>) {
    Named(db.inodes, db.entries, open) && Owned(db.chunks, db.inodes) && RefsExact(db)
  }

  /** A crash closes every handle. The tables stay sound if and only if every file that was open has a name: one that
      was unlinked while open stays behind without an entry. */
  lemma CrashKeepsSoundExactly(db: Database, open: set<InodeId>)
    requires Sound(db, open)
    ensures Sound(db, {}) <==> forall id :: id in open ==> EntriesOf(db.entries, id) != {}
  {
    if id :| id in open && EntriesOf(db.entries, id) == {} {
      assert id in db.inodes && id != ROOT;
    }
  }

  lemma OwnedStill(chunks: Chunks, inodes: Inodes, now: Inodes, s: InodeId)
    requires Owned(chunks, inodes) && OthersKept(inodes, now, s)
    requires s in inodes && inodes[s].kind == File ==> s in now && now[s].kind == File
    ensures Owned(chunks, now)
  {
  }

  lemma RowsKept(db: Database, after: Database, id: InodeId)
    requires Owned(db.chunks, db.inodes) && RefsExact(db) && id in db.inodes && id in after.inodes
    requires after.chunks == db.chunks && after.blocks == db.blocks
    requires OthersKept(db.inodes, after.inodes, id) && after.inodes[id].kind == db.inodes[id].kind
    ensures Owned(after.chunks, after.inodes) && RefsExact(after)
  {
    OwnedStill(db.chunks, db.inodes, after.inodes, id);
  }

  lemma AliveStill(inodes: Inodes, entries: Entries, now: Inodes, after: Entries, s: InodeId, open: set<InodeId>)
    requires Alive(inodes, entries, open) && SameBut(entries, after, s) && OthersKept(inodes, now, s)
    requires s in now ==> EntriesOf(after, s) != {} || s in open
    requires s in open ==> s in now && now[s].kind == File
    ensures Alive(now, after, open)
  {
  }

  /** `_delete_inode_payload`. */
  function Deleted(db: Database, id: InodeId, now: int): Database {
    var isFile := id in db.inodes && db.inodes[id].kind == File;
    var freed := if isFile then ReplaceFileChunks(db, id, map[], Some(0), now) else db;
    freed.(inodes := db.inodes - {id})
  }

  /** `remove_entry`: the entry goes and the link count falls. */
  function EntryRemoved(db: Database, k: (InodeId, Name)): Database
    requires k in db.entries && db.entries[k] in db.inodes && db.inodes[db.entries[k]].nlink > 0
  {
    var id := db.entries[k];
    db.(entries := db.entries - {k}, inodes := OneLinkLess(db.inodes, id))
  }

  /** `_remove_entry_node`: without links and handles the inode and its references go too. */
  function Unlinked(db: Database, k: (InodeId, Name), open: set<InodeId>, now: int): Database
    requires k in db.entries && db.entries[k] in db.inodes && db.inodes[db.entries[k]].nlink > 0
  {
    var removed := EntryRemoved(db, k);
    if removed.inodes[db.entries[k]].nlink > 0 || db.entries[k] in open then removed
    else Deleted(removed, db.entries[k], now)
  }

  /** Only rows of the deleted file go, and counts stay exact. */
  lemma DeletedRows(db: Database, id: InodeId, now: int)
    requires Owned(db.chunks, db.inodes)
    ensures forall k: Key :: k in Deleted(db, id, now).chunks <==> k in db.chunks && k.file != id
    ensures forall k: Key :: k in Deleted(db, id, now).chunks ==> Deleted(db, id, now).chunks[k] == db.chunks[k]
  {
    assert PutKeys(id, map[]) == {};
  }

  lemma DeletedRefs(db: Database, id: InodeId, now: int)
    requires RefsExact(db)
    ensures RefsExact(Deleted(db, id, now))
  {
    ReplaceKeepsRefsExact(db, id, map[], Some(0), now);
  }

  lemma DeletedNames(db: Database, id: InodeId, now: int)
    ensures Deleted(db, id, now).inodes == db.inodes - {id} && Deleted(db, id, now).entries == db.entries
  {
  }

  lemma DeletedSound(db: Database, id: InodeId, open: set<InodeId>, now: int)
    requires Owned(db.chunks, db.inodes) && RefsExact(db) && Named(db.inodes - {id}, db.entries, open)
    ensures Sound(Deleted(db, id, now), open)
  {
    DeletedRows(db, id, now);
    DeletedRefs(db, id, now);
    DeletedNames(db, id, now);
    var after := Deleted(db, id, now);
    assert Owned(after.chunks, db.inodes - {id});
  }

  /** The names after the entry of a file or symlink is gone. */
  lemma UnlinkKeepsNames(inodes: Inodes, entries: Entries, k: (InodeId, Name), open: set<InodeId>)
    requires Named(inodes, entries, open) && k in entries && !IsDir(inodes, entries[k])
    ensures entries[k] in inodes && inodes[entries[k]].nlink > 0
    ensures var id := entries[k];
      var now := OneLinkLess(inodes, id);
      && (now[id].nlink == 0 <==> EntriesOf(entries, id) == {k})
      && (now[id].nlink > 0 || id in open ==> Named(now, entries - {k}, open))
      && (now[id].nlink == 0 && id !in open ==> Named(now - {id}, entries - {k}, open))
  {
    var id := entries[k];
    UnlinkKeepsTree(inodes, entries, k);
    EntriesRemoved(entries, k);
    OneLeft(entries, k);
    var now := OneLinkLess(inodes, id);
    if now[id].nlink > 0 || id in open {
      AliveStill(inodes, entries, now, entries - {k}, id, open);
    } else {
      DeleteKeepsTree(now, entries - {k}, id);
      AliveStill(inodes, entries, now - {id}, entries - {k}, id, open);
    }
  }

  lemma EntryRemovedKeeps(db: Database, k: (InodeId, Name))
    requires k in db.entries && db.entries[k] in db.inodes && db.inodes[db.entries[k]].nlink > 0
    requires Owned(db.chunks, db.inodes) && RefsExact(db)
    ensures Owned(EntryRemoved(db, k).chunks, EntryRemoved(db, k).inodes) && RefsExact(EntryRemoved(db, k))
  {
    RowsKept(db, EntryRemoved(db, k), db.entries[k]);
  }

  /** Unlinking a file or symlink keeps everything sound, and removes the inode exactly when that was its last
      link and nobody has it open. */
  lemma UnlinkKeepsSound(db: Database, k: (InodeId, Name), open: set<InodeId>, now: int)
    requires Sound(db, open) && k in db.entries && !IsDir(db.inodes, db.entries[k])
    ensures db.entries[k] in db.inodes && db.inodes[db.entries[k]].nlink > 0
    ensures Sound(Unlinked(db, k, open, now), open)
    ensures db.entries[k] in Unlinked(db, k, open, now).inodes <==>
      EntriesOf(db.entries, db.entries[k]) != {k} || db.entries[k] in open
  {
    UnlinkKeepsNames(db.inodes, db.entries, k, open);
    var id, removed := db.entries[k], EntryRemoved(db, k);
    EntryRemovedKeeps(db, k);
    if removed.inodes[id].nlink == 0 && id !in open {
      DeletedSound(removed, id, open, now);
      DeletedNames(removed, id, now);
    }
  }

  lemma OneLeft(entries: Entries, k: (InodeId, Name))
    requires k in entries
    ensures |EntriesOf(entries, entries[k])| == 1 <==> EntriesOf(entries, entries[k]) == {k}
    ensures |EntriesOf(entries, entries[k])| >= 1
  {
    assert k in EntriesOf(entries, entries[k]);
    if |EntriesOf(entries, entries[k])| == 1 {
      OnlyEntry(entries, k);
    }
  }

  predicate IsEmptyDir(entries: Entries, id: InodeId) {
    forall j :: j in entries ==> j.0 != id
  }

  lemma RmdirKeepsNames(inodes: Inodes, entries: Entries, k: (InodeId, Name), open: set<InodeId>)
    requires Named(inodes, entries, open) && k in entries && IsDir(inodes, entries[k])
    requires IsEmptyDir(entries, entries[k])
    ensures inodes[entries[k]].nlink == 1 && entries[k] !in open
    ensures Named(inodes - {entries[k]}, entries - {k}, open)
  {
    RmdirKeepsTree(inodes, entries, k);
    EntriesRemoved(entries, k);
    AliveStill(inodes, entries, inodes - {entries[k]}, entries - {k}, entries[k], open);
  }

  lemma RmdirTables(db: Database, k: (InodeId, Name), open: set<InodeId>, now: int)
    requires k in db.entries && IsDir(db.inodes, db.entries[k]) && db.inodes[db.entries[k]].nlink == 1
    requires db.entries[k] !in open
    ensures Unlinked(db, k, open, now) == db.(entries := db.entries - {k}, inodes := db.inodes - {db.entries[k]})
  {
  }

  /** Removing an empty directory keeps everything sound and removes its inode. */
  lemma RmdirKeepsSound(db: Database, k: (InodeId, Name), open: set<InodeId>, now: int)
    requires Sound(db, open) && k in db.entries && IsDir(db.inodes, db.entries[k])
    requires IsEmptyDir(db.entries, db.entries[k])
    ensures db.inodes[db.entries[k]].nlink == 1
    ensures Sound(Unlinked(db, k, open, now), open) && db.entries[k] !in Unlinked(db, k, open, now).inodes
  {
    RmdirKeepsNames(db.inodes, db.entries, k, open);
    var id := db.entries[k];
    OwnedStill(db.chunks, db.inodes, db.inodes - {id}, id);
    RmdirTables(db, k, open, now);
  }

  /** The last release of an inode without links returns its references; any other release changes no table. */
  function AfterRelease(db: Database, id: InodeId, open: set<InodeId>, now: int): Database {
    if id !in open && id in db.inodes && db.inodes[id].nlink == 0 then Deleted(db, id, now) else db
  }

  lemma ReleaseKeepsNames(inodes: Inodes, entries: Entries, id: InodeId, open: set<InodeId>)
    requires Named(inodes, entries, open) && id in open
    ensures inodes[id].nlink == 0 <==> EntriesOf(entries, id) == {}
    ensures inodes[id].nlink == 0 ==> Named(inodes - {id}, entries, open - {id})
    ensures inodes[id].nlink != 0 ==> Named(inodes, entries, open - {id})
  {
    assert |EntriesOf(entries, id)| == 0 <==> EntriesOf(entries, id) == {};
    if EntriesOf(entries, id) == {} {
      DeleteKeepsTree(inodes, entries, id);
    }
  }

  lemma ReleaseKeepsSound(db: Database, id: InodeId, open: set<InodeId>, left: set<InodeId>, now: int)
    requires Sound(db, open) && id in open && (left == open || left == open - {id})
    ensures Sound(AfterRelease(db, id, left, now), left)
    ensures id in AfterRelease(db, id, left, now).inodes <==> id in left || EntriesOf(db.entries, id) != {}
  {
    ReleaseKeepsNames(db.inodes, db.entries, id, open);
    if id !in left && db.inodes[id].nlink == 0 {
      DeletedSound(db, id, left, now);
      DeletedNames(db, id, now);
    }
  }

  lemma InsertKeepsSound(db: Database, k: (InodeId, Name), id: InodeId, node: Inode, open: set<InodeId>)
    requires Sound(db, open) && IsDir(db.inodes, k.0) && k !in db.entries && id !in db.inodes && id != 0
    requires node.nlink == 1
    ensures Sound(db.(inodes := db.inodes[id := node], entries := db.entries[k := id]), open)
  {
    InsertKeepsTree(db.inodes, db.entries, k, id, node);
    EntriesAdded(db.entries, k, id);
    AliveStill(db.inodes, db.entries, db.inodes[id := node], db.entries[k := id], id, open);
    assert Owned(db.chunks, db.inodes[id := node]);
  }

  /** `clone_file_node`: a new file inode with an entry and a copy of every chunk row of the source. */
  function CloneAdded(db: Database, source: InodeId, k: (InodeId, Name), id: InodeId): Database
    requires source in db.inodes
  {
    CloneChunks(db, source, id).(inodes := db.inodes[id := Inode(File, db.inodes[source].size, 1)],
      entries := db.entries[k := id])
  }

  lemma CloneRows(db: Database, source: InodeId, id: InodeId)
    requires Owned(db.chunks, db.inodes) && id !in db.inodes
    ensures forall k :: k in db.chunks ==> k.file != id
    ensures Owned(CloneChunks(db, source, id).chunks, db.inodes[id := Inode(File, 0, 1)])
  {
    var after := CloneChunks(db, source, id).chunks;
    forall k | k in after
      ensures k.index >= 0 && (k.file == id || (k.file in db.inodes && db.inodes[k.file].kind == File))
    {
      assert k in db.chunks || (k in CloneKeys(db.chunks, source, id) && Key(source, k.index) in db.chunks);
    }
  }

  lemma CloneKeepsSound(db: Database, source: InodeId, k: (InodeId, Name), id: InodeId, open: set<InodeId>)
    requires Sound(db, open) && source in db.inodes && db.inodes[source].kind == File
    requires IsDir(db.inodes, k.0) && k !in db.entries && id !in db.inodes && id != 0
    ensures Sound(CloneAdded(db, source, k, id), open)
  {
    var node := Inode(File, db.inodes[source].size, 1);
    InsertKeepsSound(db, k, id, node, open);
    CloneRows(db, source, id);
    CloneKeepsRefsExact(db, source, id);
    OwnedStill(CloneChunks(db, source, id).chunks, db.inodes[id := Inode(File, 0, 1)], db.inodes[id := node], id);
  }

  lemma LinkKeepsNames(inodes: Inodes, entries: Entries, k: (InodeId, Name), id: InodeId, open: set<InodeId>)
    requires Named(inodes, entries, open) && IsDir(inodes, k.0) && k !in entries && id in inodes && !IsDir(inodes, id)
    ensures Named(OneLinkMore(inodes, id), entries[k := id], open)
  {
    LinkKeepsTree(inodes, entries, k, id);
    EntriesAdded(entries, k, id);
    AliveStill(inodes, entries, OneLinkMore(inodes, id), entries[k := id], id, open);
  }

  /** `link_node`: one more entry and one more link. */
  function Linked(db: Database, k: (InodeId, Name), id: InodeId): Database
    requires id in db.inodes
  {
    db.(inodes := OneLinkMore(db.inodes, id), entries := db.entries[k := id])
  }

  lemma LinkKeepsSound(db: Database, k: (InodeId, Name), id: InodeId, open: set<InodeId>)
    requires Sound(db, open) && IsDir(db.inodes, k.0) && k !in db.entries && id in db.inodes && !IsDir(db.inodes, id)
    ensures Sound(Linked(db, k, id), open)
  {
    LinkKeepsNames(db.inodes, db.entries, k, id, open);
    RowsKept(db, Linked(db, k, id), id);
  }

  /** A handle on an existing file. */
  lemma OpenKeepsSound(db: Database, id: InodeId, open: set<InodeId>)
    requires Sound(db, open) && id in db.inodes && db.inodes[id].kind == File
    ensures Sound(db, open + {id})
  {
  }

  /** Emptying a file through `create` with O_TRUNC. */
  function Emptied(db: Database, id: InodeId, now: int): Database
    requires id in db.inodes
  {
    ReplaceFileChunks(db, id, map[], Some(0), now).(inodes := db.inodes[id := db.inodes[id].(size := 0)])
  }

  lemma EmptyKeepsNames(inodes: Inodes, entries: Entries, id: InodeId, open: set<InodeId>)
    requires Named(inodes, entries, open) && id in inodes && inodes[id].kind == File
    ensures Named(inodes[id := inodes[id].(size := 0)], entries, open)
  {
    var now := inodes[id := inodes[id].(size := 0)];
    assert SameBut(entries, entries, id);
    AliveStill(inodes, entries, now, entries, id, open);
    assert id != ROOT;
    LinksStillExact(inodes, entries, now, entries, id);
    ChangeKeepsTree(inodes, entries, now, entries, id);
  }

  lemma EmptyKeepsSound(db: Database, id: InodeId, open: set<InodeId>, now: int)
    requires Sound(db, open) && id in db.inodes && db.inodes[id].kind == File
    ensures Sound(Emptied(db, id, now), open)
    ensures forall k: Key :: k in Emptied(db, id, now).chunks <==> k in db.chunks && k.file != id
  {
    EmptyKeepsNames(db.inodes, db.entries, id, open);
    DeletedRows(db, id, now);
    DeletedRefs(db, id, now);
    var after := Emptied(db, id, now);
    assert after.chunks == Deleted(db, id, now).chunks;
    assert Owned(after.chunks, db.inodes);
    OwnedStill(after.chunks, db.inodes, after.inodes, id);
  }

  lemma MoveKeepsSound(db: Database, from: (InodeId, Name), to: (InodeId, Name), open: set<InodeId>)
    requires Sound(db, open) && from in db.entries && to !in db.entries && IsDir(db.inodes, to.0)
    requires IsDir(db.inodes, db.entries[from]) ==> !Below(db.entries, to.0, db.entries[from])
    ensures Sound(db.(entries := Moved(db.entries, from, to)), open)
  {
    MoveKeepsTree(db.inodes, db.entries, from, to);
    EntriesMoved(db.entries, from, to);
    AliveStill(db.inodes, db.entries, db.inodes, Moved(db.entries, from, to), db.entries[from], open);
  }
}
