/** Creating, linking, removing and renaming names, and opening and releasing files, against the metadata tables
    and the handle and lock tables. */
module Namespace {
  import opened Types
  import opened Schema
  import opened ChunkTable
  import opened DirectoryTree
  import opened Handles
  import opened Lifetime
  import opened Metadata
  import opened AdvisoryLocks

  type EntryKey = (InodeId, Name)

  // ----- rename on tables -----

  /** A rename that passes every check and has something to do: no directory goes to or below itself, and a target is
      another inode of the same sort, an empty one if it is a directory. */
  ghost predicate MayRename(db: Database, from: EntryKey, to: EntryKey) {
    && from in db.entries && from != to
    && (IsDir(db.inodes, db.entries[from]) ==> !Below(db.entries, to.0, db.entries[from]))
    && (to in db.entries ==>
          && db.entries[to] != db.entries[from]
          && (IsDir(db.inodes, db.entries[to]) <==> IsDir(db.inodes, db.entries[from]))
          && (IsDir(db.inodes, db.entries[to]) ==> forall k :: k in db.entries ==> k.0 != db.entries[to]))
  }

  /** The tables after a rename that is allowed: the target's entry goes first, then the source's entry moves. */
  function Renamed(db: Database, from: EntryKey, to: EntryKey, open: set<InodeId>, now: int): Database
    requires from in db.entries && from != to
    requires to in db.entries ==> db.entries[to] in db.inodes && db.inodes[db.entries[to]].nlink > 0
  {
    var cleared := if to in db.entries then Unlinked(db, to, open, now) else db;
    cleared.(entries := (cleared.entries - {from})[to := db.entries[from]])
  }

  lemma UnlinkedEntries(db: Database, k: EntryKey, open: set<InodeId>, now: int)
    requires k in db.entries && db.entries[k] in db.inodes && db.inodes[db.entries[k]].nlink > 0
    ensures Unlinked(db, k, open, now).entries == db.entries - {k}
    ensures forall id :: id != db.entries[k] ==> (id in Unlinked(db, k, open, now).inodes <==> id in db.inodes)
    ensures forall id ::
      id != db.entries[k] && id in db.inodes ==> Unlinked(db, k, open, now).inodes[id] == db.inodes[id]
  {
    DeletedNames(EntryRemoved(db, k), db.entries[k], now);
  }

  /** Removing the replaced target does not put the new parent below the source. */
  lemma ClearingKeepsBelow(db: Database, from: EntryKey, to: EntryKey, open: set<InodeId>)
    requires Sound(db, open) && from in db.entries && to in db.entries && from != to && IsDir(db.inodes, to.0)
    requires IsDir(db.inodes, db.entries[to]) ==> IsEmptyDir(db.entries, db.entries[to])
    ensures Below(db.entries - {to}, to.0, db.entries[from]) <==> Below(db.entries, to.0, db.entries[from])
  {
    var t := db.entries[to];
    EntriesRemoved(db.entries, to);
    BelowUnaffected(db.inodes, db.entries, db.entries - {to}, to.0, db.entries[from], t);
  }

  /** An allowed rename keeps the tree, the link counts, the lifetimes and the reference counts. */
  lemma RenameKeepsSound(db: Database, from: EntryKey, to: EntryKey, open: set<InodeId>, now: int)
    requires Sound(db, open) && IsDir(db.inodes, to.0) && MayRename(db, from, to)
    ensures to in db.entries ==> db.entries[to] in db.inodes && db.inodes[db.entries[to]].nlink > 0
    ensures Sound(Renamed(db, from, to, open, now), open)
  {
    if to in db.entries {
      if IsDir(db.inodes, db.entries[to]) {
        RmdirKeepsSound(db, to, open, now);
      } else {
        UnlinkKeepsSound(db, to, open, now);
      }
      RenameOverTarget(db, from, to, open, now);
    } else {
      MoveKeepsSound(db, from, to, open);
      assert Moved(db.entries, from, to) == (db.entries - {from})[to := db.entries[from]];
    }
  }

  lemma RenameOverTarget(db: Database, from: EntryKey, to: EntryKey, open: set<InodeId>, now: int)
    requires Sound(db, open) && IsDir(db.inodes, to.0) && from in db.entries && to in db.entries && from != to
    requires IsDir(db.inodes, db.entries[from]) ==> !Below(db.entries, to.0, db.entries[from])
    requires IsDir(db.inodes, db.entries[to]) ==> IsEmptyDir(db.entries, db.entries[to])
    requires db.entries[to] in db.inodes && db.inodes[db.entries[to]].nlink > 0 && db.entries[to] != db.entries[from]
    requires Sound(Unlinked(db, to, open, now), open)
    ensures Sound(Renamed(db, from, to, open, now), open)
  {
    var cleared := Unlinked(db, to, open, now);
    UnlinkedEntries(db, to, open, now);
    ClearingKeepsBelow(db, from, to, open);
    MoveKeepsSound(cleared, from, to, open);
  }

  /** A replaced target that is still open keeps its inode and every one of its chunks. */
  lemma OpenTargetSurvives(db: Database, from: EntryKey, to: EntryKey, open: set<InodeId>, now: int)
    requires from in db.entries && from != to && to in db.entries && db.entries[to] in open
    requires db.entries[to] in db.inodes && db.inodes[db.entries[to]].nlink > 0
    requires db.inodes[db.entries[to]].kind == File
    ensures var after := Renamed(db, from, to, open, now);
      && db.entries[to] in after.inodes && after.inodes[db.entries[to]].size == db.inodes[db.entries[to]].size
      && after.chunks == db.chunks && after.blocks == db.blocks && after.queue == db.queue
  {
    assert Unlinked(db, to, open, now) == EntryRemoved(db, to);
  }

  /** Inode and chunks of a file are gone, and nothing else. */
  ghost predicate PayloadGone(db: Database, after: Database, id: InodeId) {
    && after.inodes == db.inodes - {id} && after.entries == db.entries
    && after.chunks == map c | c in db.chunks && c.file != id :: db.chunks[c]
  }

  lemma DeletedIsGone(db: Database, id: InodeId, now: int)
    requires Owned(db.chunks, db.inodes)
    ensures PayloadGone(db, Deleted(db, id, now), id)
  {
    DeletedNames(db, id, now);
    DeletedRows(db, id, now);
  }

  /** What `_remove_entry_node` does to the tables: the entry goes and its inode loses a link; without links and handles
      inode and chunks go instead. */
  ghost predicate NodeRemoved(db: Database, after: Database, k: EntryKey, open: set<InodeId>)
    requires k in db.entries && db.entries[k] in db.inodes && db.inodes[db.entries[k]].nlink > 0
  {
    var id := db.entries[k];
    var named := db.(entries := db.entries - {k});
    if db.inodes[id].nlink > 1 || id in open
    then after == named.(inodes := db.inodes[id := db.inodes[id].(nlink := db.inodes[id].nlink - 1)])
    else PayloadGone(named, after, id)
  }

  lemma UnlinkedIsRemoved(db: Database, k: EntryKey, open: set<InodeId>, now: int)
    requires Owned(db.chunks, db.inodes)
    requires k in db.entries && db.entries[k] in db.inodes && db.inodes[db.entries[k]].nlink > 0
    ensures NodeRemoved(db, Unlinked(db, k, open, now), k, open)
  {
    var removed := EntryRemoved(db, k);
    OwnedStill(db.chunks, db.inodes, removed.inodes, db.entries[k]);
    DeletedIsGone(removed, db.entries[k], now);
    assert removed.inodes - {db.entries[k]} == db.inodes - {db.entries[k]};
  }

  /** What the last `release` of an inode without links does. */
  lemma ReleasedIsGone(db: Database, id: InodeId, open: set<InodeId>, now: int)
    requires Owned(db.chunks, db.inodes)
    ensures if id !in open && id in db.inodes && db.inodes[id].nlink == 0
      then PayloadGone(db, AfterRelease(db, id, open, now), id) else AfterRelease(db, id, open, now) == db
  {
    DeletedIsGone(db, id, now);
  }

  lemma AllRowsGone(chunks: Chunks, id: InodeId)
    requires forall c :: c in chunks ==> c.index >= 0
    ensures Replaced(chunks, id, map[], Some(0)) == map c | c in chunks && c.file != id :: chunks[c]
  {
    assert PutKeys(id, map[]) == {};
    forall c ensures c in Replaced(chunks, id, map[], Some(0)) <==> c in chunks && c.file != id {
      ReplacedHas(chunks, id, map[], Some(0), c);
    }
  }

  /** What O_TRUNC does: the size is zero and the chunks are gone. */
  ghost predicate FileEmptied(db: Database, after: Database, id: InodeId)
    requires id in db.inodes
  {
    && after.inodes == db.inodes[id := db.inodes[id].(size := 0)] && after.entries == db.entries
    && after.chunks == map c | c in db.chunks && c.file != id :: db.chunks[c]
  }

  lemma EmptiedIsEmpty(db: Database, id: InodeId, now: int)
    requires Owned(db.chunks, db.inodes) && id in db.inodes
    ensures FileEmptied(db, Emptied(db, id, now), id)
  {
    AllRowsGone(db.chunks, id);
  }

  /** What `clone_file_node` does: a new inode of the same size with a copy of every chunk row. */
  ghost predicate FileCloned(db: Database, after: Database, source: InodeId, k: EntryKey, id: InodeId)
    requires source in db.inodes
  {
    && after.inodes == db.inodes[id := Inode(File, db.inodes[source].size, 1)] && after.entries == db.entries[k := id]
    && (forall c: Key :: c in after.chunks <==>
          if c.file == id then Key(source, c.index) in db.chunks else c in db.chunks)
    && (forall c: Key :: c in after.chunks ==>
          after.chunks[c] == if c.file == id then db.chunks[Key(source, c.index)] else db.chunks[c])
  }

  lemma CloneIsCopy(db: Database, source: InodeId, k: EntryKey, id: InodeId)
    requires Owned(db.chunks, db.inodes) && source in db.inodes && id !in db.inodes
    ensures FileCloned(db, CloneAdded(db, source, k, id), source, k, id)
  {
    assert forall c: Key :: c in CloneKeys(db.chunks, source, id) <==>
      c.file == id && Key(source, c.index) in db.chunks;
  }

  /** What a rename does to the tables: nothing for two links to one inode; else the target is removed as above and
      the entry of the source moves. */
  ghost predicate EntryMoved(db: Database, after: Database, from: EntryKey, to: EntryKey, open: set<InodeId>) {
    && from in db.entries
    && if to in db.entries && db.entries[to] == db.entries[from] then after == db
       else && after.entries == (db.entries - {from})[to := db.entries[from]]
            && if to in db.entries
               then && db.entries[to] in db.inodes && db.inodes[db.entries[to]].nlink > 0
                    && NodeRemoved(db, after.(entries := db.entries - {to}), to, open)
               else after == db.(entries := after.entries)
  }

  lemma RenamedIsMoved(db: Database, from: EntryKey, to: EntryKey, open: set<InodeId>, now: int)
    requires Owned(db.chunks, db.inodes) && from in db.entries && from != to
    requires to in db.entries ==> db.entries[to] in db.inodes && db.inodes[db.entries[to]].nlink > 0
    requires to in db.entries ==> db.entries[to] != db.entries[from]
    ensures EntryMoved(db, Renamed(db, from, to, open, now), from, to, open)
  {
    if to in db.entries {
      UnlinkedIsRemoved(db, to, open, now);
      assert ((db.entries - {to}) - {from})[to := db.entries[from]] == (db.entries - {from})[to := db.entries[from]];
    }
  }

  class FileSystem {
    const meta: MetadataStore
    const handles: HandleTable
    const locks: AdvisoryLockTable

    constructor (meta: MetadataStore, handles: HandleTable, locks: AdvisoryLockTable)
      ensures this.meta == meta && this.handles == handles && this.locks == locks
    {
      this.meta, this.handles, this.locks := meta, handles, locks;
    }

    ghost function Open(): set<InodeId>
      reads this, handles
    {
      OpenSet(handles.handles)
    }

    ghost predicate Valid()
      reads this, meta, handles
    {
      handles.Valid() && Sound(meta.db, Open())
    }

    /** `is_descendant`: terminates, and finds exactly whether `id` is `top` or lies below it. */
    method IsDescendant(id: InodeId, top: InodeId) returns (r: bool)
      requires IsTree(meta.db.inodes, meta.db.entries) && IsDir(meta.db.inodes, id) && top != 0
      ensures r <==> Below(meta.db.entries, id, top)
    {
      ghost var inodes, entries := meta.db.inodes, meta.db.entries;
      ghost var height: nat :| Climb(entries, id, height) == ROOT;
      ghost var n: nat := 0;
      var current := id;
      while current != 0
        invariant current == Climb(entries, id, n) && n <= height + 1 && (current == 0 || IsDir(inodes, current))
        invariant forall m: nat :: m < n ==> Climb(entries, id, m) != top
        decreases height + 1 - n
      {
        if current == top {
          return true;
        }
        if n == height + 1 {
          PastRoot(inodes, entries, id, height, n);
          assert false;
        }
        UpOfDir(inodes, entries, current);
        ClimbMore(entries, id, n);
        current := ParentOf(current);
        n := n + 1;
      }
      forall m: nat ensures Climb(entries, id, m) != top {
        if m >= n {
          ClimbSum(entries, id, n, m - n);
          StaysZero(inodes, entries, m - n);
        }
      }
      return false;
    }

    /** SELECT parent_id ... LIMIT 1; for a directory there is only one row to find. */
    method ParentOf(id: InodeId) returns (parent: InodeId)
      requires IsTree(meta.db.inodes, meta.db.entries) && IsDir(meta.db.inodes, id)
      ensures parent == Up(meta.db.entries, id)
    {
      var keys := EntriesOf(meta.db.entries, id);
      if keys == {} {
        return 0;
      }
      var k :| k in keys;
      if id != ROOT {
        OnlyEntry(meta.db.entries, k);
      }
      return k.0;
    }

    /** The rowid of a new inode: one more than the largest. */
    method NextId() returns (id: InodeId)
      ensures id > 0 && id !in meta.db.inodes
      ensures (forall i :: i in meta.db.inodes ==> i < id) && (id == 1 || id - 1 in meta.db.inodes)
    {
      var todo := meta.db.inodes.Keys;
      var largest := 0;
      while todo != {}
        invariant largest >= 0 && todo <= meta.db.inodes.Keys && (largest == 0 || largest in meta.db.inodes)
        invariant forall i :: i in meta.db.inodes && i !in todo ==> i <= largest
        decreases todo
      {
        SomeMember(todo);
        var i :| i in todo;
        largest := Max(largest, i);
        todo := todo - {i};
      }
      return largest + 1;
    }

    /** `insert_node`. */
    method InsertNode(parent: InodeId, name: Name, kind: Kind, size: nat) returns (id: InodeId)
      requires Valid() && IsDir(meta.db.inodes, parent) && (parent, name) !in meta.db.entries
      modifies meta`db
      ensures Valid() && id !in old(meta.db).inodes
      ensures meta.db
        == old(meta.db).(inodes := old(meta.db).inodes[id := Inode(kind, size, 1)],
          entries := old(meta.db).entries[(parent, name) := id])
    {
      id := NextId();
      InsertKeepsSound(meta.db, (parent, name), id, Inode(kind, size, 1), Open());
      meta.db := meta.db.(inodes := meta.db.inodes[id := Inode(kind, size, 1)],
        entries := meta.db.entries[(parent, name) := id]);
    }

    /** `mkdir`, `mknod` and `symlink`. */
    method MakeNode(parent: InodeId, name: Name, kind: Kind, size: nat) returns (r: Result<InodeId>)
      requires Valid() && (parent in meta.db.inodes ==> IsDir(meta.db.inodes, parent))
      modifies meta`db
      ensures Valid()
      ensures r == Err(ENOENT) <==> parent !in old(meta.db).inodes
      ensures r == Err(EEXIST) <==> parent in old(meta.db).inodes && (parent, name) in old(meta.db).entries
      ensures r.Err? ==> (r.errno == ENOENT || r.errno == EEXIST) && meta.db == old(meta.db)
      ensures r.Ok? ==> r.value !in old(meta.db).inodes
      ensures r.Ok? ==> meta.db == old(meta.db).(
        inodes := old(meta.db).inodes[r.value := Inode(kind, size, 1)],
          entries := old(meta.db).entries[(parent, name) := r.value])
    {
      if parent !in meta.db.inodes {
        return Err(ENOENT);
      }
      if (parent, name) in meta.db.entries {
        return Err(EEXIST);
      }
      var id := InsertNode(parent, name, kind, size);
      return Ok(id);
    }

    /** `clonefile`, with source and new parent looked up. */
    method CloneFile(source: InodeId, parent: InodeId, name: Name) returns (r: Result<InodeId>)
      requires Valid()
      modifies meta`db
      ensures Valid()
      ensures r.Err? ==> meta.db == old(meta.db) && r.errno in {ENOENT, EISDIR, EINVAL, ENOTDIR, EEXIST}
      ensures r == Err(EISDIR) <==> old(source in meta.db.inodes && meta.db.inodes[source].kind == Dir)
      ensures r == Err(EINVAL) <==> old(source in meta.db.inodes && meta.db.inodes[source].kind !in {Dir, File})
      ensures r == Err(ENOENT) <==>
        old(source !in meta.db.inodes || (meta.db.inodes[source].kind == File && parent !in meta.db.inodes))
      ensures r == Err(ENOTDIR) <==>
        old(source in meta.db.inodes && meta.db.inodes[source].kind == File && parent in meta.db.inodes
          && meta.db.inodes[parent].kind != Dir)
      ensures r == Err(EEXIST) <==>
        old(source in meta.db.inodes && meta.db.inodes[source].kind == File && IsDir(meta.db.inodes, parent)
          && (parent, name) in meta.db.entries)
      ensures r.Ok? ==> r.value !in old(meta.db).inodes && source in old(meta.db).inodes
      ensures r.Ok? ==> FileCloned(old(meta.db), meta.db, source, (parent, name), r.value)
      ensures r.Ok? ==> meta.db == CloneAdded(old(meta.db), source, (parent, name), r.value)
    {
      if source !in meta.db.inodes {
        return Err(ENOENT);
      }
      if meta.db.inodes[source].kind == Dir {
        return Err(EISDIR);
      }
      if meta.db.inodes[source].kind != File {
        return Err(EINVAL);
      }
      if parent !in meta.db.inodes {
        return Err(ENOENT);
      }
      if meta.db.inodes[parent].kind != Dir {
        return Err(ENOTDIR);
      }
      if (parent, name) in meta.db.entries {
        return Err(EEXIST);
      }
      var id := NextId();
      CloneKeepsSound(meta.db, source, (parent, name), id, Open());
      CloneIsCopy(meta.db, source, (parent, name), id);
      meta.db := CloneAdded(meta.db, source, (parent, name), id);
      return Ok(id);
    }

    /** `link`. */
    method Link(id: InodeId, parent: InodeId, name: Name) returns (r: Result<()>)
      requires Valid() && (parent in meta.db.inodes ==> IsDir(meta.db.inodes, parent))
      modifies meta`db
      ensures Valid()
      ensures r.Err? ==> meta.db == old(meta.db) && r.errno in {ENOENT, EPERM, EEXIST}
      ensures r == Err(EPERM) <==> old(id in meta.db.inodes && meta.db.inodes[id].kind == Dir)
      ensures r == Err(ENOENT) <==>
        old(id !in meta.db.inodes || (meta.db.inodes[id].kind != Dir && parent !in meta.db.inodes))
      ensures r == Err(EEXIST) <==>
        old(id in meta.db.inodes && meta.db.inodes[id].kind != Dir && parent in meta.db.inodes
          && (parent, name) in meta.db.entries)
      ensures r.Ok? ==> meta.db == old(meta.db).(entries := old(meta.db).entries[(parent, name) := id],
        inodes := old(meta.db).inodes[id := old(meta.db).inodes[id].(nlink := old(meta.db).inodes[id].nlink + 1)])
      ensures r.Ok? ==> id in old(meta.db).inodes && meta.db == Linked(old(meta.db), (parent, name), id)
    {
      if id !in meta.db.inodes {
        return Err(ENOENT);
      }
      if meta.db.inodes[id].kind == Dir {
        return Err(EPERM);
      }
      if parent !in meta.db.inodes {
        return Err(ENOENT);
      }
      if (parent, name) in meta.db.entries {
        return Err(EEXIST);
      }
      LinkKeepsSound(meta.db, (parent, name), id, Open());
      LinkNode((parent, name), id);
      return Ok(());
    }

    /** `link_node`. */
    method LinkNode(k: EntryKey, id: InodeId)
      requires id in meta.db.inodes
      modifies meta`db
      ensures meta.db == Linked(old(meta.db), k, id)
    {
      meta.db := meta.db.(entries := meta.db.entries[k := id]);
      meta.db := meta.db.(inodes := meta.db.inodes[id := meta.db.inodes[id].(nlink := meta.db.inodes[id].nlink + 1)]);
    }

    /** `remove_entry`. */
    method RemoveEntry(k: EntryKey) returns (left: int)
      requires k in meta.db.entries && meta.db.entries[k] in meta.db.inodes
      requires meta.db.inodes[meta.db.entries[k]].nlink > 0
      modifies meta`db
      ensures meta.db == EntryRemoved(old(meta.db), k) && left == meta.db.inodes[old(meta.db).entries[k]].nlink
    {
      var id := meta.db.entries[k];
      left := meta.db.inodes[id].nlink - 1;
      meta.db := meta.db.(entries := meta.db.entries - {k});
      meta.db := meta.db.(inodes := meta.db.inodes[id := meta.db.inodes[id].(nlink := left)]);
    }

    /** `_remove_entry_node`. */
    method RemoveEntryNode(k: EntryKey, now: int)
      requires Valid() && k in meta.db.entries
      requires IsDir(meta.db.inodes, meta.db.entries[k]) ==> IsEmptyDir(meta.db.entries, meta.db.entries[k])
      modifies meta`db
      ensures Valid()
      ensures old(meta.db).entries[k] in old(meta.db).inodes && old(meta.db).inodes[old(meta.db).entries[k]].nlink > 0
      ensures meta.db == Unlinked(old(meta.db), k, Open(), now)
    {
      if IsDir(meta.db.inodes, meta.db.entries[k]) {
        RmdirKeepsSound(meta.db, k, Open(), now);
      } else {
        UnlinkKeepsSound(meta.db, k, Open(), now);
      }
      var id := meta.db.entries[k];
      var left := RemoveEntry(k);
      if left > 0 {
        return;
      }
      var open := handles.HasOpenFile(id);
      OpenExactly(handles.handles, id);
      if open {
        return;
      }
      DeletePayload(id, now);
    }

    /** `remove_file_chunks` for the whole file. */
    method ClearChunks(id: InodeId, now: int)
      requires RefsExact(meta.db)
      modifies meta`db
      ensures meta.db == ReplaceFileChunks(old(meta.db), id, map[], Some(0), now)
    {
      var error := meta.ReplaceChunks(id, map[], Some(0), now);
    }

    /** `_delete_inode_payload`. */
    method DeletePayload(id: InodeId, now: int)
      requires id in meta.db.inodes && RefsExact(meta.db)
      modifies meta`db
      ensures meta.db == Deleted(old(meta.db), id, now)
    {
      if meta.db.inodes[id].kind == File {
        ClearChunks(id, now);
      }
      meta.db := meta.db.(inodes := meta.db.inodes - {id});
    }

    /** `unlink` and `rmdir`. */
    method RemoveChild(parent: InodeId, name: Name, wantDir: bool, now: int) returns (r: Result<()>)
      requires Valid()
      modifies meta`db
      ensures Valid()
      ensures r.Err? ==> meta.db == old(meta.db) && r.errno in {ENOENT, ENOTDIR, EISDIR, ENOTEMPTY}
      ensures r == Err(ENOENT) <==> old(parent !in meta.db.inodes || (parent, name) !in meta.db.entries)
      ensures r == Err(EISDIR) <==>
        r != Err(ENOENT) && !wantDir && old(IsDir(meta.db.inodes, meta.db.entries[(parent, name)]))
      ensures r == Err(ENOTDIR) <==>
        r != Err(ENOENT) && wantDir && old(!IsDir(meta.db.inodes, meta.db.entries[(parent, name)]))
      ensures r == Err(ENOTEMPTY) <==>
        r !in {Err(ENOENT), Err(ENOTDIR)} && wantDir
        && old(exists j :: j in meta.db.entries && j.0 == meta.db.entries[(parent, name)])
      ensures r.Ok? ==> old(meta.db).entries[(parent, name)] in old(meta.db).inodes
      ensures r.Ok? ==> old(meta.db).inodes[old(meta.db).entries[(parent, name)]].nlink > 0
      ensures r.Ok? ==> NodeRemoved(old(meta.db), meta.db, (parent, name), Open())
      ensures r.Ok? ==> meta.db == Unlinked(old(meta.db), (parent, name), Open(), now)
    {
      if parent !in meta.db.inodes {
        return Err(ENOENT);
      }
      if (parent, name) !in meta.db.entries {
        return Err(ENOENT);
      }
      var id := meta.db.entries[(parent, name)];
      if wantDir {
        if meta.db.inodes[id].kind != Dir {
          return Err(ENOTDIR);
        }
        if !IsEmptyDir(meta.db.entries, id) {
          return Err(ENOTEMPTY);
        }
      } else if meta.db.inodes[id].kind == Dir {
        return Err(EISDIR);
      }
      RemoveEntryNode((parent, name), now);
      UnlinkedIsRemoved(old(meta.db), (parent, name), Open(), now);
      return Ok(());
    }

    /** `rename`; `otherFlags` stands for any flag besides RENAME_NOREPLACE. */
    method Rename(parent: InodeId, name: Name, newParent: InodeId, newName: Name, noReplace: bool, otherFlags: bool,
                  now: int)
      returns (r: Result<()>)
      requires Valid() && (newParent in meta.db.inodes ==> IsDir(meta.db.inodes, newParent))
      modifies meta`db
      ensures Valid()
      ensures r.Err? ==> meta.db == old(meta.db)
      ensures otherFlags ==> r == Err(EINVAL)
      ensures r == Err(ENOENT) <==>
        !otherFlags && old((parent, name) !in meta.db.entries || parent !in meta.db.inodes
          || newParent !in meta.db.inodes)
      ensures r == Err(EINVAL) <==>
        otherFlags || (r != Err(ENOENT) && old(IsDir(meta.db.inodes, meta.db.entries[(parent, name)])
          && Below(meta.db.entries, newParent, meta.db.entries[(parent, name)])))
      ensures r == Err(EEXIST) <==>
        r !in {Err(ENOENT), Err(EINVAL)} && noReplace && old((newParent, newName) in meta.db.entries)
      ensures r == Err(EISDIR) <==>
        r !in {Err(ENOENT), Err(EINVAL), Err(EEXIST)} && old((newParent, newName) in meta.db.entries
          && IsDir(meta.db.inodes, meta.db.entries[(newParent, newName)])
          && !IsDir(meta.db.inodes, meta.db.entries[(parent, name)]))
      ensures r == Err(ENOTDIR) <==>
        r !in {Err(ENOENT), Err(EINVAL), Err(EEXIST)} && old((newParent, newName) in meta.db.entries
          && !IsDir(meta.db.inodes, meta.db.entries[(newParent, newName)])
          && IsDir(meta.db.inodes, meta.db.entries[(parent, name)]))
      ensures r == Err(ENOTEMPTY) <==>
        r !in {Err(ENOENT), Err(EINVAL), Err(EEXIST), Err(EISDIR)} && old((newParent, newName) in meta.db.entries
          && meta.db.entries[(newParent, newName)] != meta.db.entries[(parent, name)]
          && IsDir(meta.db.inodes, meta.db.entries[(newParent, newName)])
          && exists k :: k in meta.db.entries && k.0 == meta.db.entries[(newParent, newName)])
      ensures r.Err? ==> r.errno in {ENOENT, EINVAL, EEXIST, EISDIR, ENOTDIR, ENOTEMPTY}
      ensures r.Ok? ==> EntryMoved(old(meta.db), meta.db, (parent, name), (newParent, newName), Open())
      ensures r.Ok? ==> RenameDone(old(meta.db), (parent, name), (newParent, newName), Open(), now, meta.db)
    {
      if otherFlags {
        return Err(EINVAL);
      }
      if (parent, name) !in meta.db.entries {
        return Err(ENOENT);
      }
      if parent !in meta.db.inodes || newParent !in meta.db.inodes {
        return Err(ENOENT);
      }
      var source := meta.db.entries[(parent, name)];
      if meta.db.inodes[source].kind == Dir {
        var below := IsDescendant(newParent, source);
        if below {
          return Err(EINVAL);
        }
      }
      if (newParent, newName) in meta.db.entries {
        var target := meta.db.entries[(newParent, newName)];
        if noReplace {
          return Err(EEXIST);
        }
        if target == source {
          return Ok(());
        }
        if meta.db.inodes[target].kind == Dir && meta.db.inodes[source].kind != Dir {
          return Err(EISDIR);
        }
        if meta.db.inodes[target].kind != Dir && meta.db.inodes[source].kind == Dir {
          return Err(ENOTDIR);
        }
        if meta.db.inodes[target].kind == Dir && !IsEmptyDir(meta.db.entries, target) {
          return Err(ENOTEMPTY);
        }
      }
      MoveEntry((parent, name), (newParent, newName), now);
      return Ok(());
    }

    /** The changes of a rename that passed its checks. */
    method MoveEntry(from: EntryKey, to: EntryKey, now: int)
      requires Valid() && IsDir(meta.db.inodes, to.0) && MayRename(meta.db, from, to)
      modifies meta`db
      ensures Valid() && RenameDone(old(meta.db), from, to, Open(), now, meta.db)
      ensures EntryMoved(old(meta.db), meta.db, from, to, Open())
    {
      RenameKeepsSound(meta.db, from, to, Open(), now);
      RenamedIsMoved(meta.db, from, to, Open(), now);
      var source := meta.db.entries[from];
      if to in meta.db.entries {
        RemoveEntryNode(to, now);
      }
      meta.db := meta.db.(entries := (meta.db.entries - {from})[to := source]);
    }

    /** `open`; O_TRUNC goes through `truncate_file`, which leaves an empty file alone. */
    method OpenFile(id: InodeId, truncate: bool, owner: Option<int>, now: int) returns (r: Result<int>)
      requires Valid()
      modifies meta`db, handles
      ensures Valid()
      ensures r.Err? ==> handles.handles == old(handles.handles) && meta.db == old(meta.db)
      ensures id !in old(meta.db).inodes ==> r == Err(ENOENT)
      ensures id in old(meta.db).inodes && old(meta.db).inodes[id].kind != File ==> r == Err(EISDIR)
      ensures id in old(meta.db).inodes && old(meta.db).inodes[id].kind == File ==>
        r.Ok? && r.value !in old(handles.handles) && handles.handles == old(handles.handles)[r.value := id]
      ensures r.Ok? ==> id in old(meta.db).inodes
      ensures r.Ok? && truncate && old(meta.db).inodes[id].size != 0 ==> meta.db == Emptied(old(meta.db), id, now)
      ensures r.Ok? && truncate && old(meta.db).inodes[id].size != 0 ==>
        FileEmptied(old(meta.db), meta.db, id)
      ensures r.Ok? && !(truncate && old(meta.db).inodes[id].size != 0) ==> meta.db == old(meta.db)
    {
      if id !in meta.db.inodes {
        return Err(ENOENT);
      }
      if meta.db.inodes[id].kind != File {
        return Err(EISDIR);
      }
      if truncate && meta.db.inodes[id].size != 0 {
        EmptyFile(id, now);
      }
      var fh := NewHandle(id, owner);
      return Ok(fh);
    }


    method NewHandle(id: InodeId, owner: Option<int>) returns (fh: int)
      requires Valid() && id in meta.db.inodes && meta.db.inodes[id].kind == File
      modifies handles
      ensures Valid() && fh !in old(handles.handles) && handles.handles == old(handles.handles)[fh := id]
    {
      OpenKeepsSound(meta.db, id, Open());
      fh := handles.New(id, owner);
      OpenMore(old(handles.handles), fh, id);
    }

    /** `create`: an existing file is opened, and emptied with O_TRUNC; a missing one is made. */
    method CreateFile(parent: InodeId, name: Name, exclusive: bool, truncate: bool, owner: Option<int>, now: int)
      returns (r: Result<(InodeId, int)>)
      requires Valid() && (parent in meta.db.inodes ==> IsDir(meta.db.inodes, parent))
      modifies meta`db, handles
      ensures Valid()
      ensures r.Err? ==> meta.db == old(meta.db) && handles.handles == old(handles.handles)
      ensures r.Err? ==> r.errno in {ENOENT, EEXIST, EISDIR}
      ensures r == Err(ENOENT) <==> old(parent !in meta.db.inodes)
      ensures r == Err(EEXIST) <==> old(parent in meta.db.inodes && (parent, name) in meta.db.entries) && exclusive
      ensures r == Err(EISDIR) <==>
        !exclusive && old(parent in meta.db.inodes && (parent, name) in meta.db.entries
          && meta.db.inodes[meta.db.entries[(parent, name)]].kind != File)
      ensures r.Ok? ==>
        r.value.1 !in old(handles.handles) && handles.handles == old(handles.handles)[r.value.1 := r.value.0]
      ensures r.Ok? && (parent, name) in old(meta.db).entries ==>
        r.value.0 == old(meta.db).entries[(parent, name)] && r.value.0 in old(meta.db).inodes
      ensures r.Ok? && (parent, name) in old(meta.db).entries ==>
        meta.db == if truncate then Emptied(old(meta.db), r.value.0, now) else old(meta.db)
      ensures r.Ok? && (parent, name) in old(meta.db).entries && truncate ==>
        FileEmptied(old(meta.db), meta.db, r.value.0)
      ensures r.Ok? && (parent, name) !in old(meta.db).entries ==> r.value.0 !in old(meta.db).inodes
      ensures r.Ok? && (parent, name) !in old(meta.db).entries ==> meta.db == old(meta.db).(
        inodes := old(meta.db).inodes[r.value.0 := Inode(File, 0, 1)],
          entries := old(meta.db).entries[(parent, name) := r.value.0])
    {
      if parent !in meta.db.inodes {
        return Err(ENOENT);
      }
      var id;
      if (parent, name) in meta.db.entries {
        id := meta.db.entries[(parent, name)];
        if exclusive {
          return Err(EEXIST);
        }
        if meta.db.inodes[id].kind != File {
          return Err(EISDIR);
        }
        if truncate {
          EmptyFile(id, now);
        }
      } else {
        id := InsertNode(parent, name, File, 0);
      }
      var fh := NewHandle(id, owner);
      return Ok((id, fh));
    }

    method EmptyFile(id: InodeId, now: int)
      requires Valid() && id in meta.db.inodes && meta.db.inodes[id].kind == File
      modifies meta`db
      ensures Valid() && meta.db == Emptied(old(meta.db), id, now) && FileEmptied(old(meta.db), meta.db, id)
    {
      EmptyKeepsSound(meta.db, id, Open(), now);
      EmptiedIsEmpty(meta.db, id, now);
      ClearAndReset(id, now);
    }

    /** `remove_file_chunks` and `reset_file_node`. */
    method ClearAndReset(id: InodeId, now: int)
      requires RefsExact(meta.db) && id in meta.db.inodes
      modifies meta`db
      ensures meta.db == Emptied(old(meta.db), id, now)
    {
      ClearChunks(id, now);
      meta.db := meta.db.(inodes := meta.db.inodes[id := meta.db.inodes[id].(size := 0)]);
    }

    /** `release`: the owner's locks go, and the last handle of an inode without links takes its data with it. */
    method Release(fh: int, now: int)
      requires Valid()
      modifies meta`db, handles, locks
      ensures Valid() && handles.handles == old(handles.handles) - {fh}
      ensures fh !in old(handles.handles) ==> meta.db == old(meta.db) && locks.locks == old(locks.locks)
      ensures fh in old(handles.handles) ==>
        var id := old(handles.handles)[fh];
        && meta.db == AfterRelease(old(meta.db), id, Open(), now)
        && if id !in Open() && id in old(meta.db).inodes && old(meta.db).inodes[id].nlink == 0
           then PayloadGone(old(meta.db), meta.db, id) else meta.db == old(meta.db)
      ensures fh in old(handles.handles) ==>
        LocksReleased(old(locks.locks), locks.locks, old(handles.handles)[fh], old(handles.lockOwners)[fh])
    {
      ghost var open := Open();
      var released := handles.Release(fh);
      if released.None? {
        assert handles.handles == old(handles.handles);
        return;
      }
      var id, owner := released.value.0, released.value.1;
      OpenLess(old(handles.handles), fh);
      ReleaseKeepsSound(meta.db, id, open, Open(), now);
      ReleasedIsGone(meta.db, id, Open(), now);
      locks.ReleaseOwner(id, owner);
      OpenExactly(handles.handles, id);
      var stillOpen := handles.HasOpenFile(id);
      if stillOpen {
        return;
      }
      if id in meta.db.inodes && meta.db.inodes[id].nlink == 0 {
        DeletePayload(id, now);
      }
    }
  }

  ghost predicate LocksReleased(before: seq<FileLock>, after: seq<FileLock>, inode: InodeId, owner: int) {
    forall i, o, b, k :: HeldBy(after, i, o, b, k) <==> HeldBy(before, i, o, b, k) && !(i == inode && o == owner)
  }

  /** Nothing happens when source and target are links to one inode; otherwise the tables are the renamed ones. */
  ghost predicate RenameDone(db: Database, from: EntryKey, to: EntryKey, open: set<InodeId>, now: int,
                             after: Database)
  {
    && from in db.entries
    && if to in db.entries && db.entries[to] == db.entries[from] then after == db
       else (to in db.entries ==> db.entries[to] in db.inodes && db.inodes[db.entries[to]].nlink > 0)
            && from != to && after == Renamed(db, from, to, open, now)
  }

  lemma {:induction false} StaysZero(inodes: Inodes, entries: Entries, n: nat)
    requires IsTree(inodes, entries)
    ensures Climb(entries, 0, n) == 0
    decreases n
  {
    if n > 0 {
      UpOfDir(inodes, entries, ROOT);
      StaysZero(inodes, entries, n - 1);
    }
  }

  lemma OpenMore(handles: map<int, InodeId>, fh: int, id: InodeId)
    requires fh !in handles
    ensures OpenSet(handles[fh := id]) == OpenSet(handles) + {id}
  {
    forall i ensures i in OpenSet(handles[fh := id]) <==> i in OpenSet(handles) + {id} {
      OpenExactly(handles, i);
      OpenExactly(handles[fh := id], i);
      assert BoundTo(handles[fh := id], i) == if i == id then BoundTo(handles, i) + {fh} else BoundTo(handles, i);
    }
  }

  lemma OpenLess(handles: map<int, InodeId>, fh: int)
    requires fh in handles
    ensures OpenSet(handles - {fh}) == OpenSet(handles) || OpenSet(handles - {fh}) == OpenSet(handles) - {handles[fh]}
    ensures handles[fh] in OpenSet(handles)
  {
    forall i ensures i != handles[fh] ==> (i in OpenSet(handles - {fh}) <==> i in OpenSet(handles)) {
      OpenExactly(handles, i);
      OpenExactly(handles - {fh}, i);
      assert BoundTo(handles - {fh}, i) == if i == handles[fh] then BoundTo(handles, i) - {fh} else BoundTo(handles, i);
    }
  }
}
