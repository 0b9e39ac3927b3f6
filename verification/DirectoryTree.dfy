/** The directory graph: every non-root directory has exactly one entry and climbing entries leads to the root. */
module DirectoryTree {
  import opened Types
  import opened Schema

  type Entries = map<(InodeId, Name), InodeId>

  type Inodes = map<InodeId, Inode>

  const ROOT: InodeId := 1

  /** The parent named by one of the entries; 0 when there is none. */
  ghost function AnyParent(keys: set<(InodeId, Name)>): InodeId {
    if keys == {} then 0
    else
      var k :| k in keys;
      k.0
  }

  ghost function Up(entries: Entries, id: InodeId): InodeId {
    AnyParent(EntriesOf(entries, id))
  }

  ghost function Climb(entries: Entries, id: InodeId, n: nat): InodeId
    decreases n
  {
    if n == 0 then id else Climb(entries, Up(entries, id), n - 1)
  }

  /** `id` is `top` or lies below it. */
  ghost predicate Below(entries: Entries, id: InodeId, top: InodeId) {
    exists n: nat :: Climb(entries, id, n) == top
  }

  predicate IsDir(inodes: Inodes, id: InodeId) {
    id in inodes && inodes[id].kind == Dir
  }

  function OneLinkMore(inodes: Inodes, id: InodeId): Inodes
    requires id in inodes
  {
    inodes[id := inodes[id].(nlink := inodes[id].nlink + 1)]
  }

  function OneLinkLess(inodes: Inodes, id: InodeId): Inodes
    requires id in inodes && inodes[id].nlink > 0
  {
    inodes[id := inodes[id].(nlink := inodes[id].nlink - 1)]
  }

  ghost predicate IsTree(inodes: Inodes, entries: Entries) {
    && IsDir(inodes, ROOT) && 0 !in inodes
    && (forall k :: k in entries ==> IsDir(inodes, k.0) && entries[k] in inodes && entries[k] != ROOT)
    && (forall id :: IsDir(inodes, id) && id != ROOT ==> |EntriesOf(entries, id)| == 1)
    && (forall id :: IsDir(inodes, id) ==> Below(entries, id, ROOT))
  }

  /** Stored link counts are entry counts; the root counts one. */
  ghost predicate LinksExact(inodes: Inodes, entries: Entries) {
    forall id :: id in inodes ==> inodes[id].nlink == if id == ROOT then 1 else |EntriesOf(entries, id)|
  }

  /** No inode but `s` gains or loses an entry. */
  ghost predicate SameBut(entries: Entries, after: Entries, s: InodeId) {
    forall y :: y != s ==> EntriesOf(after, y) == EntriesOf(entries, y)
  }

  // ----- climbing -----

  lemma {:induction false} ClimbMore(entries: Entries, id: InodeId, n: nat)
    ensures Climb(entries, id, n + 1) == Up(entries, Climb(entries, id, n))
    decreases n
  {
    if n > 0 {
      ClimbMore(entries, Up(entries, id), n - 1);
    }
  }

  lemma {:induction false} ClimbSum(entries: Entries, id: InodeId, m: nat, n: nat)
    ensures Climb(entries, id, m + n) == Climb(entries, Climb(entries, id, m), n)
    decreases m
  {
    if m > 0 {
      ClimbSum(entries, Up(entries, id), m - 1, n);
    }
  }

  lemma UpOfDir(inodes: Inodes, entries: Entries, id: InodeId)
    requires IsTree(inodes, entries) && IsDir(inodes, id)
    ensures if id == ROOT then Up(entries, id) == 0 else IsDir(inodes, Up(entries, id))
    ensures Up(entries, 0) == 0
  {
    assert EntriesOf(entries, ROOT) == {};
    assert EntriesOf(entries, 0) == {};
    if id != ROOT {
      assert EntriesOf(entries, id) != {};
      var k :| k in EntriesOf(entries, id) && k.0 == Up(entries, id);
    }
  }

  /** Climbing from a directory meets directories only, then 0. */
  lemma {:induction false} ClimbsDirs(inodes: Inodes, entries: Entries, id: InodeId, n: nat)
    requires IsTree(inodes, entries) && (IsDir(inodes, id) || id == 0)
    ensures IsDir(inodes, Climb(entries, id, n)) || Climb(entries, id, n) == 0
    decreases n
  {
    if n > 0 {
      UpOfDir(inodes, entries, if id == 0 then ROOT else id);
      ClimbsDirs(inodes, entries, Up(entries, id), n - 1);
    }
  }

  /** Past the root there is only 0. */
  lemma {:induction false} PastRoot(inodes: Inodes, entries: Entries, id: InodeId, height: nat, n: nat)
    requires IsTree(inodes, entries) && Climb(entries, id, height) == ROOT && n > height
    ensures Climb(entries, id, n) == 0
    decreases n
  {
    UpOfDir(inodes, entries, ROOT);
    ClimbMore(entries, id, n - 1);
    if n > height + 1 {
      PastRoot(inodes, entries, id, height, n - 1);
    }
  }

  /** When only `s` gets a new parent, a climb that does not pass through `s` is as before. */
  lemma {:induction false} ClimbAvoids(entries: Entries, after: Entries, id: InodeId, n: nat, s: InodeId)
    requires SameBut(entries, after, s)
    requires forall m: nat :: m < n ==> Climb(entries, id, m) != s
    ensures Climb(after, id, n) == Climb(entries, id, n)
    decreases n
  {
    if n > 0 {
      assert Climb(entries, id, 0) != s;
      forall m: nat | m < n - 1 ensures Climb(entries, Up(entries, id), m) != s {
        assert Climb(entries, id, m + 1) != s;
      }
      ClimbAvoids(entries, after, Up(entries, id), n - 1, s);
    }
  }

  /** Directories keep their way to the root when only something that is not above any directory changes. */
  lemma RootedStill(inodes: Inodes, entries: Entries, after: Entries, id: InodeId, s: InodeId)
    requires IsTree(inodes, entries) && IsDir(inodes, id) && id != s
    requires SameBut(entries, after, s)
    requires s != 0 && (IsDir(inodes, s) ==> forall k :: k in entries ==> k.0 != s)
    ensures Below(after, id, ROOT)
  {
    var n: nat :| Climb(entries, id, n) == ROOT;
    forall m: nat | m < n ensures Climb(entries, id, m) != s {
      ClimbsDirs(inodes, entries, id, m);
      if m > 0 {
        ClimbMore(entries, id, m - 1);
        ClimbsDirs(inodes, entries, id, m - 1);
        UpIsParent(entries, Climb(entries, id, m - 1));
      }
    }
    ClimbAvoids(entries, after, id, n, s);
  }

  lemma UpIsParent(entries: Entries, id: InodeId)
    ensures Up(entries, id) == 0 || exists k :: k in entries && k.0 == Up(entries, id)
  {
    if EntriesOf(entries, id) != {} {
      var k :| k in EntriesOf(entries, id) && k.0 == Up(entries, id);
    }
  }

  // ----- entries of one inode under insertion, removal and move -----

  lemma EntriesAdded(entries: Entries, k: (InodeId, Name), c: InodeId)
    requires k !in entries
    ensures EntriesOf(entries[k := c], c) == EntriesOf(entries, c) + {k}
    ensures SameBut(entries, entries[k := c], c)
    ensures |EntriesOf(entries[k := c], c)| == |EntriesOf(entries, c)| + 1
  {
    assert EntriesOf(entries[k := c], c) == EntriesOf(entries, c) + {k};
    forall y | y != c ensures EntriesOf(entries[k := c], y) == EntriesOf(entries, y) {
    }
  }

  lemma EntriesRemoved(entries: Entries, k: (InodeId, Name))
    requires k in entries
    ensures EntriesOf(entries - {k}, entries[k]) == EntriesOf(entries, entries[k]) - {k}
    ensures SameBut(entries, entries - {k}, entries[k])
    ensures |EntriesOf(entries - {k}, entries[k])| == |EntriesOf(entries, entries[k])| - 1
  {
    assert EntriesOf(entries - {k}, entries[k]) == EntriesOf(entries, entries[k]) - {k};
    forall y | y != entries[k] ensures EntriesOf(entries - {k}, y) == EntriesOf(entries, y) {
    }
  }

  function Moved(entries: Entries, from: (InodeId, Name), to: (InodeId, Name)): Entries
    requires from in entries
  {
    (entries - {from})[to := entries[from]]
  }

  lemma EntriesMoved(entries: Entries, from: (InodeId, Name), to: (InodeId, Name))
    requires from in entries && to !in entries
    ensures EntriesOf(Moved(entries, from, to), entries[from]) == EntriesOf(entries, entries[from]) - {from} + {to}
    ensures SameBut(entries, Moved(entries, from, to), entries[from])
    ensures |EntriesOf(Moved(entries, from, to), entries[from])| == |EntriesOf(entries, entries[from])|
  {
    EntriesRemoved(entries, from);
    EntriesAdded(entries - {from}, to, entries[from]);
  }

  // ----- the operations keep the tree -----

  lemma AllRootedStill(inodes: Inodes, entries: Entries, after: Entries, s: InodeId)
    requires IsTree(inodes, entries) && SameBut(entries, after, s)
    requires s != 0 && (IsDir(inodes, s) ==> forall k :: k in entries ==> k.0 != s)
    ensures forall id :: IsDir(inodes, id) && id != s ==> Below(after, id, ROOT)
  {
    forall id | IsDir(inodes, id) && id != s ensures Below(after, id, ROOT) {
      RootedStill(inodes, entries, after, id, s);
    }
  }

  /** Inodes other than `s` and their entries are as before. */
  ghost predicate OthersKept(inodes: Inodes, now: Inodes, s: InodeId) {
    forall id :: id != s ==> (id in now <==> id in inodes) && (id in now ==> now[id] == inodes[id])
  }

  lemma LinksStillExact(inodes: Inodes, entries: Entries, now: Inodes, after: Entries, s: InodeId)
    requires LinksExact(inodes, entries) && SameBut(entries, after, s) && OthersKept(inodes, now, s)
    requires s in now ==> s != ROOT && now[s].nlink == |EntriesOf(after, s)|
    ensures LinksExact(now, after)
  {
  }

  /** One inode and its entries change: the rest stays a tree, and so does the whole if the inode fits in. */
  lemma ChangeKeepsTree(inodes: Inodes, entries: Entries, now: Inodes, after: Entries, s: InodeId)
    requires IsTree(inodes, entries) && !IsDir(inodes, s) && s != 0
    requires SameBut(entries, after, s) && OthersKept(inodes, now, s)
    requires IsDir(now, s) ==> |EntriesOf(after, s)| == 1 && Below(after, s, ROOT)
    requires forall k :: k in after ==> IsDir(inodes, k.0) && after[k] in now && after[k] != ROOT
    ensures IsTree(now, after)
  {
    AllRootedStill(inodes, entries, after, s);
  }

  lemma BelowParent(after: Entries, k: (InodeId, Name), id: InodeId)
    requires EntriesOf(after, id) == {k} && Below(after, k.0, ROOT)
    ensures Below(after, id, ROOT)
  {
    var n: nat :| Climb(after, k.0, n) == ROOT;
    assert Up(after, id) == k.0;
    assert Climb(after, id, n + 1) == ROOT;
  }

  /** `insert_node`: a new inode under an existing directory. */
  lemma InsertKeepsTree(inodes: Inodes, entries: Entries, k: (InodeId, Name), id: InodeId, node: Inode)
    requires IsTree(inodes, entries) && LinksExact(inodes, entries)
    requires IsDir(inodes, k.0) && k !in entries && id !in inodes && id != 0 && node.nlink == 1
    ensures IsTree(inodes[id := node], entries[k := id]) && LinksExact(inodes[id := node], entries[k := id])
  {
    EntriesAdded(entries, k, id);
    assert EntriesOf(entries, id) == {};
    LinksStillExact(inodes, entries, inodes[id := node], entries[k := id], id);
    if node.kind == Dir {
      AllRootedStill(inodes, entries, entries[k := id], id);
      assert EntriesOf(entries[k := id], id) == {k};
      BelowParent(entries[k := id], k, id);
    }
    ChangeKeepsTree(inodes, entries, inodes[id := node], entries[k := id], id);
  }

  /** `link_node`: one more entry for something that is not a directory. */
  lemma LinkKeepsTree(inodes: Inodes, entries: Entries, k: (InodeId, Name), id: InodeId)
    requires IsTree(inodes, entries) && LinksExact(inodes, entries)
    requires IsDir(inodes, k.0) && k !in entries && id in inodes && !IsDir(inodes, id)
    ensures IsTree(OneLinkMore(inodes, id), entries[k := id]) && LinksExact(OneLinkMore(inodes, id), entries[k := id])
  {
    var now := OneLinkMore(inodes, id);
    EntriesAdded(entries, k, id);
    LinksStillExact(inodes, entries, now, entries[k := id], id);
    ChangeKeepsTree(inodes, entries, now, entries[k := id], id);
  }

  /** `remove_entry` for something that is not a directory. */
  lemma UnlinkKeepsTree(inodes: Inodes, entries: Entries, k: (InodeId, Name))
    requires IsTree(inodes, entries) && LinksExact(inodes, entries) && k in entries && !IsDir(inodes, entries[k])
    ensures inodes[entries[k]].nlink > 0
    ensures IsTree(OneLinkLess(inodes, entries[k]), entries - {k})
    ensures LinksExact(OneLinkLess(inodes, entries[k]), entries - {k})
  {
    EntriesRemoved(entries, k);
    var now := OneLinkLess(inodes, entries[k]);
    LinksStillExact(inodes, entries, now, entries - {k}, entries[k]);
    ChangeKeepsTree(inodes, entries, now, entries - {k}, entries[k]);
  }

  /** `delete_node` for an inode that is not a directory and has no entry left. */
  lemma DeleteKeepsTree(inodes: Inodes, entries: Entries, id: InodeId)
    requires IsTree(inodes, entries) && LinksExact(inodes, entries) && id in inodes && !IsDir(inodes, id)
    requires EntriesOf(entries, id) == {}
    ensures IsTree(inodes - {id}, entries) && LinksExact(inodes - {id}, entries)
  {
    forall k | k in entries ensures entries[k] != id {
      assert entries[k] == id ==> k in EntriesOf(entries, id);
    }
    LinksStillExact(inodes, entries, inodes - {id}, entries, id);
    ChangeKeepsTree(inodes, entries, inodes - {id}, entries, id);
  }

  lemma DirGone(inodes: Inodes, entries: Entries, after: Entries, s: InodeId)
    requires IsTree(inodes, entries) && SameBut(entries, after, s) && s != ROOT && s != 0
    requires forall k :: k in entries ==> k.0 != s
    requires forall k :: k in after ==> IsDir(inodes, k.0) && k.0 != s
    requires forall k :: k in after ==> after[k] in inodes && after[k] != ROOT && after[k] != s
    ensures IsTree(inodes - {s}, after)
  {
    AllRootedStill(inodes, entries, after, s);
  }

  lemma OnlyEntry(entries: Entries, k: (InodeId, Name))
    requires k in entries && |EntriesOf(entries, entries[k])| == 1
    ensures EntriesOf(entries, entries[k]) == {k}
  {
    assert k in EntriesOf(entries, entries[k]);
    assert |EntriesOf(entries, entries[k]) - {k}| == 0;
    assert EntriesOf(entries, entries[k]) == EntriesOf(entries, entries[k]) - {k} + {k};
  }

  lemma LastEntryGone(entries: Entries, k: (InodeId, Name))
    requires k in entries && |EntriesOf(entries, entries[k])| == 1
    ensures forall j :: j in entries - {k} ==> entries[j] != entries[k]
  {
    OnlyEntry(entries, k);
    forall j | j in entries - {k} ensures entries[j] != entries[k] {
      assert j !in EntriesOf(entries, entries[k]);
    }
  }

  /** `remove_entry` and `delete_node` for an empty directory. */
  lemma RmdirKeepsTree(inodes: Inodes, entries: Entries, k: (InodeId, Name))
    requires IsTree(inodes, entries) && LinksExact(inodes, entries) && k in entries && IsDir(inodes, entries[k])
    requires forall j :: j in entries ==> j.0 != entries[k]
    ensures inodes[entries[k]].nlink == 1
    ensures IsTree(inodes - {entries[k]}, entries - {k}) && LinksExact(inodes - {entries[k]}, entries - {k})
  {
    var s, after := entries[k], entries - {k};
    EntriesRemoved(entries, k);
    LastEntryGone(entries, k);
    LinksStillExact(inodes, entries, inodes - {s}, after, s);
    DirGone(inodes, entries, after, s);
  }

  // ----- moving -----

  /** The new parent still climbs to the root, because its way up does not pass the moved inode. */
  lemma NewParentRooted(inodes: Inodes, entries: Entries, after: Entries, q: InodeId, s: InodeId)
    requires IsTree(inodes, entries) && IsDir(inodes, q) && !Below(entries, q, s)
    requires SameBut(entries, after, s)
    ensures Below(after, q, ROOT)
  {
    var n: nat :| Climb(entries, q, n) == ROOT;
    ClimbAvoids(entries, after, q, n, s);
  }

  lemma {:induction false} RootedThrough(entries: Entries, after: Entries, id: InodeId, n: nat, s: InodeId, q: InodeId)
    requires Climb(entries, id, n) == ROOT && s != ROOT
    requires SameBut(entries, after, s)
    requires Up(after, s) == q && Below(after, q, ROOT)
    ensures Below(after, id, ROOT)
    decreases n
  {
    if id == s {
      var m: nat :| Climb(after, q, m) == ROOT;
      assert Climb(after, s, m + 1) == ROOT;
    } else if n == 0 {
      assert Climb(after, id, 0) == ROOT;
    } else {
      RootedThrough(entries, after, Up(entries, id), n - 1, s, q);
      var m: nat :| Climb(after, Up(entries, id), m) == ROOT;
      assert Climb(after, id, m + 1) == ROOT;
    }
  }

  /** `move_entry` keeps the tree when the new parent is not the moved directory or below it. */
  lemma MoveKeepsRooted(inodes: Inodes, entries: Entries, from: (InodeId, Name), to: (InodeId, Name), x: InodeId)
    requires IsTree(inodes, entries) && from in entries && to !in entries && IsDir(inodes, to.0)
    requires IsDir(inodes, entries[from]) ==>
      !Below(entries, to.0, entries[from]) && EntriesOf(Moved(entries, from, to), entries[from]) == {to}
    requires SameBut(entries, Moved(entries, from, to), entries[from]) && IsDir(inodes, x)
    ensures Below(Moved(entries, from, to), x, ROOT)
  {
    var s, after := entries[from], Moved(entries, from, to);
    if IsDir(inodes, s) {
      NewParentRooted(inodes, entries, after, to.0, s);
      var n: nat :| Climb(entries, x, n) == ROOT;
      RootedThrough(entries, after, x, n, s, to.0);
    } else {
      RootedStill(inodes, entries, after, x, s);
    }
  }

  lemma MoveKeepsLinks(inodes: Inodes, entries: Entries, from: (InodeId, Name), to: (InodeId, Name))
    requires IsTree(inodes, entries) && LinksExact(inodes, entries) && from in entries && to !in entries
    ensures LinksExact(inodes, Moved(entries, from, to))
  {
    EntriesMoved(entries, from, to);
    LinksStillExact(inodes, entries, inodes, Moved(entries, from, to), entries[from]);
  }

  lemma MoveKeepsTree(inodes: Inodes, entries: Entries, from: (InodeId, Name), to: (InodeId, Name))
    requires IsTree(inodes, entries) && LinksExact(inodes, entries)
    requires from in entries && to !in entries && IsDir(inodes, to.0)
    requires IsDir(inodes, entries[from]) ==> !Below(entries, to.0, entries[from])
    ensures IsTree(inodes, Moved(entries, from, to)) && LinksExact(inodes, Moved(entries, from, to))
  {
    var s, after := entries[from], Moved(entries, from, to);
    EntriesMoved(entries, from, to);
    if IsDir(inodes, s) {
      OnlyEntry(entries, from);
      assert EntriesOf(after, s) == {to};
    }
    MoveKeepsLinks(inodes, entries, from, to);
    forall x | IsDir(inodes, x) ensures Below(after, x, ROOT) {
      MoveKeepsRooted(inodes, entries, from, to, x);
    }
  }

  /** The ancestor check is needed: moving a directory to itself or below cuts it off from the root. */
  lemma MoveBelowSelfBreaks(inodes: Inodes, entries: Entries, from: (InodeId, Name), to: (InodeId, Name))
    requires IsTree(inodes, entries) && from in entries && to !in entries && IsDir(inodes, entries[from])
    requires Below(entries, to.0, entries[from])
    ensures !Below(Moved(entries, from, to), entries[from], ROOT)
  {
    var s, after := entries[from], Moved(entries, from, to);
    EntriesMoved(entries, from, to);
    OnlyEntry(entries, from);
    assert EntriesOf(after, s) == {to};
    var n := FirstReach(entries, to.0, s);
    forall i: nat | i <= n ensures Climb(after, to.0, i) == Climb(entries, to.0, i) {
      ClimbAvoids(entries, after, to.0, i, s);
    }
    forall m: nat ensures Climb(after, s, m) != ROOT {
      CycleNeverRoot(inodes, entries, after, s, to.0, n, m);
    }
  }

  /** The first time a climb meets `top`. */
  lemma FirstReach(entries: Entries, id: InodeId, top: InodeId) returns (n: nat)
    requires Below(entries, id, top)
    ensures Climb(entries, id, n) == top && forall m: nat :: m < n ==> Climb(entries, id, m) != top
  {
    n :| Climb(entries, id, n) == top;
    var i := 0;
    while i < n
      invariant 0 <= i <= n
      invariant forall m: nat :: m < i ==> Climb(entries, id, m) != top
    {
      if Climb(entries, id, i) == top {
        return i;
      }
      i := i + 1;
    }
  }

  lemma {:induction false} CycleNeverRoot(inodes: Inodes, entries: Entries, after: Entries, s: InodeId, q: InodeId,
                                          n: nat, m: nat)
    requires IsTree(inodes, entries) && IsDir(inodes, s) && s != ROOT
    requires Up(after, s) == q && Climb(after, q, n) == s
    requires forall i: nat :: i <= n ==> Climb(after, q, i) == Climb(entries, q, i)
    requires Climb(entries, q, n) == s && forall i: nat :: i < n ==> Climb(entries, q, i) != s
    ensures Climb(after, s, m) != ROOT
    decreases m
  {
    if m > n {
      ClimbSum(after, s, n + 1, m - n - 1);
      CycleNeverRoot(inodes, entries, after, s, q, n, m - n - 1);
    } else if m > 0 {
      assert Climb(after, s, m) == Climb(entries, q, m - 1);
      if Climb(entries, q, m - 1) == ROOT {
        PastRoot(inodes, entries, q, m - 1, n);
      }
    }
  }

  /** A move leaves a tree exactly when the moved directory does not go to itself or below itself. */
  lemma MoveTreeExactly(inodes: Inodes, entries: Entries, from: (InodeId, Name), to: (InodeId, Name))
    requires IsTree(inodes, entries) && LinksExact(inodes, entries)
    requires from in entries && to !in entries && IsDir(inodes, to.0)
    ensures IsTree(inodes, Moved(entries, from, to)) <==>
      (IsDir(inodes, entries[from]) ==> !Below(entries, to.0, entries[from]))
  {
    if IsDir(inodes, entries[from]) && Below(entries, to.0, entries[from]) {
      MoveBelowSelfBreaks(inodes, entries, from, to);
    } else {
      MoveKeepsTree(inodes, entries, from, to);
    }
  }

  /** A climb from a directory never meets something that has no children, other than at its start. */
  lemma NeverMeets(inodes: Inodes, entries: Entries, id: InodeId, s: InodeId, m: nat)
    requires IsTree(inodes, entries) && IsDir(inodes, id) && id != s && s != 0 && forall k :: k in entries ==> k.0 != s
    ensures Climb(entries, id, m) != s
  {
    if m > 0 {
      ClimbMore(entries, id, m - 1);
      UpIsParent(entries, Climb(entries, id, m - 1));
    }
  }

  /** Taking away something without children does not put anything below anything. */
  lemma BelowUnaffected(inodes: Inodes, entries: Entries, after: Entries, q: InodeId, s: InodeId, t: InodeId)
    requires IsTree(inodes, entries) && IsDir(inodes, q) && q != t && t != 0 && SameBut(entries, after, t)
    requires forall k :: k in entries ==> k.0 != t
    ensures Below(after, q, s) <==> Below(entries, q, s)
  {
    forall n: nat ensures Climb(after, q, n) == Climb(entries, q, n) {
      forall m: nat | m < n ensures Climb(entries, q, m) != t {
        NeverMeets(inodes, entries, q, t, m);
      }
      ClimbAvoids(entries, after, q, n, t);
    }
  }
}
