/** Open file handles: which inode each handle is bound to, and how many handles each inode has. */
module Handles {
  import opened Types

  function BoundTo(handles: map<int, InodeId>, id: InodeId): set<int> {
    set fh | fh in handles && handles[fh] == id
  }

  class HandleTable {
    var nextFh: int
    var handles: map<int, InodeId>
    var lockOwners: map<int, int>
    var openCounts: map<InodeId, int>

    constructor ()
      ensures Valid() && handles == map[]
    {
      nextFh, handles, lockOwners, openCounts := 0, map[], map[], map[];
      assert forall id :: BoundTo(map[], id) == {};
    }

    /** Every count is the number of live handles of its inode, and handle numbers are not reused. */
    ghost predicate Valid()
      reads this
    {
      && lockOwners.Keys == handles.Keys && (forall fh :: fh in handles ==> fh <= nextFh)
      && forall id: InodeId :: Count(id) == |BoundTo(handles, id)| && (id in openCounts ==> openCounts[id] > 0)
    }

    function Count(id: InodeId): int
      reads this
    {
      if id in openCounts then openCounts[id] else 0
    }

    /** `new`. */
    method New(id: InodeId, owner: Option<int>) returns (fh: int)
      requires Valid()
      modifies this
      ensures Valid() && fh !in old(handles) && handles == old(handles)[fh := id]
      ensures fh == nextFh == old(nextFh) + 1
      ensures lockOwners == old(lockOwners)[fh := if owner.Some? then owner.value else fh]
    {
      nextFh := nextFh + 1;
      fh := nextFh;
      BoundAdded(handles, fh, id);
      handles := handles[fh := id];
      lockOwners := lockOwners[fh := if owner.Some? then owner.value else fh];
      openCounts := openCounts[id := Count(id) + 1];
    }

    /** `release`: an unknown handle changes nothing. */
    method Release(fh: int) returns (released: Option<(InodeId, int)>)
      requires Valid()
      modifies this
      ensures Valid() && handles == old(handles) - {fh}
      ensures released == if fh in old(handles) then Some((old(handles)[fh], old(lockOwners)[fh])) else None
    {
      if fh !in handles {
        return None;
      }
      var id, owner := handles[fh], lockOwners[fh];
      BoundRemoved(handles, fh);
      handles := handles - {fh};
      lockOwners := lockOwners - {fh};
      var remaining := Count(id) - 1;
      openCounts := if remaining > 0 then openCounts[id := remaining] else openCounts - {id};
      return Some((id, owner));
    }

    /** `has_open_file`. */
    method HasOpenFile(id: InodeId) returns (open: bool)
      requires Valid()
      ensures open <==> BoundTo(handles, id) != {}
    {
      open := Count(id) > 0;
    }
  }

  lemma BoundAddedAt(handles: map<int, InodeId>, fh: int, id: InodeId, i: InodeId)
    requires fh !in handles
    ensures BoundTo(handles[fh := id], i) == if i == id then BoundTo(handles, i) + {fh} else BoundTo(handles, i)
    ensures fh !in BoundTo(handles, i)
  {
  }

  lemma BoundAdded(handles: map<int, InodeId>, fh: int, id: InodeId)
    requires fh !in handles
    ensures forall i :: |BoundTo(handles[fh := id], i)| == |BoundTo(handles, i)| + if i == id then 1 else 0
  {
    forall i ensures |BoundTo(handles[fh := id], i)| == |BoundTo(handles, i)| + if i == id then 1 else 0 {
      BoundAddedAt(handles, fh, id, i);
    }
  }

  lemma BoundRemovedAt(handles: map<int, InodeId>, fh: int, i: InodeId)
    requires fh in handles
    ensures BoundTo(handles - {fh}, i)
         == if i == handles[fh] then BoundTo(handles, i) - {fh} else BoundTo(handles, i)
    ensures fh in BoundTo(handles, handles[fh])
  {
  }

  lemma BoundRemoved(handles: map<int, InodeId>, fh: int)
    requires fh in handles
    ensures forall i :: |BoundTo(handles - {fh}, i)| == |BoundTo(handles, i)| - if i == handles[fh] then 1 else 0
  {
    forall i ensures |BoundTo(handles - {fh}, i)| == |BoundTo(handles, i)| - if i == handles[fh] then 1 else 0 {
      BoundRemovedAt(handles, fh, i);
    }
  }
}
