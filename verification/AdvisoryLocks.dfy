/** The advisory byte-range lock table: a list of interval records standing for a map from inode, byte and owner
    to the type of lock held there. */
module AdvisoryLocks {
  import opened Types

  const MAXSIZE := 0x7FFF_FFFF_FFFF_FFFF

  datatype LockType = Shared | Exclusive

  datatype RequestType = Unlocked | Locked(kind: LockType) | UnknownType

  datatype Command = GetLk | SetLk | OtherCommand

  /** `end` is the last byte; None reaches to the end of the file. */
  datatype FileLock = FileLock(inode: InodeId, owner: int, pid: int, kind: LockType, start: int, end: Option<int>)

  datatype Flock = Flock(kind: RequestType, start: int, length: int, pid: int)

  /** Inode, owner and inclusive range of a request. */
  datatype Target = Target(inode: InodeId, owner: int, start: int, end: Option<int>)

  function EndOf(start: int, length: int): Option<int> {
    if length == 0 then None else Some(start + length - 1)
  }

  function Last(end: Option<int>): int {
    if end.Some? then end.value else MAXSIZE
  }

  predicate Overlaps(leftStart: int, leftEnd: Option<int>, rightStart: int, rightEnd: Option<int>) {
    leftStart <= Last(rightEnd) && rightStart <= Last(leftEnd)
  }

  // ----- the specification: who holds which byte -----

  predicate InRange(b: int, start: int, end: Option<int>) {
    start <= b && (end.Some? ==> b <= end.value)
  }

  predicate Holds(l: FileLock, inode: InodeId, owner: int, b: int, kind: LockType) {
    l.inode == inode && l.owner == owner && l.kind == kind && InRange(b, l.start, l.end)
  }

  ghost predicate HeldBy(locks: seq<FileLock>, inode: InodeId, owner: int, b: int, kind: LockType) {
    exists l :: l in locks && Holds(l, inode, owner, b, kind)
  }

  predicate Aimed(t: Target, inode: InodeId, owner: int, b: int) {
    inode == t.inode && owner == t.owner && InRange(b, t.start, t.end)
  }

  /** Ranges the table represents faithfully: nonempty, starting at most at the largest offset, and either open or
      ending below it. */
  predicate ProperRange(start: int, end: Option<int>) {
    start <= MAXSIZE && (end.Some? ==> start <= end.value < MAXSIZE)
  }

  ghost predicate WellFormed(locks: seq<FileLock>) {
    forall l :: l in locks ==> ProperRange(l.start, l.end)
  }

  /** The table is a map: no owner holds two types on one byte. */
  ghost predicate OneType(locks: seq<FileLock>) {
    forall inode, owner, b :: HeldBy(locks, inode, owner, b, Shared) ==> !HeldBy(locks, inode, owner, b, Exclusive)
  }

  predicate Clash(a: LockType, b: LockType) { a == Exclusive || b == Exclusive }

  /** No two owners hold clashing locks on one byte. */
  ghost predicate Compatible(locks: seq<FileLock>) {
    forall inode, owner, other, b, j, k ::
      owner != other && HeldBy(locks, inode, owner, b, j) && HeldBy(locks, inode, other, b, k) ==> !Clash(j, k)
  }

  ghost predicate Valid(locks: seq<FileLock>) {
    WellFormed(locks) && OneType(locks) && Compatible(locks)
  }

  /** Some byte of the range is held by another owner in a clashing way. */
  ghost predicate RealConflict(locks: seq<FileLock>, t: Target, kind: LockType) {
    exists other, b, k ::
      other != t.owner && InRange(b, t.start, t.end) && HeldBy(locks, t.inode, other, b, k) && Clash(k, kind)
  }

  // ----- cutting a range out of the table -----

  /** What `_unlock` keeps of one record: the record itself, or the parts before and after the range. */
  function Cut(l: FileLock, t: Target): seq<FileLock> {
    if l.inode != t.inode || l.owner != t.owner || !Overlaps(l.start, l.end, t.start, t.end) then [l]
    else
      (if l.start < t.start then [l.(end := Some(t.start - 1))] else [])
      + (if t.end.Some? && (l.end.None? || l.end.value > t.end.value) then [l.(start := t.end.value + 1)] else [])
  }

  function CutAll(locks: seq<FileLock>, t: Target): seq<FileLock> {
    if locks == [] then [] else CutAll(locks[..|locks| - 1], t) + Cut(locks[|locks| - 1], t)
  }

  lemma HeldJoin(a: seq<FileLock>, b: seq<FileLock>, inode: InodeId, owner: int, at: int, kind: LockType)
    ensures HeldBy(a + b, inode, owner, at, kind) <==>
      HeldBy(a, inode, owner, at, kind) || HeldBy(b, inode, owner, at, kind)
  {
    if HeldBy(a, inode, owner, at, kind) {
      var l :| l in a && Holds(l, inode, owner, at, kind);
      assert l in a + b;
    }
    if HeldBy(b, inode, owner, at, kind) {
      var l :| l in b && Holds(l, inode, owner, at, kind);
      assert l in a + b;
    }
  }

  lemma CutExact(l: FileLock, t: Target, inode: InodeId, owner: int, b: int, kind: LockType)
    requires ProperRange(l.start, l.end) && ProperRange(t.start, t.end)
    ensures HeldBy(Cut(l, t), inode, owner, b, kind) <==> Holds(l, inode, owner, b, kind) && !Aimed(t, inode, owner, b)
    ensures WellFormed(Cut(l, t))
  {
    var before, after := l.(end := Some(t.start - 1)), if t.end.Some? then l.(start := t.end.value + 1) else l;
    if Holds(l, inode, owner, b, kind) && !Aimed(t, inode, owner, b) {
      assert l in Cut(l, t) || (before in Cut(l, t) && Holds(before, inode, owner, b, kind))
        || (after in Cut(l, t) && Holds(after, inode, owner, b, kind));
    }
  }

  /** Unlocking clears exactly the requested bytes of that owner and nothing else. */
  lemma {:induction false} UnlockExact(locks: seq<FileLock>, t: Target, inode: InodeId, owner: int, b: int,
                                       kind: LockType)
    requires WellFormed(locks) && ProperRange(t.start, t.end)
    ensures HeldBy(CutAll(locks, t), inode, owner, b, kind) <==>
      HeldBy(locks, inode, owner, b, kind) && !Aimed(t, inode, owner, b)
    ensures WellFormed(CutAll(locks, t))
  {
    if locks != [] {
      var init, l := locks[..|locks| - 1], locks[|locks| - 1];
      UnlockExact(init, t, inode, owner, b, kind);
      CutExact(l, t, inode, owner, b, kind);
      HeldJoin(CutAll(init, t), Cut(l, t), inode, owner, b, kind);
      assert locks == init + [l];
      HeldJoin(init, [l], inode, owner, b, kind);
      assert HeldBy([l], inode, owner, b, kind) <==> Holds(l, inode, owner, b, kind) by { assert l in [l]; }
    }
  }

  ghost predicate Cleared(locks: seq<FileLock>, after: seq<FileLock>, t: Target) {
    forall inode, owner, b, kind :: HeldBy(after, inode, owner, b, kind) <==>
      HeldBy(locks, inode, owner, b, kind) && !Aimed(t, inode, owner, b)
  }

  /** The map after a lock was granted: the requested bytes have the requested type, the others are as before. */
  ghost predicate Granted(locks: seq<FileLock>, after: seq<FileLock>, t: Target, granted: LockType) {
    forall inode, owner, b, kind ::
      HeldBy(after, inode, owner, b, kind) <==>
        if Aimed(t, inode, owner, b) then kind == granted else HeldBy(locks, inode, owner, b, kind)
  }

  lemma UnlockClears(locks: seq<FileLock>, t: Target)
    requires WellFormed(locks) && ProperRange(t.start, t.end)
    ensures Cleared(locks, CutAll(locks, t), t) && WellFormed(CutAll(locks, t))
  {
    UnlockExact(locks, t, 0, 0, 0, Shared);
    forall inode, owner, b, kind
      ensures HeldBy(CutAll(locks, t), inode, owner, b, kind) <==>
        HeldBy(locks, inode, owner, b, kind) && !Aimed(t, inode, owner, b)
    {
      UnlockExact(locks, t, inode, owner, b, kind);
    }
  }

  lemma ClearedStaysValid(locks: seq<FileLock>, after: seq<FileLock>, t: Target)
    requires Valid(locks) && Cleared(locks, after, t) && WellFormed(after)
    ensures Valid(after)
  {
  }

  lemma LockGrants(locks: seq<FileLock>, t: Target, granted: LockType, pid: int)
    requires WellFormed(locks) && ProperRange(t.start, t.end)
    ensures var after := CutAll(locks, t) + [FileLock(t.inode, t.owner, pid, granted, t.start, t.end)];
      Granted(locks, after, t, granted) && WellFormed(after)
  {
    var record := FileLock(t.inode, t.owner, pid, granted, t.start, t.end);
    UnlockClears(locks, t);
    forall inode, owner, b, kind
      ensures HeldBy(CutAll(locks, t) + [record], inode, owner, b, kind)
         <==> if Aimed(t, inode, owner, b) then kind == granted else HeldBy(locks, inode, owner, b, kind)
    {
      HeldJoin(CutAll(locks, t), [record], inode, owner, b, kind);
      assert record in [record];
    }
  }

  lemma GrantedStaysValid(locks: seq<FileLock>, after: seq<FileLock>, t: Target, granted: LockType)
    requires Valid(locks) && Granted(locks, after, t, granted) && WellFormed(after) && !RealConflict(locks, t, granted)
    ensures Valid(after)
  {
  }

  // ----- conflicts -----

  /** The test of `_conflict` on one record. */
  predicate Blocks(l: FileLock, t: Target, kind: RequestType) {
    && l.inode == t.inode && l.owner != t.owner
    && !(l.kind == Shared && kind == Locked(Shared))
    && Overlaps(l.start, l.end, t.start, t.end)
  }

  ghost predicate AnyBlocks(locks: seq<FileLock>, t: Target, kind: RequestType) {
    exists l :: l in locks && Blocks(l, t, kind)
  }

  /** Records overlap exactly when they share a byte. */
  lemma OverlapsExactly(l: FileLock, start: int, end: Option<int>)
    requires ProperRange(l.start, l.end) && ProperRange(start, end)
    ensures Overlaps(l.start, l.end, start, end) <==> exists b :: InRange(b, l.start, l.end) && InRange(b, start, end)
  {
    var b := Max(l.start, start);
    if Overlaps(l.start, l.end, start, end) {
      assert InRange(b, l.start, l.end) && InRange(b, start, end);
    }
  }

  /** The table finds a conflict exactly when some byte really conflicts. */
  lemma ConflictExact(locks: seq<FileLock>, t: Target, kind: LockType)
    requires WellFormed(locks) && ProperRange(t.start, t.end)
    ensures AnyBlocks(locks, t, Locked(kind)) <==> RealConflict(locks, t, kind)
  {
    if AnyBlocks(locks, t, Locked(kind)) {
      var l :| l in locks && Blocks(l, t, Locked(kind));
      OverlapsExactly(l, t.start, t.end);
      var b :| InRange(b, l.start, l.end) && InRange(b, t.start, t.end);
      assert Holds(l, t.inode, l.owner, b, l.kind);
      assert HeldBy(locks, t.inode, l.owner, b, l.kind) && Clash(l.kind, kind);
    }
    if RealConflict(locks, t, kind) {
      var other, b, k :| other != t.owner && InRange(b, t.start, t.end) && HeldBy(locks, t.inode, other, b, k)
        && Clash(k, kind);
      var l :| l in locks && Holds(l, t.inode, other, b, k);
      OverlapsExactly(l, t.start, t.end);
      assert Blocks(l, t, Locked(kind));
    }
  }

  // ----- negative lengths -----

  /** A negative length names the bytes before `start` in fcntl; here it clears none at all. */
  lemma {:induction false} NegativeLengthClearsNothing(locks: seq<FileLock>, t: Target, inode: InodeId, owner: int,
      b: int, kind: LockType)
    requires WellFormed(locks) && t.end.Some? && t.end.value + 1 < t.start
    ensures HeldBy(CutAll(locks, t), inode, owner, b, kind) <==> HeldBy(locks, inode, owner, b, kind)
  {
    if locks != [] {
      var init, l := locks[..|locks| - 1], locks[|locks| - 1];
      NegativeLengthClearsNothing(init, t, inode, owner, b, kind);
      HeldJoin(CutAll(init, t), Cut(l, t), inode, owner, b, kind);
      assert locks == init + [l];
      HeldJoin(init, [l], inode, owner, b, kind);
      CutNothing(l, t, inode, owner, b, kind);
    }
  }

  lemma CutNothing(l: FileLock, t: Target, inode: InodeId, owner: int, b: int, kind: LockType)
    requires ProperRange(l.start, l.end) && t.end.Some? && t.end.value + 1 < t.start
    ensures HeldBy(Cut(l, t), inode, owner, b, kind) <==> HeldBy([l], inode, owner, b, kind)
  {
    var before, after := l.(end := Some(t.start - 1)), l.(start := t.end.value + 1);
    assert l in [l];
    if Holds(l, inode, owner, b, kind) {
      assert l in Cut(l, t) || (before in Cut(l, t) && Holds(before, inode, owner, b, kind))
        || (after in Cut(l, t) && Holds(after, inode, owner, b, kind));
    }
  }

  /** The bytes fcntl gives a request: from `start` on, or `length` bytes from there, or the -length bytes before it. */
  predicate Asked(b: int, start: int, length: int) {
    if length == 0 then start <= b else if length > 0 then start <= b < start + length else start + length <= b < start
  }

  /** An unlock leaves exactly what fcntl asks for. */
  ghost predicate UnlocksAsked(locks: seq<FileLock>, inode: InodeId, owner: int, start: int, length: int) {
    var after := CutAll(locks, Target(inode, owner, start, EndOf(start, length)));
    forall i, o, b, kind :: HeldBy(after, i, o, b, kind) <==>
      HeldBy(locks, i, o, b, kind) && !(i == inode && o == owner && Asked(b, start, length))
  }

  /** One lock on the ten bytes before offset ten, and a request to unlock them by a negative length: it stays. */
  lemma NegativeUnlockExample()
    ensures !UnlocksAsked([FileLock(2, 7, 1, Exclusive, 0, Some(9))], 2, 7, 10, -10)
  {
    var locks := [FileLock(2, 7, 1, Exclusive, 0, Some(9))];
    NegativeUnlockStays(locks[0], 2, 7, 10, -10, 5);
  }

  lemma NegativeUnlockStays(l: FileLock, inode: InodeId, owner: int, start: int, length: int, b: int)
    requires ProperRange(l.start, l.end) && length < 0 && Asked(b, start, length) && Holds(l, inode, owner, b, l.kind)
    ensures !UnlocksAsked([l], inode, owner, start, length)
  {
    assert l in [l];
    NegativeLengthClearsNothing([l], Target(inode, owner, start, EndOf(start, length)), inode, owner, b, l.kind);
  }

  /** Within the offsets the table represents, unlocking does what fcntl asks on every table if and only if the length
      is not negative. */
  lemma UnlockMeetsFcntlExactly(inode: InodeId, owner: int, start: int, length: int)
    requires start <= MAXSIZE && (length > 0 ==> start + length <= MAXSIZE)
    ensures (forall locks :: WellFormed(locks) ==> UnlocksAsked(locks, inode, owner, start, length)) <==> length >= 0
  {
    if length >= 0 {
      forall locks | WellFormed(locks) ensures UnlocksAsked(locks, inode, owner, start, length) {
        UnlockClears(locks, Target(inode, owner, start, EndOf(start, length)));
      }
    } else {
      var l := FileLock(inode, owner, 0, Exclusive, start + length, Some(start - 1));
      NegativeUnlockStays(l, inode, owner, start, length, start - 1);
      assert WellFormed([l]) && !UnlocksAsked([l], inode, owner, start, length);
    }
  }

  // ----- the table object -----

  class AdvisoryLockTable {
    var locks: seq<FileLock>

    constructor ()
      ensures locks == [] && Valid(locks)
    {
      locks := [];
    }

    /** `_conflict`: the first record that blocks the request. */
    method Conflict(t: Target, kind: RequestType) returns (found: Option<FileLock>)
      ensures found.Some? <==> kind != Unlocked && AnyBlocks(locks, t, kind)
      ensures found.Some? ==> exists i :: 0 <= i < |locks| && FirstBlocks(locks, i, t, kind) && locks[i] == found.value
    {
      if kind == Unlocked {
        return None;
      }
      for i := 0 to |locks|
        invariant forall j :: 0 <= j < i ==> !Blocks(locks[j], t, kind)
      {
        if Blocks(locks[i], t, kind) {
          assert FirstBlocks(locks, i, t, kind);
          return Some(locks[i]);
        }
      }
      return None;
    }

    /** What `_unlock` appends for one record. */
    method CutOne(l: FileLock, t: Target) returns (kept: seq<FileLock>)
      ensures kept == Cut(l, t)
    {
      if l.inode != t.inode || l.owner != t.owner || !Overlaps(l.start, l.end, t.start, t.end) {
        return [l];
      }
      kept := [];
      if l.start < t.start {
        kept := kept + [l.(end := Some(t.start - 1))];
      }
      if t.end.Some? && (l.end.None? || l.end.value > t.end.value) {
        kept := kept + [l.(start := t.end.value + 1)];
      }
    }

    /** `_unlock`. */
    method Unlock(t: Target)
      modifies this
      ensures locks == CutAll(old(locks), t)
      ensures WellFormed(old(locks)) && ProperRange(t.start, t.end) ==>
        Cleared(old(locks), locks, t) && WellFormed(locks)
    {
      var next: seq<FileLock> := [];
      for i := 0 to |locks|
        invariant locks == old(locks)
        invariant next == CutAll(locks[..i], t)
      {
        assert locks[..i + 1][..i] == locks[..i];
        var kept := CutOne(locks[i], t);
        next := next + kept;
      }
      assert locks[..|locks|] == locks;
      locks := next;
      if WellFormed(old(locks)) && ProperRange(t.start, t.end) {
        UnlockClears(old(locks), t);
      }
    }

    /** `apply`.  For every request the answer and the new table are those of the records.  With a valid table and a
        proper range, a lock is refused exactly when F_GETLK reports a conflict, which is exactly when some byte
        conflicts; what is granted or released is exactly the requested bytes; and the table stays a compatible map. */
    method Apply(inode: InodeId, owner: int, pid: int, command: Command, request: Flock)
      returns (r: Result<Option<Flock>>)
      modifies this
      ensures command == GetLk ==> r.Ok? && r.value.Some? && locks == old(locks)
      ensures command == OtherCommand || (command == SetLk && request.kind == UnknownType) ==>
        r == Err(EINVAL) && locks == old(locks)
      ensures var t := Target(inode, owner, request.start, EndOf(request.start, request.length));
        && (command == GetLk ==> Answers(old(locks), t, request, r))
        && (command == SetLk && request.kind.Locked? ==> (r == Err(EAGAIN) <==> AnyBlocks(old(locks), t, request.kind)))
        && (command == SetLk && request.kind.Locked? && r == Err(EAGAIN) ==> locks == old(locks))
        && (command == SetLk && request.kind.Locked? && r != Err(EAGAIN) ==>
              r == Ok(None)
                && locks == CutAll(old(locks), t) + [FileLock(inode, owner, pid, request.kind.kind, t.start, t.end)])
        && (command == SetLk && request.kind == Unlocked ==> r == Ok(None) && locks == CutAll(old(locks), t))
      ensures var t := Target(inode, owner, request.start, EndOf(request.start, request.length));
        old(Valid(locks)) && ProperRange(t.start, t.end) ==>
          && Valid(locks)
          && (command == GetLk && request.kind.Locked? ==>
               (Reports(old(locks), t, request, r) <==> RealConflict(old(locks), t, request.kind.kind)))
          && (command == GetLk && !Reports(old(locks), t, request, r) ==>
               r == Ok(Some(request.(kind := Unlocked, pid := 0))))
          && (command == SetLk && request.kind.Locked? ==>
               (r == Err(EAGAIN) <==> RealConflict(old(locks), t, request.kind.kind)))
          && (command == SetLk && request.kind.Locked? && r != Err(EAGAIN) ==>
               Granted(old(locks), locks, t, request.kind.kind))
          && (command == SetLk && request.kind == Unlocked ==> Cleared(old(locks), locks, t))
    {
      var t := Target(inode, owner, request.start, EndOf(request.start, request.length));
      if WellFormed(locks) && ProperRange(t.start, t.end) && request.kind.Locked? {
        ConflictExact(locks, t, request.kind.kind);
      }
      if command == GetLk {
        var conflict := Conflict(t, request.kind);
        if conflict.None? {
          return Ok(Some(request.(kind := Unlocked, pid := 0)));
        }
        return Ok(Some(Described(conflict.value)));
      }
      if command != SetLk {
        return Err(EINVAL);
      }
      if request.kind == Unlocked {
        Unlock(t);
        if old(Valid(locks)) && ProperRange(t.start, t.end) {
          ClearedStaysValid(old(locks), locks, t);
        }
        return Ok(None);
      }
      if !request.kind.Locked? {
        return Err(EINVAL);
      }
      r := Set(t, pid, request.kind.kind);
    }

    /** F_SETLK with a lock type. */
    method Set(t: Target, pid: int, kind: LockType) returns (r: Result<Option<Flock>>)
      modifies this
      ensures r == Err(EAGAIN) <==> AnyBlocks(old(locks), t, Locked(kind))
      ensures r == Err(EAGAIN) ==> locks == old(locks)
      ensures r != Err(EAGAIN) ==>
        r == Ok(None) && locks == CutAll(old(locks), t) + [FileLock(t.inode, t.owner, pid, kind, t.start, t.end)]
      ensures old(Valid(locks)) && ProperRange(t.start, t.end) ==>
        Valid(locks) && (r.Ok? ==> Granted(old(locks), locks, t, kind))
    {
      var conflict := Conflict(t, Locked(kind));
      if conflict.Some? {
        return Err(EAGAIN);
      }
      Unlock(t);
      locks := locks + [FileLock(t.inode, t.owner, pid, kind, t.start, t.end)];
      if old(Valid(locks)) && ProperRange(t.start, t.end) {
        LockGrants(old(locks), t, kind, pid);
        ConflictExact(old(locks), t, kind);
        GrantedStaysValid(old(locks), locks, t, kind);
      }
      return Ok(None);
    }

    /** `release_owner`: the owner loses every lock on the inode and nobody else loses any. */
    method ReleaseOwner(inode: InodeId, owner: int)
      modifies this
      ensures forall i, o, b, k :: HeldBy(locks, i, o, b, k) <==>
        HeldBy(old(locks), i, o, b, k) && !(i == inode && o == owner)
      ensures old(Valid(locks)) ==> Valid(locks)
    {
      var next: seq<FileLock> := [];
      for i := 0 to |locks|
        invariant locks == old(locks)
        invariant forall l :: l in next <==> l in locks[..i] && !(l.inode == inode && l.owner == owner)
      {
        if !(locks[i].inode == inode && locks[i].owner == owner) {
          next := next + [locks[i]];
        }
        assert locks[..i + 1] == locks[..i] + [locks[i]];
      }
      assert locks[..|locks|] == locks;
      locks := next;
    }
  }

  /** The fields F_GETLK fills in from a record. */
  function Described(l: FileLock): Flock {
    Flock(Locked(l.kind), l.start, if l.end.None? then 0 else l.end.value - l.start + 1, l.pid)
  }

  /** What is answered about a record names the bytes it holds, in the terms of fcntl, and its type and process. */
  lemma DescribedExactly(l: FileLock, b: int)
    requires ProperRange(l.start, l.end)
    ensures Asked(b, Described(l).start, Described(l).length) <==> InRange(b, l.start, l.end)
    ensures Described(l).kind == Locked(l.kind) && Described(l).pid == l.pid
  {
  }

  /** The answer describes a record that blocks the request. */
  ghost predicate Reports(locks: seq<FileLock>, t: Target, request: Flock, r: Result<Option<Flock>>) {
    exists l :: l in locks && Blocks(l, t, request.kind) && r == Ok(Some(Described(l)))
  }

  /** F_GETLK answers with the first record that blocks, or says that the range is free. */
  ghost predicate Answers(locks: seq<FileLock>, t: Target, request: Flock, r: Result<Option<Flock>>) {
    if request.kind != Unlocked && AnyBlocks(locks, t, request.kind) then
      exists i :: 0 <= i < |locks| && FirstBlocks(locks, i, t, request.kind) && r == Ok(Some(Described(locks[i])))
    else
      r == Ok(Some(request.(kind := Unlocked, pid := 0)))
  }

  predicate FirstBlocks(locks: seq<FileLock>, i: nat, t: Target, kind: RequestType)
    requires i < |locks|
  {
    Blocks(locks[i], t, kind) && forall j :: 0 <= j < i ==> !Blocks(locks[j], t, kind)
  }
}
