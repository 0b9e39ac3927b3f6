/** A maintenance run of cleanup: queued deletions, cold copies left behind by copy-up, and cold blocks nobody refers
    to.  Each loop is a sequence of the whole operations of Presence, so its theorems apply to it. */
module Cleanup {
  import opened Types
  import opened Schema
  import opened Tiering
  import opened Presence

  predicate Distinct(rows: seq<Digest>) {
    forall i, j :: 0 <= i < j < |rows| ==> rows[i] != rows[j]
  }

  /** The three loops of a run: queued deletions, copies on cold that were promoted to hot, and garbage on cold. */
  datatype Pass = Queued | PromotedCopies | Garbage

  function Removal(d: Digest, pass: Pass, cutoff: int): Op {
    match pass
    case Queued => Drain(d)
    case PromotedCopies => CleanPromoted(d, cutoff)
    case Garbage => CleanGarbage(d, cutoff)
  }

  predicate IsRemoval(op: Op) {
    op.Drain? || op.CleanGarbage? || op.CleanPromoted?
  }

  /** The tier a pass deletes from. */
  function TierOf(pass: Pass): Tier {
    if pass == Queued then Hot else Cold
  }

  /** What the query of a pass selects. */
  predicate Candidate(db: Database, d: Digest, pass: Pass, cutoff: int) {
    match pass
    case Queued => (d, Hot) in db.queue
    case PromotedCopies => d in db.blocks && PromotedCandidate(db.blocks[d], cutoff)
    case Garbage => d in db.blocks && GarbageCandidate(db.blocks[d], cutoff)
  }

  function Candidates(db: Database, pass: Pass, cutoff: int): (r: set<Digest>)
    ensures forall d :: d in r <==> Candidate(db, d, pass, cutoff)
  {
    if pass == Queued then set item | item in db.queue && item.1 == Hot :: item.0
    else set d | d in db.blocks && Candidate(db, d, pass, cutoff)
  }

  function OrZero(time: Option<int>): int {
    if time.Some? then time.value else 0
  }

  /** The time the query orders by; the queue is read in the order of its ids, which the model does not keep. */
  function Age(db: Database, d: Digest, pass: Pass): int {
    if pass == Queued || d !in db.blocks then 0
    else if pass == PromotedCopies then OrZero(db.blocks[d].lastPromoted)
    else OrZero(db.blocks[d].coldGc)
  }

  /** The result of the query: every candidate once, oldest first. */
  ghost predicate Selected(db: Database, rows: seq<Digest>, pass: Pass, cutoff: int) {
    && Distinct(rows) && (forall d :: d in rows <==> Candidate(db, d, pass, cutoff))
    && OldestFirst(db, rows, pass)
  }

  predicate OldestFirst(db: Database, rows: seq<Digest>, pass: Pass) {
    forall i, j :: 0 <= i < j < |rows| ==> Age(db, rows[i], pass) <= Age(db, rows[j], pass)
  }

  /** The removals made so far: exactly those of the rows whose path can be reached. */
  ghost predicate Covers(ops: seq<Op>, rows: seq<Digest>, down: set<(Digest, Tier)>, pass: Pass, cutoff: int) {
    && (forall op :: op in ops ==>
      IsRemoval(op) && op == Removal(op.digest, pass, cutoff) && op.digest in rows
        && (op.digest, TierOf(pass)) !in down)
    && (forall d :: d in rows && (d, TierOf(pass)) !in down ==> Removal(d, pass, cutoff) in ops)
  }

  lemma CoversMore(ops: seq<Op>, rows: seq<Digest>, d: Digest, down: set<(Digest, Tier)>, pass: Pass, cutoff: int)
    requires Covers(ops, rows, down, pass, cutoff)
    ensures var after := if (d, TierOf(pass)) in down then ops else ops + [Removal(d, pass, cutoff)];
      Covers(after, rows + [d], down, pass, cutoff)
  {
  }

  lemma {:induction false} DoMore(s: Store, ops: seq<Op>, op: Op)
    ensures DoAll(s, ops + [op]) == Do(DoAll(s, ops), op)
    ensures CanDoAll(s, ops) && CanDo(DoAll(s, ops), op) && OpGuard(DoAll(s, ops), op) ==> CanDoAll(s, ops + [op])
    decreases |ops|
  {
    if ops == [] {
      assert [op][1..] == [];
      assert ops + [op] == [op];
      assert DoAll(Do(s, op), []) == Do(s, op);
      assert CanDoAll(Do(s, op), []);
    } else {
      assert (ops + [op])[1..] == ops[1..] + [op];
      DoMore(Do(s, ops[0]), ops[1..], op);
    }
  }

  /** Rows not yet handled are still candidates. */
  ghost predicate Waiting(db: Database, rows: seq<Digest>, from: nat, pass: Pass, cutoff: int) {
    forall i :: from <= i < |rows| ==> Candidate(db, rows[i], pass, cutoff)
  }

  lemma StillWaiting(s: Store, rows: seq<Digest>, i: nat, pass: Pass, cutoff: int)
    requires Distinct(rows) && i < |rows| && Waiting(s.db, rows, i, pass, cutoff)
    ensures Waiting(Do(s, Removal(rows[i], pass, cutoff)).db, rows, i + 1, pass, cutoff)
    ensures CanDo(s, Removal(rows[i], pass, cutoff)) && OpGuard(s, Removal(rows[i], pass, cutoff))
  {
  }

  // ----- what the passes do, in terms of columns and files -----

  /** Queue rows and hot files that go. */
  ghost predicate Drained(s: Store, after: Store, gone: set<Digest>) {
    && after.db == s.db.(queue := set q | q in s.db.queue && !(q.1 == Hot && q.0 in gone))
    && after.disk == map f | f in s.disk && !(f.1 == Hot && f.0 in gone) :: s.disk[f]
  }

  /** Cold copies that go. */
  ghost predicate Uncopied(s: Store, after: Store, gone: set<Digest>) {
    && after.db == s.db.(blocks := map d | d in s.db.blocks ::
         if d in gone then s.db.blocks[d].(cold := false) else s.db.blocks[d])
    && after.disk == map f | f in s.disk && !(f.1 == Cold && f.0 in gone) :: s.disk[f]
  }

  /** Records that go with their cold files. */
  ghost predicate Dropped(s: Store, after: Store, gone: set<Digest>) {
    && after.db == s.db.(blocks := map d | d in s.db.blocks && d !in gone :: s.db.blocks[d])
    && after.disk == map f | f in s.disk && !(f.1 == Cold && f.0 in gone) :: s.disk[f]
  }

  ghost predicate Swept(s: Store, after: Store, gone: set<Digest>, pass: Pass) {
    match pass
    case Queued => Drained(s, after, gone)
    case PromotedCopies => Uncopied(s, after, gone)
    case Garbage => Dropped(s, after, gone)
  }

  lemma NothingSwept(s: Store, pass: Pass)
    ensures Swept(s, s, {}, pass)
  {
    assert s.db.queue == set q | q in s.db.queue && !(q.1 == Hot && q.0 in {});
    assert s.disk == map f | f in s.disk && !(f.1 == TierOf(pass) && f.0 in {}) :: s.disk[f];
  }

  lemma SweptMore(s: Store, now: Store, gone: set<Digest>, d: Digest, pass: Pass, cutoff: int)
    requires Swept(s, now, gone, pass) && (pass == PromotedCopies ==> d in now.db.blocks)
    ensures Swept(s, Do(now, Removal(d, pass, cutoff)), gone + {d}, pass)
  {
    match pass
    case Queued => DrainedMore(s, now, gone, d);
    case PromotedCopies => UncopiedMore(s, now, gone, d, cutoff);
    case Garbage => DroppedMore(s, now, gone, d, cutoff);
  }

  lemma DrainedMore(s: Store, now: Store, gone: set<Digest>, d: Digest)
    requires Drained(s, now, gone)
    ensures Drained(s, Do(now, Drain(d)), gone + {d})
  {
  }

  lemma UncopiedMore(s: Store, now: Store, gone: set<Digest>, d: Digest, cutoff: int)
    requires Uncopied(s, now, gone) && d in now.db.blocks
    ensures Uncopied(s, Do(now, CleanPromoted(d, cutoff)), gone + {d})
  {
  }

  lemma DroppedMore(s: Store, now: Store, gone: set<Digest>, d: Digest, cutoff: int)
    requires Dropped(s, now, gone)
    ensures Dropped(s, Do(now, CleanGarbage(d, cutoff)), gone + {d})
  {
  }

  /** Of these rows, those whose path on the tier can be reached. */
  ghost function Reached(rows: seq<Digest>, down: set<(Digest, Tier)>, t: Tier): set<Digest> {
    set d | d in rows && (d, t) !in down
  }

  lemma {:induction false} LastOp(s: Store, ops: seq<Op>)
    requires ops != [] && CanDoAll(s, ops)
    ensures var (init, last) := (ops[..|ops| - 1], ops[|ops| - 1]);
      CanDoAll(s, init) && CanDo(DoAll(s, init), last) && DoAll(s, ops) == Do(DoAll(s, init), last)
    decreases |ops|
  {
    if |ops| > 1 {
      LastOp(Do(s, ops[0]), ops[1..]);
      assert ops[1..][..|ops| - 2] == ops[..|ops| - 1][1..];
    } else {
      assert ops == [ops[0]] && ops[..0] == [] && ops[1..] == [];
    }
  }

  predicate IsRemovalOf(op: Op, pass: Pass, cutoff: int) {
    IsRemoval(op) && op == Removal(op.digest, pass, cutoff)
  }

  ghost function RemovedBy(ops: seq<Op>): set<Digest> {
    set op | op in ops && IsRemoval(op) :: op.digest
  }

  lemma RemovedByMore(init: seq<Op>, last: Op)
    requires IsRemoval(last)
    ensures RemovedBy(init + [last]) == RemovedBy(init) + {last.digest}
  {
    forall d ensures d in RemovedBy(init + [last]) <==> d in RemovedBy(init) || d == last.digest {
      assert last in init + [last];
    }
  }

  ghost predicate AllOf(ops: seq<Op>, pass: Pass, cutoff: int) {
    forall op :: op in ops ==> IsRemovalOf(op, pass, cutoff)
  }

  lemma OneMoreSwept(s: Store, now: Store, init: seq<Op>, last: Op, pass: Pass, cutoff: int)
    requires Swept(s, now, RemovedBy(init), pass) && IsRemovalOf(last, pass, cutoff) && CanDo(now, last)
    ensures Swept(s, Do(now, last), RemovedBy(init + [last]), pass)
  {
    RemovedByMore(init, last);
    SweptMore(s, now, RemovedBy(init), last.digest, pass, cutoff);
  }

  lemma InitAndLast(ops: seq<Op>, pass: Pass, cutoff: int) returns (init: seq<Op>, last: Op)
    requires ops != [] && AllOf(ops, pass, cutoff)
    ensures init == ops[..|ops| - 1] && last == ops[|ops| - 1] && init + [last] == ops
    ensures AllOf(init, pass, cutoff) && IsRemovalOf(last, pass, cutoff)
  {
    init, last := ops[..|ops| - 1], ops[|ops| - 1];
    assert last in ops;
  }

  /** Removals of one pass, one after the other, amount to one removal of all their blocks. */
  lemma {:induction false} OpsSweep(s: Store, ops: seq<Op>, pass: Pass, cutoff: int)
    requires CanDoAll(s, ops) && AllOf(ops, pass, cutoff)
    ensures Swept(s, DoAll(s, ops), RemovedBy(ops), pass)
    decreases |ops|
  {
    if ops == [] {
      NothingSwept(s, pass);
      assert RemovedBy(ops) == {};
    } else {
      var init, last := InitAndLast(ops, pass, cutoff);
      LastOp(s, ops);
      OpsSweep(s, init, pass, cutoff);
      OneMoreSwept(s, DoAll(s, init), init, last, pass, cutoff);
    }
  }

  lemma CoveredIsReached(ops: seq<Op>, rows: seq<Digest>, down: set<(Digest, Tier)>, pass: Pass, cutoff: int)
    requires Covers(ops, rows, down, pass, cutoff)
    ensures RemovedBy(ops) == Reached(rows, down, TierOf(pass)) && AllOf(ops, pass, cutoff)
  {
    forall d | d in Reached(rows, down, TierOf(pass)) ensures d in RemovedBy(ops) {
      assert Removal(d, pass, cutoff) in ops && Removal(d, pass, cutoff).digest == d;
    }
  }

  /** What a pass that covers the rows has done to tables and files. */
  lemma CoveredIsSwept(s: Store, ops: seq<Op>, rows: seq<Digest>, down: set<(Digest, Tier)>, pass: Pass, cutoff: int)
    requires CanDoAll(s, ops) && Covers(ops, rows, down, pass, cutoff)
    ensures Swept(s, DoAll(s, ops), Reached(rows, down, TierOf(pass)), pass)
  {
    CoveredIsReached(ops, rows, down, pass, cutoff);
    OpsSweep(s, ops, pass, cutoff);
  }

  /** Where a loop stands: the removals made so far led from `from` to `now`. */
  ghost predicate Stands(from: Store, now: Store, ops: seq<Op>, rows: seq<Digest>, i: nat, down: set<(Digest, Tier)>,
                         pass: Pass, cutoff: int)
  {
    && i <= |rows| && now == DoAll(from, ops) && CanDoAll(from, ops)
    && Covers(ops, rows[..i], down, pass, cutoff) && Waiting(now.db, rows, i, pass, cutoff)
  }

  lemma StandsNext(from: Store, now: Store, ops: seq<Op>, rows: seq<Digest>, i: nat, down: set<(Digest, Tier)>,
                   pass: Pass, cutoff: int)
    requires Stands(from, now, ops, rows, i, down, pass, cutoff) && Distinct(rows) && i < |rows|
    ensures (rows[i], TierOf(pass)) in down ==> Stands(from, now, ops, rows, i + 1, down, pass, cutoff)
    ensures (rows[i], TierOf(pass)) !in down ==>
      Stands(from, Do(now, Removal(rows[i], pass, cutoff)), ops + [Removal(rows[i], pass, cutoff)], rows, i + 1, down,
        pass, cutoff)
  {
    StillWaiting(now, rows, i, pass, cutoff);
    CoversMore(ops, rows[..i], rows[i], down, pass, cutoff);
    assert rows[..i + 1] == rows[..i] + [rows[i]];
    DoMore(from, ops, Removal(rows[i], pass, cutoff));
  }

  lemma StandsLast(from: Store, now: Store, ops: seq<Op>, rows: seq<Digest>, down: set<(Digest, Tier)>, pass: Pass,
                   cutoff: int)
    requires Stands(from, now, ops, rows, |rows|, down, pass, cutoff)
    ensures now == DoAll(from, ops) && CanDoAll(from, ops) && Covers(ops, rows, down, pass, cutoff)
    ensures Swept(from, now, Reached(rows, down, TierOf(pass)), pass)
  {
    assert rows[..|rows|] == rows;
    CoveredIsSwept(from, ops, rows, down, pass, cutoff);
  }

  lemma SelectedWaits(db: Database, rows: seq<Digest>, pass: Pass, cutoff: int)
    requires Selected(db, rows, pass, cutoff)
    ensures Waiting(db, rows, 0, pass, cutoff)
  {
    forall i | 0 <= i < |rows| ensures Candidate(db, rows[i], pass, cutoff) {
      assert rows[i] in rows;
    }
  }

  /** The rows of the query over promoted copies, by their columns. */
  lemma PromotedRows(db: Database, rows: seq<Digest>, cutoff: int)
    requires Selected(db, rows, PromotedCopies, cutoff)
    ensures forall d :: d in rows <==>
      && d in db.blocks && db.blocks[d].storage == Tiered && db.blocks[d].hot && db.blocks[d].cold
      && db.blocks[d].preferred == Some(Hot)
      && db.blocks[d].lastPromoted.Some? && db.blocks[d].lastPromoted.value <= cutoff
    ensures forall i, j :: 0 <= i < j < |rows| ==>
      db.blocks[rows[i]].lastPromoted.value <= db.blocks[rows[j]].lastPromoted.value
  {
    SelectedWaits(db, rows, PromotedCopies, cutoff);
  }

  /** The rows of the query over garbage, by their columns. */
  lemma GarbageRows(db: Database, rows: seq<Digest>, cutoff: int)
    requires Selected(db, rows, Garbage, cutoff)
    ensures forall d :: d in rows <==>
      && d in db.blocks && db.blocks[d].storage == Tiered && db.blocks[d].refcount == 0 && db.blocks[d].cold
      && db.blocks[d].coldGc.Some? && db.blocks[d].coldGc.value <= cutoff
    ensures forall i, j :: 0 <= i < j < |rows| ==> db.blocks[rows[i]].coldGc.value <= db.blocks[rows[j]].coldGc.value
  {
    SelectedWaits(db, rows, Garbage, cutoff);
  }

  /** Two runs in a row are one. */
  lemma {:induction false} DoThen(s: Store, a: seq<Op>, b: seq<Op>)
    requires CanDoAll(s, a) && CanDoAll(DoAll(s, a), b)
    ensures DoAll(s, a + b) == DoAll(DoAll(s, a), b) && CanDoAll(s, a + b)
    decreases |a|
  {
    if a == [] {
      assert a + b == b;
    } else {
      assert (a + b)[1..] == a[1..] + b;
      DoThen(Do(s, a[0]), a[1..], b);
    }
  }

  /** The rows not yet taken are at least as young as those that were. */
  predicate AllYounger(db: Database, rows: seq<Digest>, rest: set<Digest>, pass: Pass) {
    && (forall i :: 0 <= i < |rows| ==> rows[i] !in rest)
    && (forall i, d :: 0 <= i < |rows| && d in rest ==> Age(db, rows[i], pass) <= Age(db, d, pass))
  }

  lemma AppendOldest(db: Database, rows: seq<Digest>, rest: set<Digest>, d: Digest, pass: Pass)
    requires Distinct(rows) && OldestFirst(db, rows, pass) && AllYounger(db, rows, rest, pass)
    requires IsOldest(db, rest, pass, d)
    ensures Distinct(rows + [d]) && OldestFirst(db, rows + [d], pass) && AllYounger(db, rows + [d], rest - {d}, pass)
  {
  }

  predicate IsOldest(db: Database, rest: set<Digest>, pass: Pass, d: Digest) {
    d in rest && forall e :: e in rest ==> Age(db, d, pass) <= Age(db, e, pass)
  }

  /** The older of one candidate and the oldest of the others. */
  lemma OlderOfTwo(db: Database, rest: set<Digest>, pass: Pass, d: Digest, m: Digest)
    requires d in rest && IsOldest(db, rest - {d}, pass, m)
    ensures IsOldest(db, rest, pass, if Age(db, d, pass) <= Age(db, m, pass) then d else m)
  {
  }

  lemma {:induction false} Oldest(db: Database, rest: set<Digest>, pass: Pass) returns (oldest: Digest)
    requires rest != {}
    ensures IsOldest(db, rest, pass, oldest)
    decreases rest
  {
    var d :| d in rest;
    if rest == {d} {
      return d;
    }
    var m := Oldest(db, rest - {d}, pass);
    OlderOfTwo(db, rest, pass, d, m);
    return if Age(db, d, pass) <= Age(db, m, pass) then d else m;
  }

  /** Python's `rows[:n]`, where there is an `n`. */
  function Limited(rows: seq<Digest>, limit: Option<int>): seq<Digest> {
    if limit.None? || limit.value >= |rows| then rows
    else if limit.value >= 0 then rows[..limit.value]
    else if |rows| + limit.value >= 0 then rows[..|rows| + limit.value]
    else []
  }

  /** Bytes of the rows whose cold path can be reached. */
  function StoredSum(sizes: seq<int>, rows: seq<Digest>, down: set<(Digest, Tier)>): int
    requires |sizes| == |rows|
  {
    if rows == [] then 0
    else
      var n := |rows| - 1;
      StoredSum(sizes[..n], rows[..n], down) + if (rows[n], Cold) in down then 0 else sizes[n]
  }

  lemma StoredSumMore(sizes: seq<int>, rows: seq<Digest>, i: nat, down: set<(Digest, Tier)>)
    requires i < |rows| == |sizes|
    ensures StoredSum(sizes[..i + 1], rows[..i + 1], down)
         == StoredSum(sizes[..i], rows[..i], down) + if (rows[i], Cold) in down then 0 else sizes[i]
  {
    assert rows[..i + 1][..i] == rows[..i] && sizes[..i + 1][..i] == sizes[..i];
  }

  function SizesOf(blocks: map<Digest, BlockRow>, rows: seq<Digest>): seq<int> {
    seq(|rows|, i requires 0 <= i < |rows| => if rows[i] in blocks then blocks[rows[i]].storedSize else 0)
  }

  /** Stored bytes of the rows that can be removed. */
  function Reclaimed(blocks: map<Digest, BlockRow>, rows: seq<Digest>, down: set<(Digest, Tier)>): int {
    StoredSum(SizesOf(blocks, rows), rows, down)
  }

  /** `_cold_garbage_count`: garbage of any age. */
  function ColdGarbage(db: Database): set<Digest> {
    set d | d in db.blocks && db.blocks[d].storage == Tiered && db.blocks[d].refcount == 0 && db.blocks[d].cold
  }

  lemma ReclaimedMore(blocks: map<Digest, BlockRow>, rows: seq<Digest>, d: Digest, down: set<(Digest, Tier)>)
    requires d in blocks
    ensures Reclaimed(blocks, [], down) == 0
    ensures Reclaimed(blocks, rows + [d], down)
         == Reclaimed(blocks, rows, down) + if (d, Cold) in down then 0 else blocks[d].storedSize
  {
    assert SizesOf(blocks, rows + [d])[..|rows|] == SizesOf(blocks, rows);
    assert (rows + [d])[..|rows|] == rows;
  }

  /** What a pass found and did. */
  datatype Sweep = Sweep(rows: seq<Digest>, ops: seq<Op>)

  /** A pass begun in `s`: the query's rows, and the removal of every one looked at whose path can be reached. */
  ghost predicate IsSweep(sweep: Sweep, s: Store, looked: seq<Digest>, down: set<(Digest, Tier)>, pass: Pass,
                          cutoff: int)
  {
    Selected(s.db, sweep.rows, pass, cutoff) && Covers(sweep.ops, looked, down, pass, cutoff)
  }

  datatype CleanupReport = CleanupReport(removed: nat, skipped: nat, pendingRemoved: nat, pendingSkipped: nat,
                                         gcCandidates: nat, gcRemoved: nat, gcSkipped: nat, gcReclaimed: int,
                                         gcRemaining: nat)

  class Cleaner {
    var db: Database
    var disk: Disk
    const down: set<(Digest, Tier)>

    constructor (db: Database, disk: Disk, down: set<(Digest, Tier)>)
      ensures this.db == db && this.disk == disk && this.down == down
    {
      this.db, this.disk, this.down := db, disk, down;
    }

    ghost function View(): Store
      reads this
    {
      Store(db, disk)
    }

    /** The query of a pass. */
    method Select(pass: Pass, cutoff: int) returns (rows: seq<Digest>)
      ensures Selected(db, rows, pass, cutoff)
    {
      var rest := Candidates(db, pass, cutoff);
      rows := [];
      while rest != {}
        invariant Distinct(rows) && OldestFirst(db, rows, pass)
        invariant AllYounger(db, rows, rest, pass)
        invariant forall d :: d in rest || d in rows <==> Candidate(db, d, pass, cutoff)
        decreases rest
      {
        ghost var oldest := Oldest(db, rest, pass);
        assert IsOldest(db, rest, pass, oldest);
        var d :| d in rest && IsOldest(db, rest, pass, d);
        AppendOldest(db, rows, rest, d, pass);
        rows, rest := rows + [d], rest - {d};
      }
    }

    /** One queue row: deferred when its file cannot be unlinked. */
    method DrainOne(d: Digest) returns (done: bool)
      modifies this
      ensures done <==> (d, Hot) !in down
      ensures View() == if done then Do(old(View()), Drain(d)) else old(View())
    {
      if (d, Hot) in down {
        return false;
      }
      disk := disk - {(d, Hot)};
      db := db.(queue := db.queue - {(d, Hot)});
      return true;
    }

    /** One candidate: skipped when its cold path cannot be reached. */
    method CleanOne(d: Digest, ghost cutoff: int) returns (done: bool)
      requires d in db.blocks
      modifies this
      ensures done <==> (d, Cold) !in down
      ensures View() == if done then Do(old(View()), CleanPromoted(d, cutoff)) else old(View())
    {
      if (d, Cold) in down {
        return false;
      }
      disk := disk - {(d, Cold)};
      db := db.(blocks := db.blocks[d := db.blocks[d].(cold := false)]);
      return true;
    }

    method DropOne(d: Digest, ghost cutoff: int) returns (done: bool)
      modifies this
      ensures done <==> (d, Cold) !in down
      ensures View() == if done then Do(old(View()), CleanGarbage(d, cutoff)) else old(View())
    {
      if (d, Cold) in down {
        return false;
      }
      disk := disk - {(d, Cold)};
      db := db.(blocks := db.blocks - {d});
      return true;
    }

    method DrainNext(ghost from: Store, ghost ops: seq<Op>, rows: seq<Digest>, i: nat)
      returns (done: bool, ghost more: seq<Op>)
      requires i < |rows| && Distinct(rows) && Stands(from, View(), ops, rows, i, down, Queued, 0)
      modifies this
      ensures Stands(from, View(), more, rows, i + 1, down, Queued, 0)
      ensures |more| == |ops| + if done then 1 else 0
    {
      StandsNext(from, View(), ops, rows, i, down, Queued, 0);
      done := DrainOne(rows[i]);
      return done, if done then ops + [Drain(rows[i])] else ops;
    }

    /** `_drain_pending_deletions` of a cleanup run, for the hot tier. */
    method DrainPendingDeletions() returns (removed: nat, skipped: nat, ghost rows: seq<Digest>, ghost ops: seq<Op>)
      modifies this
      ensures View() == DoAll(old(View()), ops) && CanDoAll(old(View()), ops)
      ensures Selected(old(db), rows, Queued, 0) && Covers(ops, rows, down, Queued, 0)
      ensures removed == |ops| && removed + skipped == |rows|
      ensures forall d :: d in rows <==> (d, Hot) in old(db).queue
      ensures Drained(old(View()), View(), Reached(rows, down, Hot))
    {
      removed, skipped, ops := 0, 0, [];
      ghost var from := View();
      var selected := Select(Queued, 0);
      rows := selected;
      for i := 0 to |selected|
        invariant Stands(from, View(), ops, selected, i, down, Queued, 0)
        invariant removed == |ops| && removed + skipped == i
      {
        var done;
        done, ops := DrainNext(from, ops, selected, i);
        if done {
          removed := removed + 1;
        } else {
          skipped := skipped + 1;
        }
      }
      StandsLast(from, View(), ops, selected, down, Queued, 0);
    }

    /** One row of the loop over promoted blocks. */
    method CleanNext(ghost from: Store, ghost ops: seq<Op>, rows: seq<Digest>, i: nat, cutoff: int)
      returns (done: bool, ghost more: seq<Op>)
      requires i < |rows| && Distinct(rows) && Stands(from, View(), ops, rows, i, down, PromotedCopies, cutoff)
      modifies this
      ensures Stands(from, View(), more, rows, i + 1, down, PromotedCopies, cutoff)
      ensures |more| == |ops| + if done then 1 else 0
    {
      StandsNext(from, View(), ops, rows, i, down, PromotedCopies, cutoff);
      done := CleanOne(rows[i], cutoff);
      return done, if done then ops + [CleanPromoted(rows[i], cutoff)] else ops;
    }

    /** The loop over promoted blocks. */
    method CleanRows(rows: seq<Digest>, cutoff: int) returns (removed: nat, skipped: nat, ghost ops: seq<Op>)
      requires Distinct(rows) && Waiting(db, rows, 0, PromotedCopies, cutoff)
      modifies this
      ensures View() == DoAll(old(View()), ops) && CanDoAll(old(View()), ops)
      ensures Covers(ops, rows, down, PromotedCopies, cutoff) && removed == |ops| && removed + skipped == |rows|
      ensures Uncopied(old(View()), View(), Reached(rows, down, Cold))
    {
      removed, skipped, ops := 0, 0, [];
      ghost var from := View();
      for i := 0 to |rows|
        invariant Stands(from, View(), ops, rows, i, down, PromotedCopies, cutoff)
        invariant removed == |ops| && removed + skipped == i
      {
        var done;
        done, ops := CleanNext(from, ops, rows, i, cutoff);
        if done {
          removed := removed + 1;
        } else {
          skipped := skipped + 1;
        }
      }
      StandsLast(from, View(), ops, rows, down, PromotedCopies, cutoff);
    }

    /** The pass over promoted blocks: the cold copy of every row whose path can be reached goes. */
    method CleanPromotedRows(cutoff: int, dryRun: bool)
      returns (removed: nat, skipped: nat, ghost rows: seq<Digest>, ghost ops: seq<Op>)
      modifies this
      ensures View() == DoAll(old(View()), ops) && CanDoAll(old(View()), ops)
      ensures Selected(old(db), rows, PromotedCopies, cutoff) && removed == |ops|
      ensures if dryRun then ops == [] && skipped == 0
        else Covers(ops, rows, down, PromotedCopies, cutoff) && removed + skipped == |rows|
      ensures forall d :: d in rows <==>
        && d in old(db).blocks && old(db).blocks[d].storage == Tiered && old(db).blocks[d].hot && old(db).blocks[d].cold
        && old(db).blocks[d].preferred == Some(Hot)
        && old(db).blocks[d].lastPromoted.Some? && old(db).blocks[d].lastPromoted.value <= cutoff
      ensures forall i, j :: 0 <= i < j < |rows| ==>
        old(db).blocks[rows[i]].lastPromoted.value <= old(db).blocks[rows[j]].lastPromoted.value
      ensures if dryRun then View() == old(View())
        else Uncopied(old(View()), View(), Reached(rows, down, Cold))
    {
      var selected := Select(PromotedCopies, cutoff);
      rows := selected;
      if dryRun {
        removed, skipped, ops := 0, 0, [];
      } else {
        SelectedWaits(db, selected, PromotedCopies, cutoff);
        removed, skipped, ops := CleanRows(selected, cutoff);
      }
      PromotedRows(old(db), rows, cutoff);
    }

    /** One row of the loop over garbage; `bytes` is what it reclaims. */
    method DropNext(ghost from: Store, ghost ops: seq<Op>, rows: seq<Digest>, i: nat, cutoff: int, size: int)
      returns (done: bool, bytes: int, ghost more: seq<Op>)
      requires i < |rows| && Distinct(rows) && Stands(from, View(), ops, rows, i, down, Garbage, cutoff)
      modifies this
      ensures Stands(from, View(), more, rows, i + 1, down, Garbage, cutoff)
      ensures |more| == |ops| + if done then 1 else 0
      ensures bytes == if (rows[i], Cold) in down then 0 else size
    {
      StandsNext(from, View(), ops, rows, i, down, Garbage, cutoff);
      done := DropOne(rows[i], cutoff);
      return done, if done then size else 0, if done then ops + [CleanGarbage(rows[i], cutoff)] else ops;
    }

    /** The loop over garbage. */
    method DropEach(rows: seq<Digest>, sizes: seq<int>, cutoff: int)
      returns (removed: nat, skipped: nat, reclaimed: int, ghost ops: seq<Op>)
      requires Distinct(rows) && Waiting(db, rows, 0, Garbage, cutoff) && |sizes| == |rows|
      modifies this
      ensures Stands(old(View()), View(), ops, rows, |rows|, down, Garbage, cutoff)
      ensures removed == |ops| && removed + skipped == |rows| && reclaimed == StoredSum(sizes, rows, down)
    {
      ghost var from := View();
      removed, skipped, reclaimed, ops := 0, 0, 0, [];
      for i := 0 to |rows|
        invariant Stands(from, View(), ops, rows, i, down, Garbage, cutoff)
        invariant removed == |ops| && removed + skipped == i && reclaimed == StoredSum(sizes[..i], rows[..i], down)
      {
        StoredSumMore(sizes, rows, i, down);
        var done, bytes;
        done, bytes, ops := DropNext(from, ops, rows, i, cutoff, sizes[i]);
        reclaimed := reclaimed + bytes;
        if done {
          removed := removed + 1;
        } else {
          skipped := skipped + 1;
        }
      }
      assert rows[..|rows|] == rows && sizes[..|rows|] == sizes;
    }

    /** What the loop over garbage does. */
    method DropRows(rows: seq<Digest>, sizes: seq<int>, cutoff: int)
      returns (removed: nat, skipped: nat, reclaimed: int, ghost ops: seq<Op>)
      requires Distinct(rows) && Waiting(db, rows, 0, Garbage, cutoff) && |sizes| == |rows|
      modifies this
      ensures View() == DoAll(old(View()), ops) && CanDoAll(old(View()), ops)
      ensures Covers(ops, rows, down, Garbage, cutoff)
      ensures removed == |ops| && removed + skipped == |rows| && reclaimed == StoredSum(sizes, rows, down)
      ensures Dropped(old(View()), View(), Reached(rows, down, Cold))
    {
      removed, skipped, reclaimed, ops := DropEach(rows, sizes, cutoff);
      StandsLast(old(View()), View(), ops, rows, down, Garbage, cutoff);
    }

    /** `_cleanup_cold_garbage`: at most `maxDeletes` of the selected rows are looked at, the oldest ones. */
    method CleanupColdGarbage(cutoff: int, maxDeletes: Option<int>, dryRun: bool)
      returns (candidates: nat, removed: nat, skipped: nat, reclaimed: int, ghost selected: seq<Digest>,
               ghost ops: seq<Op>)
      modifies this
      ensures View() == DoAll(old(View()), ops) && CanDoAll(old(View()), ops)
      ensures Selected(old(db), selected, Garbage, cutoff) && removed == |ops| && candidates == |selected|
      ensures var rows := Limited(selected, maxDeletes);
        if dryRun then ops == [] && skipped == 0
        else Covers(ops, rows, down, Garbage, cutoff) && removed + skipped == |rows|
      ensures reclaimed == if dryRun then 0 else Reclaimed(old(db).blocks, Limited(selected, maxDeletes), down)
      ensures maxDeletes.Some? && maxDeletes.value >= 0 ==> removed <= maxDeletes.value
      ensures forall op, d :: op in ops && d in selected && d !in Limited(selected, maxDeletes) ==>
        op.CleanGarbage? && Age(old(db), op.digest, Garbage) <= Age(old(db), d, Garbage)
      ensures forall d :: d in selected <==>
        && d in old(db).blocks && old(db).blocks[d].storage == Tiered && old(db).blocks[d].refcount == 0
        && old(db).blocks[d].cold
        && old(db).blocks[d].coldGc.Some? && old(db).blocks[d].coldGc.value <= cutoff
      ensures forall i, j :: 0 <= i < j < |selected| ==>
        old(db).blocks[selected[i]].coldGc.value <= old(db).blocks[selected[j]].coldGc.value
      ensures if dryRun then View() == old(View())
        else Dropped(old(View()), View(), Reached(Limited(selected, maxDeletes), down, Cold))
    {
      ghost var from := View();
      var found := Select(Garbage, cutoff);
      GarbageRows(db, found, cutoff);
      var rows := Limited(found, maxDeletes);
      var sizes := SizesOf(db.blocks, rows);
      selected, candidates, removed, skipped, reclaimed, ops := found, |found|, 0, 0, 0, [];
      if dryRun {
        return;
      }
      LimitedIsPrefix(found, maxDeletes);
      LimitedWaits(from.db, found, maxDeletes, cutoff);
      removed, skipped, reclaimed, ops := DropRows(rows, sizes, cutoff);
      OldestRemoved(from.db, found, maxDeletes, ops, down, cutoff);
    }

    /** `cleanup_promoted_copies`: one transaction drains the queue, drops the cold copies of promoted blocks and then
        the garbage on cold.  With true presence bits it keeps them true, so every block that is referred to reads
        back. */
    method CleanupPromotedCopies(cutoff: int, gcCutoff: Option<int>, maxDeletes: Option<int>, dryRun: bool)
      returns (report: CleanupReport, ghost queued: Sweep, ghost promoted: Sweep, ghost garbage: Sweep)
      modifies this
      ensures View() == DoAll(old(View()), queued.ops + promoted.ops + garbage.ops)
      ensures dryRun ==> View() == old(View())
      ensures !dryRun ==> IsSweep(queued, old(View()), queued.rows, down, Queued, 0)
      ensures !dryRun ==> IsSweep(promoted, DoAll(old(View()), queued.ops), promoted.rows, down, PromotedCopies, cutoff)
      ensures !dryRun && gcCutoff.Some? ==>
        IsSweep(garbage, DoAll(old(View()), queued.ops + promoted.ops), Limited(garbage.rows, maxDeletes), down,
          Garbage, gcCutoff.value)
      ensures gcCutoff.None? ==> garbage == Sweep([], [])
      ensures report.pendingRemoved == |queued.ops| && report.removed == |promoted.ops|
      ensures report.gcCandidates == |garbage.rows| && report.gcRemoved == |garbage.ops|
      ensures !dryRun ==>
        report.pendingSkipped == |queued.rows| - |queued.ops| && report.skipped == |promoted.rows| - |promoted.ops|
      ensures !dryRun ==> report.gcSkipped == |Limited(garbage.rows, maxDeletes)| - |garbage.ops|
      ensures report.gcReclaimed == (if dryRun || gcCutoff.None? then 0
        else Reclaimed(DoAll(old(View()), queued.ops + promoted.ops).db.blocks, Limited(garbage.rows, maxDeletes),
               down))
      ensures report.gcRemaining
        == |set d | d in db.blocks && db.blocks[d].storage == Tiered && db.blocks[d].refcount == 0 && db.blocks[d].cold|
      ensures old(Strict(View())) ==> Strict(View()) && ReadsEverything(View())
    {
      ghost var from := View();
      report, queued, garbage := CleanupReport(0, 0, 0, 0, 0, 0, 0, 0, 0), Sweep([], []), Sweep([], []);
      if !dryRun {
        var drained, deferred;
        ghost var rows, ops;
        drained, deferred, rows, ops := DrainPendingDeletions();
        report, queued := report.(pendingRemoved := drained, pendingSkipped := deferred), Sweep(rows, ops);
      }
      ghost var afterQueue := View();
      var removed, skipped;
      ghost var rows, ops;
      removed, skipped, rows, ops := CleanPromotedRows(cutoff, dryRun);
      report, promoted := report.(removed := removed, skipped := skipped), Sweep(rows, ops);
      DoThen(from, queued.ops, ops);
      ghost var afterPromoted := View();
      if gcCutoff.Some? {
        var found, gone, left, bytes;
        ghost var gcRows, gcOps;
        found, gone, left, bytes, gcRows, gcOps := CleanupColdGarbage(gcCutoff.value, maxDeletes, dryRun);
        report := report.(gcCandidates := found, gcRemoved := gone, gcSkipped := left, gcReclaimed := bytes);
        garbage := Sweep(gcRows, gcOps);
      }
      DoThen(from, queued.ops + promoted.ops, garbage.ops);
      KeptStrict(from, queued.ops + promoted.ops + garbage.ops);
      report := report.(gcRemaining := |ColdGarbage(db)|);
      assert ColdGarbage(db)
        == set d | d in db.blocks && db.blocks[d].storage == Tiered && db.blocks[d].refcount == 0 && db.blocks[d].cold;
    }
  }

  lemma LimitedIsPrefix(rows: seq<Digest>, limit: Option<int>)
    ensures Limited(rows, limit) <= rows
    ensures |Limited(rows, limit)| ==
      if limit.None? then |rows|
      else if limit.value >= 0 then Min(limit.value, |rows|) else Max(|rows| + limit.value, 0)
  {
  }

  lemma LimitedWaits(db: Database, rows: seq<Digest>, limit: Option<int>, cutoff: int)
    requires Selected(db, rows, Garbage, cutoff)
    ensures Distinct(Limited(rows, limit)) && Waiting(db, Limited(rows, limit), 0, Garbage, cutoff)
  {
    LimitedIsPrefix(rows, limit);
    forall i | 0 <= i < |Limited(rows, limit)| ensures Candidate(db, Limited(rows, limit)[i], Garbage, cutoff) {
      assert rows[i] in rows;
    }
  }

  lemma OldestRemoved(db: Database, rows: seq<Digest>, limit: Option<int>, ops: seq<Op>, down: set<(Digest, Tier)>,
                      cutoff: int)
    requires OldestFirst(db, rows, Garbage) && Covers(ops, Limited(rows, limit), down, Garbage, cutoff)
    ensures forall op, d :: op in ops && d in rows && d !in Limited(rows, limit) ==>
      op.CleanGarbage? && Age(db, op.digest, Garbage) <= Age(db, d, Garbage)
  {
    LimitedIsPrefix(rows, limit);
  }

  /** Every block a file refers to reads back. */
  ghost predicate ReadsEverything(s: Store) {
    forall k :: k in s.db.chunks ==> ChunkReads(s, k)
  }

  lemma KeptStrict(s: Store, ops: seq<Op>)
    requires CanDoAll(s, ops)
    ensures Strict(s) ==> Strict(DoAll(s, ops)) && ReadsEverything(DoAll(s, ops))
  {
    if Strict(s) {
      CrashFreeRuns(s, ops);
    }
  }
}
