/** Draining the queue of block files whose rows are gone: batches are read in FIFO order, files are unlinked, and
    only then are the rows of the unlinked files removed. */
module PendingDeletions {
  import opened Types
  import opened Tiering
  import opened Metadata
  import opened BlockStore

  /** `id` grows with every insertion. */
  datatype PendingRow = PendingRow(id: int, digest: Digest, tier: Tier)

  function PairOf(r: PendingRow): (Digest, Tier) { (r.digest, r.tier) }

  function PairsOf(rows: seq<PendingRow>): set<(Digest, Tier)> {
    set r | r in rows :: PairOf(r)
  }

  predicate OfTier(r: PendingRow, tier: Option<Tier>) {
    tier.None? || r.tier == tier.value
  }

  function Select(rows: seq<PendingRow>, tier: Option<Tier>): (selected: seq<PendingRow>)
    ensures forall r :: r in selected <==> r in rows && OfTier(r, tier)
  {
    if rows == [] then []
    else if OfTier(rows[0], tier) then [rows[0]] + Select(rows[1..], tier) else Select(rows[1..], tier)
  }

  /** SQL's LIMIT: a negative one is no limit. */
  function Limit(rows: seq<PendingRow>, n: int): seq<PendingRow> {
    if n < 0 || n >= |rows| then rows else rows[..n]
  }

  /** DELETE ... WHERE id = ?. */
  function Without(rows: seq<PendingRow>, id: int): (kept: seq<PendingRow>)
    ensures forall r :: r in kept <==> r in rows && r.id != id
  {
    if rows == [] then []
    else if rows[0].id == id then Without(rows[1..], id) else [rows[0]] + Without(rows[1..], id)
  }

  /** Ids increase, and no file is queued twice. */
  ghost predicate Queued(rows: seq<PendingRow>) {
    forall i, j :: 0 <= i < j < |rows| ==> rows[i].id < rows[j].id && PairOf(rows[i]) != PairOf(rows[j])
  }

  predicate Follows(r: PendingRow, first: PendingRow) {
    first.id < r.id && PairOf(first) != PairOf(r)
  }

  lemma FirstOf(rows: seq<PendingRow>)
    requires Queued(rows) && rows != []
    ensures Queued(rows[1..]) && forall r :: r in rows[1..] ==> Follows(r, rows[0])
  {
    forall r | r in rows[1..] ensures Follows(r, rows[0]) {
      var i :| 0 <= i < |rows[1..]| && rows[1..][i] == r;
      assert rows[i + 1] == r;
    }
  }

  lemma PutFirst(first: PendingRow, rest: seq<PendingRow>)
    requires Queued(rest) && forall r :: r in rest ==> Follows(r, first)
    ensures Queued([first] + rest)
  {
    forall i | 0 <= i < |rest| ensures Follows(rest[i], first) {
      assert rest[i] in rest;
    }
  }

  lemma {:induction false} WithoutAbsent(rows: seq<PendingRow>, id: int)
    requires forall r :: r in rows ==> r.id != id
    ensures Without(rows, id) == rows
  {
    if rows != [] {
      WithoutAbsent(rows[1..], id);
    }
  }

  /** Deleting by id takes one row and keeps the order of the others. */
  lemma {:induction false} WithoutOne(rows: seq<PendingRow>, gone: PendingRow)
    requires Queued(rows) && gone in rows
    ensures Queued(Without(rows, gone.id)) && |Without(rows, gone.id)| == |rows| - 1
    ensures forall r :: r in Without(rows, gone.id) <==> r in rows && r != gone
  {
    FirstOf(rows);
    if rows[0].id == gone.id {
      WithoutAbsent(rows[1..], gone.id);
    } else {
      WithoutOne(rows[1..], gone);
      PutFirst(rows[0], Without(rows[1..], gone.id));
    }
  }

  lemma {:induction false} SelectInOrder(rows: seq<PendingRow>, tier: Option<Tier>)
    requires Queued(rows)
    ensures Queued(Select(rows, tier))
  {
    if rows != [] {
      FirstOf(rows);
      SelectInOrder(rows[1..], tier);
      if OfTier(rows[0], tier) {
        PutFirst(rows[0], Select(rows[1..], tier));
      }
    }
  }

  /** Rows whose file can be unlinked, and the others. */
  function Good(rows: seq<PendingRow>, blocked: set<(Digest, Tier)>): (good: seq<PendingRow>)
    ensures forall r :: r in good <==> r in rows && PairOf(r) !in blocked
    ensures |good| <= |rows|
  {
    if rows == [] then []
    else Good(rows[..|rows| - 1], blocked) + if PairOf(rows[|rows| - 1]) in blocked then [] else [rows[|rows| - 1]]
  }

  function Bad(rows: seq<PendingRow>, blocked: set<(Digest, Tier)>): (bad: seq<PendingRow>)
    ensures forall r :: r in bad <==> r in rows && PairOf(r) in blocked
    ensures |bad| <= |rows|
  {
    if rows == [] then []
    else Bad(rows[..|rows| - 1], blocked) + if PairOf(rows[|rows| - 1]) in blocked then [rows[|rows| - 1]] else []
  }

  function IdList(rows: seq<PendingRow>): (ids: seq<int>)
    ensures |ids| == |rows|
  {
    seq(|rows|, i requires 0 <= i < |rows| => rows[i].id)
  }

  lemma LastFollows(rows: seq<PendingRow>, good: seq<PendingRow>)
    requires rows != [] && Queued(rows) && Queued(good) && forall r :: r in good ==> r in rows[..|rows| - 1]
    ensures Queued(good + [rows[|rows| - 1]])
  {
    forall i | 0 <= i < |good| ensures Follows(rows[|rows| - 1], good[i]) {
      assert good[i] in good;
    }
  }

  lemma {:induction false} GoodInOrder(rows: seq<PendingRow>, blocked: set<(Digest, Tier)>)
    requires Queued(rows)
    ensures Queued(Good(rows, blocked))
  {
    if rows != [] {
      var init, last := rows[..|rows| - 1], rows[|rows| - 1];
      GoodInOrder(init, blocked);
      LastFollows(rows, Good(init, blocked));
    }
  }

  lemma LeftOutBehind(all: seq<PendingRow>, limit: int, r: PendingRow)
    requires Queued(all) && r in all && r !in Limit(all, limit)
    ensures 0 <= limit == |Limit(all, limit)| && forall b :: b in Limit(all, limit) ==> b.id < r.id
  {
    var i :| 0 <= i < |all| && all[i] == r;
    assert forall k :: 0 <= k < limit ==> all[..limit][k] == all[k];
  }

  /** The first rows of the tier, by their columns: a row that is left out comes behind a full batch. */
  lemma FirstOfTier(rows: seq<PendingRow>, tier: Option<Tier>, limit: int)
    requires Queued(rows) && Queued(Select(rows, tier))
    ensures var batch := Limit(Select(rows, tier), limit);
      && (forall r :: r in batch ==> r in rows && (tier.None? || r.tier == tier.value))
      && (limit >= 0 ==> |batch| <= limit)
      && forall r :: r in rows && (tier.None? || r.tier == tier.value) && r !in batch ==>
           0 <= limit == |batch| && forall b :: b in batch ==> b.id < r.id
  {
    var all := Select(rows, tier);
    var batch := Limit(all, limit);
    assert forall r :: r in batch ==> r in all;
    forall r | r in rows && (tier.None? || r.tier == tier.value) && r !in batch
      ensures 0 <= limit == |batch| && forall b :: b in batch ==> b.id < r.id
    {
      assert r in all;
      LeftOutBehind(all, limit, r);
    }
  }

  /** `PendingDeletionOutcome`. */
  datatype Outcome = Outcome(removed: seq<int>, deferred: seq<int>, unavailable: seq<int>)

  /** Ids of the rows whose files are gone, of the others, and of those whose tier was unreachable. */
  function OutcomeOf(batch: seq<PendingRow>, blocked: set<(Digest, Tier)>, down: set<(Digest, Tier)>): Outcome {
    Outcome(IdList(Good(batch, blocked)), IdList(Bad(batch, blocked)), IdList(Bad(batch, down)))
  }

  lemma IdsAre(rows: seq<PendingRow>, id: int)
    ensures id in IdList(rows) <==> exists r :: r in rows && r.id == id
  {
    if id in IdList(rows) {
      var i :| 0 <= i < |IdList(rows)| && IdList(rows)[i] == id;
      assert rows[i] in rows && rows[i].id == id;
    } else {
      forall r | r in rows ensures r.id != id {
        var i :| 0 <= i < |rows| && rows[i] == r;
        assert IdList(rows)[i] in IdList(rows);
      }
    }
  }

  /** The three lists, by the rows: unlinked, not unlinked, and of these the ones whose tier cannot be reached. */
  lemma OutcomeExactly(batch: seq<PendingRow>, blocked: set<(Digest, Tier)>, down: set<(Digest, Tier)>, id: int)
    ensures var o := OutcomeOf(batch, blocked, down);
      && (id in o.removed <==> exists r :: r in batch && r.id == id && (r.digest, r.tier) !in blocked)
      && (id in o.deferred <==> exists r :: r in batch && r.id == id && (r.digest, r.tier) in blocked)
      && (id in o.unavailable <==> exists r :: r in batch && r.id == id && (r.digest, r.tier) in down)
  {
    IdsAre(Good(batch, blocked), id);
    IdsAre(Bad(batch, blocked), id);
    IdsAre(Bad(batch, down), id);
  }

  function AddRow(o: Outcome, r: PendingRow, ok: bool, unavailable: bool): Outcome {
    Outcome(if ok then o.removed + [r.id] else o.removed,
            if ok then o.deferred else o.deferred + [r.id],
            if unavailable then o.unavailable + [r.id] else o.unavailable)
  }

  lemma GoodStep(before: seq<PendingRow>, r: PendingRow, blocked: set<(Digest, Tier)>)
    ensures Good(before + [r], blocked) == if PairOf(r) in blocked then Good(before, blocked)
      else Good(before, blocked) + [r]
  {
    assert (before + [r])[..|before|] == before;
  }

  lemma BadStep(before: seq<PendingRow>, r: PendingRow, blocked: set<(Digest, Tier)>)
    ensures Bad(before + [r], blocked) == if PairOf(r) in blocked then Bad(before, blocked) + [r]
      else Bad(before, blocked)
  {
    assert (before + [r])[..|before|] == before;
  }

  lemma IdStep(rows: seq<PendingRow>, r: PendingRow)
    ensures IdList(rows + [r]) == IdList(rows) + [r.id]
  {
  }

  lemma OutcomeStep(batch: seq<PendingRow>, i: nat, blocked: set<(Digest, Tier)>, down: set<(Digest, Tier)>)
    requires i < |batch|
    ensures Good(batch[..i + 1], blocked) == if PairOf(batch[i]) in blocked then Good(batch[..i], blocked)
      else Good(batch[..i], blocked) + [batch[i]]
    ensures OutcomeOf(batch[..i + 1], blocked, down)
         == AddRow(OutcomeOf(batch[..i], blocked, down), batch[i], PairOf(batch[i]) !in blocked,
           PairOf(batch[i]) in down)
  {
    var before, r := batch[..i], batch[i];
    assert batch[..i + 1] == before + [r];
    GoodStep(before, r, blocked);
    BadStep(before, r, blocked);
    BadStep(before, r, down);
    IdStep(Good(before, blocked), r);
    IdStep(Bad(before, blocked), r);
    IdStep(Bad(before, down), r);
  }

  function Unlinked(s: State, gone: seq<PendingRow>): State {
    s.(disk := s.disk - PairsOf(gone), draining := s.draining + PairsOf(gone))
  }

  lemma UnlinkedMore(s: State, gone: seq<PendingRow>, r: PendingRow)
    ensures Next(Unlinked(s, gone), DrainUnlink(r.digest, r.tier)) == Unlinked(s, gone + [r])
  {
    assert PairsOf(gone + [r]) == PairsOf(gone) + {PairOf(r)};
  }

  function Dequeued(s: State, pairs: set<(Digest, Tier)>): State {
    s.(db := s.db.(queue := s.db.queue - pairs), committed := s.committed.(queue := s.committed.queue - pairs),
      draining := s.draining - pairs)
  }

  /** The commit of a batch is a sequence of steps of the transition system. */
  lemma {:induction false} DequeueReaches(from: State, s: State, gone: seq<PendingRow>)
    requires Reaches(from, s) && s.db == s.committed && s.written == map[] && s.demotion == NotDemoting
    requires Queued(gone) && forall r :: r in gone ==> PairOf(r) in s.draining
    ensures Reaches(from, Dequeued(s, PairsOf(gone)))
  {
    if gone == [] {
      assert Dequeued(s, PairsOf(gone)) == s;
    } else {
      var init, last := gone[..|gone| - 1], gone[|gone| - 1];
      DequeueReaches(from, s, init);
      assert PairOf(last) !in PairsOf(init);
      DequeueOne(from, s, PairsOf(init), last);
      assert PairsOf(gone) == PairsOf(init) + {PairOf(last)};
    }
  }

  lemma DequeueOne(from: State, s: State, done: set<(Digest, Tier)>, last: PendingRow)
    requires s.db == s.committed && s.written == map[] && s.demotion == NotDemoting && PairOf(last) in s.draining
    requires PairOf(last) !in done && Reaches(from, Dequeued(s, done))
    ensures Reaches(from, Dequeued(s, done + {PairOf(last)}))
  {
    ReachesStep(from, Dequeued(s, done), DrainDequeue(last.digest, last.tier));
    assert Next(Dequeued(s, done), DrainDequeue(last.digest, last.tier)) == Dequeued(s, done + {PairOf(last)});
  }

  /** The rows without those of `gone`. */
  ghost predicate Trimmed(before: seq<PendingRow>, rows: seq<PendingRow>, gone: seq<PendingRow>) {
    Queued(rows) && |rows| == |before| - |gone| && forall r :: r in rows <==> r in before && r !in gone
  }

  lemma TrimmedMore(before: seq<PendingRow>, rows: seq<PendingRow>, gone: seq<PendingRow>, i: nat)
    requires i < |gone| && Queued(gone) && gone[i] in before && Trimmed(before, rows, gone[..i])
    ensures Trimmed(before, Without(rows, gone[i].id), gone[..i + 1])
  {
    assert gone[i] !in gone[..i];
    WithoutOne(rows, gone[i]);
    assert gone[..i + 1] == gone[..i] + [gone[i]];
  }

  class DeletionQueue {
    const meta: MetadataStore
    const store: BlockStore
    /** Files whose unlink fails with an error other than an unreachable tier. */
    const stuck: set<(Digest, Tier)>
    var rows: seq<PendingRow>
    var enqueued: map<int, int>

    constructor (meta: MetadataStore, store: BlockStore, stuck: set<(Digest, Tier)>, rows: seq<PendingRow>,
                 enqueued: map<int, int>)
      ensures this.meta == meta && this.store == store && this.stuck == stuck && this.rows == rows
        && this.enqueued == enqueued
    {
      this.meta, this.store, this.stuck, this.rows, this.enqueued := meta, store, stuck, rows, enqueued;
    }

    /** The rows are the committed queue, and no transaction is open. */
    ghost predicate Valid()
      reads this, meta, store
    {
      && store.meta == meta && Queued(rows) && meta.db.queue == PairsOf(rows)
      && meta.db == meta.committed && store.written == map[] && store.demotion == NotDemoting
    }

    /** Files that cannot be unlinked now. */
    function Blocked(): set<(Digest, Tier)>
      reads this, store
    {
      store.down + stuck
    }

    /** `pending_deletions`. */
    method Pending(limit: int, tier: Option<Tier>) returns (batch: seq<PendingRow>)
      requires Queued(rows)
      ensures batch == Limit(Select(rows, tier), limit) && Queued(batch)
      ensures forall r :: r in batch ==> r in rows && (tier.None? || r.tier == tier.value)
      ensures limit >= 0 ==> |batch| <= limit
      ensures forall r :: r in rows && (tier.None? || r.tier == tier.value) && r !in batch ==>
        0 <= limit == |batch| && forall b :: b in batch ==> b.id < r.id
    {
      SelectInOrder(rows, tier);
      FirstOfTier(rows, tier, limit);
      batch := Limit(Select(rows, tier), limit);
    }

    /** `unlink_path`; a file that is already gone counts as unlinked. */
    method UnlinkFile(ghost from: State, ghost gone: seq<PendingRow>, r: PendingRow)
      returns (ok: bool, unavailable: bool)
      requires store.meta == meta && PairOf(r) in meta.committed.queue
      requires store.View() == Unlinked(from, gone) && Reaches(from, store.View())
      modifies store`disk, store`draining
      ensures (ok <==> PairOf(r) !in Blocked()) && (unavailable <==> PairOf(r) in store.down)
      ensures store.View() == Unlinked(from, if ok then gone + [r] else gone) && Reaches(from, store.View())
    {
      if PairOf(r) in store.down {
        return false, true;
      }
      if PairOf(r) in stuck {
        return false, false;
      }
      ReachesStep(from, store.View(), DrainUnlink(r.digest, r.tier));
      UnlinkedMore(from, gone, r);
      store.disk := store.disk - {PairOf(r)};
      store.draining := store.draining + {PairOf(r)};
      return true, false;
    }

    /** One row of the loop below. */
    method DrainOne(ghost from: State, ghost gone: seq<PendingRow>, r: PendingRow, o: Outcome) returns (after: Outcome)
      requires store.meta == meta && PairOf(r) in meta.committed.queue
      requires store.View() == Unlinked(from, gone) && Reaches(from, store.View())
      modifies store`disk, store`draining
      ensures after == AddRow(o, r, PairOf(r) !in Blocked(), PairOf(r) in store.down)
      ensures store.View() == Unlinked(from, if PairOf(r) in Blocked() then gone else gone + [r])
        && Reaches(from, store.View())
    {
      var ok, down := UnlinkFile(from, gone, r);
      after := o;
      if ok {
        after := after.(removed := after.removed + [r.id]);
      } else {
        after := after.(deferred := after.deferred + [r.id]);
      }
      if down {
        after := after.(unavailable := after.unavailable + [r.id]);
      }
    }

    /** `drain_pending_block_files`. */
    method DrainFiles(batch: seq<PendingRow>) returns (o: Outcome)
      requires store.meta == meta && forall r :: r in batch ==> PairOf(r) in meta.committed.queue
      modifies store`disk, store`draining
      ensures o == OutcomeOf(batch, Blocked(), store.down)
      ensures store.View() == Unlinked(old(store.View()), Good(batch, Blocked()))
        && Reaches(old(store.View()), store.View())
    {
      o := Outcome([], [], []);
      ghost var from := store.View();
      ReachesSelf(from);
      assert PairsOf([]) == {};
      for i := 0 to |batch|
        invariant o == OutcomeOf(batch[..i], Blocked(), store.down)
        invariant store.View() == Unlinked(from, Good(batch[..i], Blocked())) && Reaches(from, store.View())
      {
        OutcomeStep(batch, i, Blocked(), store.down);
        o := DrainOne(from, Good(batch[..i], Blocked()), batch[i], o);
      }
      assert batch[..|batch|] == batch;
    }

    /** `remove_pending_deletions`. */
    method RemoveRows(ghost gone: seq<PendingRow>, removed: seq<int>)
      requires Queued(rows) && Queued(gone) && (forall r :: r in gone ==> r in rows) && removed == IdList(gone)
      modifies this`rows
      ensures Queued(rows) && |rows| == |old(rows)| - |removed|
      ensures forall r :: r in rows <==> r in old(rows) && r !in gone
    {
      for i := 0 to |removed|
        invariant Trimmed(old(rows), rows, gone[..i])
      {
        TrimmedMore(old(rows), rows, gone, i);
        rows := Without(rows, removed[i]);
      }
      assert gone[..|gone|] == gone;
    }

    /** The transaction after a batch: rows of unlinked files go, and the others get a new timestamp. */
    method CommitBatch(ghost from: State, ghost gone: seq<PendingRow>, removed: seq<int>, deferred: seq<int>, now: int)
      requires Valid() && Queued(gone) && (forall r :: r in gone ==> r in rows && PairOf(r) in store.draining)
      requires removed == IdList(gone) && Reaches(from, store.View())
      modifies meta, store`draining, this`rows, this`enqueued
      ensures Valid() && |rows| == |old(rows)| - |removed|
      ensures forall r :: r in rows <==> r in old(rows) && r !in gone
      ensures enqueued == map id | id in old(enqueued) :: if id in deferred then now else old(enqueued)[id]
      ensures store.View() == Dequeued(old(store.View()), PairsOf(gone)) && Reaches(from, store.View())
    {
      DequeueReaches(from, store.View(), gone);
      RemoveRows(gone, removed);
      enqueued := map id | id in enqueued :: if id in deferred then now else enqueued[id];
      RemovedPairs(old(rows), rows, gone);
      meta.db := meta.db.(queue := set r | r in rows :: PairOf(r));
      meta.committed := meta.db;
      store.draining := store.draining - PairsOf(gone);
    }

    /** A nonempty batch: unlink, commit. */
    method DrainSelected(ghost from: State, batch: seq<PendingRow>, now: int) returns (count: nat)
      requires Valid() && Reaches(from, store.View()) && Queued(batch) && forall r :: r in batch ==> r in rows
      modifies meta, store`disk, store`draining, this`rows, this`enqueued
      ensures Valid() && Reaches(from, store.View())
      ensures count == |Good(batch, Blocked())| && |rows| == |old(rows)| - count
      ensures forall r :: r in rows <==> r in old(rows) && r !in Good(batch, Blocked())
      ensures store.disk == old(store.disk) - PairsOf(Good(batch, Blocked()))
    {
      ghost var at, gone := store.View(), Good(batch, Blocked());
      GoodInOrder(batch, Blocked());
      var o := DrainFiles(batch);
      ReachesThen(from, at, store.View());
      CommitBatch(from, gone, o.removed, o.deferred, now);
      return |o.removed|;
    }

    /** One batch: read, unlink, commit. */
    method DrainBatch(ghost from: State, limit: int, tier: Option<Tier>, now: int) returns (count: nat)
      requires Valid() && Reaches(from, store.View())
      modifies meta, store`disk, store`draining, this`rows, this`enqueued
      ensures Valid() && Reaches(from, store.View()) && Blocked() == old(Blocked())
      ensures var gone := Good(Limit(Select(old(rows), tier), limit), Blocked());
        && count == |gone| && |rows| == |old(rows)| - count
        && (forall r :: r in rows <==> r in old(rows) && r !in gone)
        && store.disk == old(store.disk) - PairsOf(gone)
    {
      var batch := Pending(limit, tier);
      if batch == [] {
        assert PairsOf(Good(batch, Blocked())) == {};
        return 0;
      }
      count := DrainSelected(from, batch, now);
    }

    /** `drain_pending_deletions`.  It removes rows of the chosen tier whose files are gone and keeps every row
        whose unlink failed; it unlinks the files of the removed rows only.  Without a budget it stops only when
        nothing in the next batch can be unlinked, so when fewer rows fail than a batch holds, the rest of the
        tier's queue is empty. */
    method DrainPendingDeletions(batchSize: int, maxDeletions: Option<int>, tier: Option<Tier>, now: int)
      returns (removed: nat)
      requires Valid()
      modifies meta, store`disk, store`draining, this`rows, this`enqueued
      ensures Valid() && Blocked() == old(Blocked())
      ensures Drained(old(rows), rows, tier, Blocked(), old(store.disk), store.disk) && removed == |old(rows)| - |rows|
      ensures maxDeletions.Some? && batchSize >= 0 ==> removed <= Max(maxDeletions.value, 0)
      ensures maxDeletions.None? ==> NoProgress(rows, tier, batchSize, Blocked())
      ensures maxDeletions.Some? && removed < maxDeletions.value ==>
        NoProgress(rows, tier, Min(batchSize, maxDeletions.value - removed), Blocked())
      ensures maxDeletions.None? && |Failing(old(rows), tier, Blocked())| < batchSize ==> forall r ::
        r in rows && (tier.None? || r.tier == tier.value) ==> PairOf(r) in Blocked()
      ensures Reaches(old(store.View()), store.View())
    {
      ghost var from, first := store.View(), rows;
      ReachesSelf(from);
      removed := 0;
      NothingDrained(rows, tier, Blocked(), store.disk);
      while true
        invariant Valid() && Blocked() == old(Blocked()) && Reaches(from, store.View())
        invariant Drained(first, rows, tier, Blocked(), from.disk, store.disk) && removed == |first| - |rows|
        invariant maxDeletions.Some? && batchSize >= 0 ==> removed <= Max(maxDeletions.value, 0)
        decreases |rows|
      {
        if maxDeletions.Some? && removed >= maxDeletions.value {
          return;
        }
        var limit := if maxDeletions.Some? then Min(batchSize, maxDeletions.value - removed) else batchSize;
        var count := DrainStep(from, first, limit, tier, now);
        if count == 0 {
          if maxDeletions.None? {
            FewFailures(first, rows, tier, Blocked(), batchSize);
          }
          return;
        }
        removed := removed + count;
      }
    }

    /** A batch of the loop, seen from where the loop began. */
    method DrainStep(ghost from: State, ghost first: seq<PendingRow>, limit: int, tier: Option<Tier>, now: int)
      returns (count: nat)
      requires Valid() && Reaches(from, store.View()) && Drained(first, rows, tier, Blocked(), from.disk, store.disk)
      modifies meta, store`disk, store`draining, this`rows, this`enqueued
      ensures Valid() && Reaches(from, store.View()) && Blocked() == old(Blocked())
      ensures Drained(first, rows, tier, Blocked(), from.disk, store.disk) && |rows| == |old(rows)| - count
      ensures limit >= 0 ==> count <= limit
      ensures count == 0 ==> NoProgress(rows, tier, limit, Blocked())
    {
      ghost var before, disk := rows, store.disk;
      count := DrainBatch(from, limit, tier, now);
      DrainedMore(first, before, rows, tier, limit, Blocked(), from.disk, disk, store.disk);
    }
  }

  /** From `first` to `rows` only unlinkable rows of the tier went, and exactly their files. */
  ghost predicate Drained(first: seq<PendingRow>, rows: seq<PendingRow>, tier: Option<Tier>,
                          blocked: set<(Digest, Tier)>, firstDisk: Disk, disk: Disk)
  {
    && (forall r :: r in rows ==> r in first)
    && (forall r :: r in first && r !in rows ==>
          (tier.None? || r.tier == tier.value) && (r.digest, r.tier) !in blocked)
    && disk == firstDisk - (PairsOf(first) - PairsOf(rows))
  }

  /** Nothing in the next batch can be unlinked. */
  ghost predicate NoProgress(rows: seq<PendingRow>, tier: Option<Tier>, limit: int, blocked: set<(Digest, Tier)>) {
    forall r :: r in Limit(Select(rows, tier), limit) ==> PairOf(r) in blocked
  }

  function Failing(rows: seq<PendingRow>, tier: Option<Tier>, blocked: set<(Digest, Tier)>): set<PendingRow> {
    set r | r in rows && OfTier(r, tier) && PairOf(r) in blocked
  }

  lemma NothingDrained(rows: seq<PendingRow>, tier: Option<Tier>, blocked: set<(Digest, Tier)>, disk: Disk)
    ensures Drained(rows, rows, tier, blocked, disk, disk)
  {
    assert PairsOf(rows) - PairsOf(rows) == {};
  }

  lemma DrainedMore(first: seq<PendingRow>, before: seq<PendingRow>, rows: seq<PendingRow>, tier: Option<Tier>,
                    limit: int, blocked: set<(Digest, Tier)>,
                    firstDisk: Disk, beforeDisk: Disk, disk: Disk)
    requires Queued(before) && Drained(first, before, tier, blocked, firstDisk, beforeDisk)
    requires forall r :: r in rows <==> r in before && r !in Good(Limit(Select(before, tier), limit), blocked)
    requires disk == beforeDisk - PairsOf(Good(Limit(Select(before, tier), limit), blocked))
    requires |rows| == |before| - |Good(Limit(Select(before, tier), limit), blocked)|
    ensures Drained(first, rows, tier, blocked, firstDisk, disk)
    ensures limit >= 0 ==> |before| - |rows| <= limit
    ensures |before| == |rows| && Queued(rows) ==> NoProgress(rows, tier, limit, blocked)
  {
    var batch := Limit(Select(before, tier), limit);
    var gone := Good(batch, blocked);
    RemovedPairs(before, rows, gone);
    SplitPairs(first, before, rows, gone);
    if gone == [] && Queued(rows) {
      SameRows(before, rows);
      forall r | r in batch ensures PairOf(r) in blocked {
        assert r !in gone;
      }
    }
  }

  /** Sequences of queued rows with the same members are the same. */
  lemma {:induction false} SameRows(a: seq<PendingRow>, b: seq<PendingRow>)
    requires Queued(a) && Queued(b) && |a| == |b| && forall r :: r in a <==> r in b
    ensures a == b
  {
    if a != [] {
      assert a[0] in b && b[0] in a;
      FirstOf(a);
      FirstOf(b);
      SameFirst(a, b);
      forall r ensures r in a[1..] <==> r in b[1..] {
        assert r in a <==> r == a[0] || r in a[1..];
        assert r in b <==> r == b[0] || r in b[1..];
      }
      SameRows(a[1..], b[1..]);
    }
  }

  lemma SameFirst(a: seq<PendingRow>, b: seq<PendingRow>)
    requires a != [] && b != [] && a[0] in b && b[0] in a
    requires (forall r :: r in a[1..] ==> Follows(r, a[0])) && forall r :: r in b[1..] ==> Follows(r, b[0])
    ensures a[0] == b[0]
  {
    assert a == [a[0]] + a[1..];
    assert b == [b[0]] + b[1..];
  }

  lemma SplitPairs(first: seq<PendingRow>, before: seq<PendingRow>, after: seq<PendingRow>, gone: seq<PendingRow>)
    requires PairsOf(after) == PairsOf(before) - PairsOf(gone) && forall r :: r in gone ==> r in before
    requires forall r :: r in before ==> r in first
    ensures (PairsOf(first) - PairsOf(before)) + PairsOf(gone) == PairsOf(first) - PairsOf(after)
  {
  }

  function SetOf(rows: seq<PendingRow>): set<PendingRow> {
    set r | r in rows
  }

  lemma {:induction false} DistinctRows(rows: seq<PendingRow>)
    requires Queued(rows)
    ensures |SetOf(rows)| == |rows|
  {
    if rows != [] {
      FirstOf(rows);
      DistinctRows(rows[1..]);
      FirstInSet(rows[0], rows[1..]);
      assert rows == [rows[0]] + rows[1..];
    }
  }

  lemma FirstInSet(first: PendingRow, rest: seq<PendingRow>)
    requires first !in rest
    ensures |SetOf([first] + rest)| == |SetOf(rest)| + 1
  {
    assert SetOf([first] + rest) == {first} + SetOf(rest);
  }

  lemma Smaller(a: set<PendingRow>, b: set<PendingRow>)
    requires a <= b
    ensures |a| <= |b|
  {
    assert b == a + (b - a);
  }

  lemma BlockedPrefix(rows: seq<PendingRow>, tier: Option<Tier>, blocked: set<(Digest, Tier)>, n: nat)
    requires Queued(rows) && n < |Select(rows, tier)| && NoProgress(rows, tier, n, blocked)
    ensures n <= |Failing(rows, tier, blocked)|
  {
    var prefix := Select(rows, tier)[..n];
    SelectInOrder(rows, tier);
    DistinctRows(prefix);
    forall r | r in prefix ensures r in Failing(rows, tier, blocked) {
      assert r in Select(rows, tier);
    }
    Smaller(SetOf(prefix), Failing(rows, tier, blocked));
  }

  /** A batch without progress that is longer than the number of failing rows is the whole queue. */
  lemma FewFailures(first: seq<PendingRow>, rows: seq<PendingRow>, tier: Option<Tier>, blocked: set<(Digest, Tier)>,
                    batchSize: int)
    requires Queued(rows) && (forall r :: r in rows ==> r in first) && NoProgress(rows, tier, batchSize, blocked)
    ensures |Failing(first, tier, blocked)| < batchSize ==> forall r ::
      r in rows && OfTier(r, tier) ==> PairOf(r) in blocked
  {
    if |Failing(first, tier, blocked)| < batchSize {
      Smaller(Failing(rows, tier, blocked), Failing(first, tier, blocked));
      if batchSize < |Select(rows, tier)| {
        BlockedPrefix(rows, tier, blocked, batchSize);
        assert false;
      }
    }
  }

  lemma RemovedPairs(rows: seq<PendingRow>, after: seq<PendingRow>, gone: seq<PendingRow>)
    requires Queued(rows) && (forall r :: r in gone ==> r in rows) && forall r :: r in after <==>
      r in rows && r !in gone
    ensures PairsOf(after) == PairsOf(rows) - PairsOf(gone)
  {
    forall r | r in after ensures PairOf(r) !in PairsOf(gone) {
      forall g | g in gone ensures PairOf(g) != PairOf(r) {
        PairOnce(rows, g, r);
      }
    }
  }

  lemma PairOnce(rows: seq<PendingRow>, a: PendingRow, b: PendingRow)
    requires Queued(rows) && a in rows && b in rows && a != b
    ensures PairOf(a) != PairOf(b)
  {
  }
}
