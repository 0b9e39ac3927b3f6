/** The loop that moves blocks from the hot tier to the cold one until the hot tier is small enough. */
module DemotionLoop {
  import opened Types
  import opened Schema
  import opened ChunkTable
  import opened Tiering
  import opened Metadata
  import opened BlockStore

  datatype Policy = Policy(hotMax: int, hotMin: int, protectedPrefix: int, minHotAge: int)

  /** Access statistics of the `blocks` table after the deferred ones were flushed. */
  datatype Access = Access(atime: int, readCount: int)

  const NO_CHUNK := 2147483647

  predicate IsHot(row: BlockRow) { row.storage == Tiered && row.hot }

  function HotSet(blocks: map<Digest, BlockRow>): set<Digest> {
    set d | d in blocks && IsHot(blocks[d])
  }

  ghost function Sum(blocks: map<Digest, BlockRow>, ds: set<Digest>): int
    requires ds <= blocks.Keys
  {
    if ds == {} then 0
    else
      var d :| d in ds;
      blocks[d].storedSize + Sum(blocks, ds - {d})
  }

  /** The order of summation does not matter. */
  lemma {:induction false} SumWithout(blocks: map<Digest, BlockRow>, ds: set<Digest>, d: Digest)
    requires ds <= blocks.Keys && d in ds
    ensures Sum(blocks, ds) == blocks[d].storedSize + Sum(blocks, ds - {d})
    decreases |ds|
  {
    var e :| e in ds && Sum(blocks, ds) == blocks[e].storedSize + Sum(blocks, ds - {e});
    if e != d {
      SumWithout(blocks, ds - {e}, d);
      SumWithout(blocks, ds - {d}, e);
      assert ds - {e} - {d} == ds - {d} - {e};
    }
  }

  lemma {:induction false} SumSame(a: map<Digest, BlockRow>, b: map<Digest, BlockRow>, ds: set<Digest>)
    requires ds <= a.Keys && ds <= b.Keys && forall d :: d in ds ==> a[d].storedSize == b[d].storedSize
    ensures Sum(a, ds) == Sum(b, ds)
    decreases |ds|
  {
    if ds != {} {
      var d :| d in ds;
      SumWithout(a, ds, d);
      SumWithout(b, ds, d);
      SumSame(a, b, ds - {d});
    }
  }

  /** Stored bytes on the hot tier according to the rows. */
  ghost function HotSum(blocks: map<Digest, BlockRow>): int {
    Sum(blocks, HotSet(blocks))
  }

  /** Demoting one block takes its stored size off the sum. */
  lemma HotSumDemoted(blocks: map<Digest, BlockRow>, d: Digest)
    requires d in HotSet(blocks)
    ensures HotSum(blocks[d := Demoted(blocks[d])]) == HotSum(blocks) - blocks[d].storedSize
    ensures HotSet(blocks[d := Demoted(blocks[d])]) == HotSet(blocks) - {d}
  {
    var after := blocks[d := Demoted(blocks[d])];
    assert HotSet(after) == HotSet(blocks) - {d};
    SumWithout(blocks, HotSet(blocks), d);
    SumSame(blocks, after, HotSet(after));
  }

  // ----- candidates -----

  /** COALESCE(MIN(chunk_index), 2147483647) over the chunks that name the block. */
  ghost predicate IsFirstIndex(chunks: Chunks, d: Digest, n: int) {
    if Naming(chunks, d) == {} then n == NO_CHUNK
    else (exists k :: k in Naming(chunks, d) && k.index == n) && forall k :: k in Naming(chunks, d) ==> n <= k.index
  }

  ghost predicate Unprotected(chunks: Chunks, d: Digest, prefix: int) {
    forall k :: k in Naming(chunks, d) ==> k.index >= prefix
  }

  ghost predicate Eligible(db: Database, access: map<Digest, Access>, d: Digest, prefix: int, maxAtime: int) {
    && d in db.blocks && IsHot(db.blocks[d])
    && d in access && access[d].atime <= maxAtime && Unprotected(db.chunks, d, prefix)
  }

  /** ORDER BY read_count ASC, first_chunk_index DESC, atime_ns ASC. */
  predicate Before(a: Access, aFirst: int, b: Access, bFirst: int) {
    || a.readCount < b.readCount
    || (a.readCount == b.readCount && aFirst > bFirst)
    || (a.readCount == b.readCount && aFirst == bFirst && a.atime < b.atime)
  }

  ghost predicate IsBest(db: Database, access: map<Digest, Access>, d: Digest, prefix: int, maxAtime: int) {
    && Eligible(db, access, d, prefix, maxAtime)
    && forall e, m, n ::
         Eligible(db, access, e, prefix, maxAtime) && IsFirstIndex(db.chunks, e, m) && IsFirstIndex(db.chunks, d, n)
         ==> !Before(access[e], m, access[d], n)
  }

  /** The WHERE clause by its columns. */
  ghost predicate MayMove(db: Database, access: map<Digest, Access>, d: Digest, prefix: int, maxAtime: int) {
    && d in db.blocks && db.blocks[d].storage == Tiered && db.blocks[d].hot
    && d in access && access[d].atime <= maxAtime
    && forall k :: k in db.chunks && db.chunks[k].digest == d ==> k.index >= prefix
  }

  lemma EligibleExactly(db: Database, access: map<Digest, Access>, d: Digest, prefix: int, maxAtime: int)
    ensures Eligible(db, access, d, prefix, maxAtime) <==> MayMove(db, access, d, prefix, maxAtime)
  {
    assert forall k :: k in Naming(db.chunks, d) <==> k in db.chunks && db.chunks[k].digest == d;
  }

  /** The ORDER BY clause: no block that may move was read less often; of those read as often, none starts later in its
      files; and of those that start there too, none was used longer ago. */
  lemma BestExactly(db: Database, access: map<Digest, Access>, d: Digest, prefix: int, maxAtime: int, e: Digest, m: int,
                    n: int)
    requires IsBest(db, access, d, prefix, maxAtime) && MayMove(db, access, e, prefix, maxAtime)
    requires IsFirstIndex(db.chunks, d, m) && IsFirstIndex(db.chunks, e, n)
    ensures d in access && e in access && access[d].readCount <= access[e].readCount
    ensures access[d].readCount == access[e].readCount ==> m >= n
    ensures access[d].readCount == access[e].readCount && m == n ==> access[d].atime <= access[e].atime
  {
    EligibleExactly(db, access, e, prefix, maxAtime);
    assert !Before(access[e], n, access[d], m);
  }

  lemma BestForAll(db: Database, access: map<Digest, Access>, d: Digest, prefix: int, maxAtime: int)
    requires IsBest(db, access, d, prefix, maxAtime)
    ensures MayMove(db, access, d, prefix, maxAtime)
    ensures forall e, m, n ::
      MayMove(db, access, e, prefix, maxAtime) && IsFirstIndex(db.chunks, d, m) && IsFirstIndex(db.chunks, e, n) ==>
        && access[d].readCount <= access[e].readCount && (access[d].readCount == access[e].readCount ==> m >= n)
        && (access[d].readCount == access[e].readCount && m == n ==> access[d].atime <= access[e].atime)
  {
    EligibleExactly(db, access, d, prefix, maxAtime);
    forall e, m, n |
      MayMove(db, access, e, prefix, maxAtime) && IsFirstIndex(db.chunks, d, m) && IsFirstIndex(db.chunks, e, n)
      ensures access[d].readCount <= access[e].readCount
      ensures access[d].readCount == access[e].readCount ==> m >= n
      ensures access[d].readCount == access[e].readCount && m == n ==> access[d].atime <= access[e].atime
    {
      BestExactly(db, access, d, prefix, maxAtime, e, m, n);
    }
  }

  lemma FirstIndexUnique(chunks: Chunks, d: Digest, m: int, n: int)
    requires IsFirstIndex(chunks, d, m) && IsFirstIndex(chunks, d, n)
    ensures m == n
  {
  }

  // ----- what a pass does -----

  function DiskAfter(disk: Disk, row: BlockRow, d: Digest): Disk {
    Unlink(if row.cold then disk else CopyAtomic(disk, d, Hot, Cold), d, Hot)
  }

  /** Copy to the cold tier unless the row says it is there, unlink from the hot tier, update the row. */
  function AfterDemotion(s: State, d: Digest): State {
    if d in s.db.blocks
    then s.(disk := DiskAfter(s.disk, s.db.blocks[d], d),
      db := s.db.(blocks := s.db.blocks[d := Demoted(s.db.blocks[d])]))
    else s
  }

  function AfterMoves(s: State, moved: seq<Digest>): State {
    if moved == [] then s else AfterDemotion(AfterMoves(s, moved[..|moved| - 1]), moved[|moved| - 1])
  }

  /** The i-th block moved was the first candidate in order at its time, and the hot tier was still too large. */
  ghost predicate PickedAt(s: State, moved: seq<Digest>, i: nat, access: map<Digest, Access>, policy: Policy,
                           clock: nat -> int)
    requires i < |moved|
  {
    var at := AfterMoves(s, moved[..i]);
    IsBest(at.db, access, moved[i], policy.protectedPrefix, clock(i) - policy.minHotAge)
      && HotSum(at.db.blocks) > policy.hotMin
  }

  ghost predicate IsTrace(s: State, moved: seq<Digest>, access: map<Digest, Access>, policy: Policy,
                          clock: nat -> int)
  {
    forall i :: 0 <= i < |moved| ==> PickedAt(s, moved, i, access, policy, clock)
  }

  lemma TraceMore(s: State, moved: seq<Digest>, access: map<Digest, Access>, policy: Policy, clock: nat -> int,
                  d: Digest)
    requires IsTrace(s, moved, access, policy, clock)
    requires IsBest(AfterMoves(s, moved).db, access, d, policy.protectedPrefix, clock(|moved|) - policy.minHotAge)
    requires HotSum(AfterMoves(s, moved).db.blocks) > policy.hotMin
    ensures IsTrace(s, moved + [d], access, policy, clock)
    ensures AfterMoves(s, moved + [d]) == AfterDemotion(AfterMoves(s, moved), d)
  {
    var more := moved + [d];
    assert more[..|moved|] == moved;
    forall i | 0 <= i < |more| ensures PickedAt(s, more, i, access, policy, clock) {
      if i < |moved| {
        assert more[..i] == moved[..i];
        assert PickedAt(s, moved, i, access, policy, clock);
      }
    }
  }

  lemma TraceLess(s: State, moved: seq<Digest>, access: map<Digest, Access>, policy: Policy, clock: nat -> int)
    requires IsTrace(s, moved, access, policy, clock) && moved != []
    ensures IsTrace(s, moved[..|moved| - 1], access, policy, clock)
    ensures PickedAt(s, moved, |moved| - 1, access, policy, clock)
  {
    var less := moved[..|moved| - 1];
    forall i | 0 <= i < |less| ensures PickedAt(s, less, i, access, policy, clock) {
      assert PickedAt(s, moved, i, access, policy, clock);
      assert less[..i] == moved[..i];
    }
  }

  /** Copy, unlink and row update are three steps of the transition system. */
  lemma DemotionReaches(s: State, d: Digest)
    requires s.demotion == NotDemoting && d in s.db.blocks && IsHot(s.db.blocks[d])
    ensures Reaches(s, AfterDemotion(s, d))
  {
    ReachesSelf(s);
    ReachesStep(s, s, DemoteCopy(d));
    var copied := Next(s, DemoteCopy(d));
    ReachesStep(s, copied, DemoteUnlink(d));
    ReachesStep(s, Next(copied, DemoteUnlink(d)), DemoteRow(d));
  }

  /** Every pass is a run of the transition system. */
  /** The moves so far and the state they lead to. */
  ghost predicate Traced(s: State, at: State, moved: seq<Digest>, access: map<Digest, Access>, policy: Policy,
                         clock: nat -> int)
  {
    at == AfterMoves(s, moved) && IsTrace(s, moved, access, policy, clock)
  }

  lemma TracedMore(s: State, moved: seq<Digest>, access: map<Digest, Access>, policy: Policy, clock: nat -> int,
                   d: Digest)
    requires IsTrace(s, moved, access, policy, clock)
    requires IsBest(AfterMoves(s, moved).db, access, d, policy.protectedPrefix, clock(|moved|) - policy.minHotAge)
    requires HotSum(AfterMoves(s, moved).db.blocks) > policy.hotMin
    ensures Traced(s, AfterDemotion(AfterMoves(s, moved), d), moved + [d], access, policy, clock)
  {
    TraceMore(s, moved, access, policy, clock, d);
  }

  lemma {:induction false} TraceReaches(s: State, moved: seq<Digest>, access: map<Digest, Access>, policy: Policy,
                                        clock: nat -> int)
    requires IsTrace(s, moved, access, policy, clock) && s.demotion == NotDemoting
    ensures Reaches(s, AfterMoves(s, moved)) && AfterMoves(s, moved).demotion == NotDemoting
    decreases |moved|
  {
    if moved == [] {
      ReachesSelf(s);
    } else {
      TraceLess(s, moved, access, policy, clock);
      TraceReaches(s, moved[..|moved| - 1], access, policy, clock);
      var at := AfterMoves(s, moved[..|moved| - 1]);
      DemotionReaches(at, moved[|moved| - 1]);
      ReachesThen(s, at, AfterMoves(s, moved));
    }
  }

  function SetOf(moved: seq<Digest>): set<Digest> {
    set d | d in moved
  }

  function BlocksMoved(blocks: map<Digest, BlockRow>, moved: set<Digest>): map<Digest, BlockRow> {
    map d | d in blocks ::
      if d in moved then blocks[d].(hot := false, cold := true, preferred := Some(Cold)) else blocks[d]
  }

  /** Hot files of moved blocks are gone, cold ones were copied where the row had none, nothing else changed. */
  ghost predicate FilesMoved(before: Disk, blocks: map<Digest, BlockRow>, moved: set<Digest>, after: Disk) {
    && (forall d :: (d, Hot) in after <==> (d, Hot) in before && d !in moved)
    && (forall d :: (d, Cold) in after <==>
         (d, Cold) in before || (d in moved && d in blocks && !blocks[d].cold && (d, Hot) in before))
    && (forall d, t :: (d, t) in after && (d, t) in before ==> after[(d, t)] == before[(d, t)])
    && (forall d ::
         (d, Cold) in after && (d, Cold) !in before && (d, Hot) in before ==> after[(d, Cold)] == before[(d, Hot)])
  }

  /** The rows and files a pass leaves: exactly the moved blocks went from hot to cold. */
  ghost predicate HasMoved(s: State, moved: set<Digest>, after: State) {
    && moved <= HotSet(s.db.blocks) && HotSet(after.db.blocks) == HotSet(s.db.blocks) - moved
    && after.db == s.db.(blocks := BlocksMoved(s.db.blocks, moved))
    && FilesMoved(s.disk, s.db.blocks, moved, after.disk)
  }

  lemma NothingMoved(s: State)
    ensures HasMoved(s, {}, s)
  {
    assert BlocksMoved(s.db.blocks, {}) == s.db.blocks;
  }

  lemma FilesMovedMore(first: Disk, blocks: map<Digest, BlockRow>, moved: set<Digest>, disk: Disk, d: Digest)
    requires FilesMoved(first, blocks, moved, disk) && d in blocks && d !in moved
    ensures FilesMoved(first, blocks, moved + {d}, DiskAfter(disk, blocks[d], d))
  {
  }

  lemma MovedMore(s: State, moved: set<Digest>, at: State, d: Digest)
    requires HasMoved(s, moved, at) && d in at.db.blocks && IsHot(at.db.blocks[d])
    ensures HasMoved(s, moved + {d}, AfterDemotion(at, d)) && d !in moved
  {
    assert d in HotSet(at.db.blocks);
    HotSumDemoted(at.db.blocks, d);
    assert at.db.blocks[d := Demoted(at.db.blocks[d])] == BlocksMoved(s.db.blocks, moved + {d});
    FilesMovedMore(s.disk, s.db.blocks, moved, at.disk, d);
  }

  /** Each block was hot when its turn came. */
  ghost predicate HotInTurn(s: State, moved: seq<Digest>)
    decreases |moved|
  {
    moved == [] || (HotInTurn(s, moved[..|moved| - 1])
      && moved[|moved| - 1] in HotSet(AfterMoves(s, moved[..|moved| - 1]).db.blocks))
  }

  lemma {:induction false} TraceIsHot(s: State, moved: seq<Digest>, access: map<Digest, Access>, policy: Policy,
                                      clock: nat -> int)
    requires IsTrace(s, moved, access, policy, clock)
    ensures HotInTurn(s, moved)
    decreases |moved|
  {
    if moved != [] {
      TraceLess(s, moved, access, policy, clock);
      TraceIsHot(s, moved[..|moved| - 1], access, policy, clock);
    }
  }

  lemma LastOfSet(moved: seq<Digest>)
    requires moved != []
    ensures SetOf(moved) == SetOf(moved[..|moved| - 1]) + {moved[|moved| - 1]}
  {
  }

  lemma HotMovesMore(s: State, moved: seq<Digest>)
    requires moved != [] && HotInTurn(s, moved)
    requires HasMoved(s, SetOf(moved[..|moved| - 1]), AfterMoves(s, moved[..|moved| - 1]))
    requires |SetOf(moved[..|moved| - 1])| == |moved| - 1
    ensures HasMoved(s, SetOf(moved), AfterMoves(s, moved)) && |SetOf(moved)| == |moved|
  {
    var init, d := moved[..|moved| - 1], moved[|moved| - 1];
    MovedMore(s, SetOf(init), AfterMoves(s, init), d);
    LastOfSet(moved);
  }

  lemma {:induction false} HotMoves(s: State, moved: seq<Digest>)
    requires HotInTurn(s, moved)
    ensures HasMoved(s, SetOf(moved), AfterMoves(s, moved)) && |SetOf(moved)| == |moved|
    decreases |moved|
  {
    if moved == [] {
      assert SetOf(moved) == {};
      NothingMoved(s);
    } else {
      HotMoves(s, moved[..|moved| - 1]);
      HotMovesMore(s, moved);
    }
  }

  lemma TraceMoves(s: State, moved: seq<Digest>, access: map<Digest, Access>, policy: Policy, clock: nat -> int)
    requires IsTrace(s, moved, access, policy, clock)
    ensures HasMoved(s, SetOf(moved), AfterMoves(s, moved)) && |SetOf(moved)| == |moved|
  {
    TraceIsHot(s, moved, access, policy, clock);
    HotMoves(s, moved);
  }

  /** The block was unprotected, and old enough at the time the i-th pass read. */
  ghost predicate WasAllowed(db: Database, access: map<Digest, Access>, policy: Policy, now: int, d: Digest) {
    d in access && access[d].atime <= now - policy.minHotAge && Unprotected(db.chunks, d, policy.protectedPrefix)
  }

  /** What a trace means for the tables and files: |moved| different blocks, hot before and cold after, each unprotected
      and old enough, and nothing else. */
  lemma TraceEffect(s: State, moved: seq<Digest>, access: map<Digest, Access>, policy: Policy, clock: nat -> int)
    requires IsTrace(s, moved, access, policy, clock)
    ensures HasMoved(s, SetOf(moved), AfterMoves(s, moved)) && |SetOf(moved)| == |moved|
    ensures forall i :: 0 <= i < |moved| ==> WasAllowed(s.db, access, policy, clock(i), moved[i])
  {
    TraceMoves(s, moved, access, policy, clock);
    forall i | 0 <= i < |moved| ensures WasAllowed(s.db, access, policy, clock(i), moved[i]) {
      assert PickedAt(s, moved, i, access, policy, clock);
      PrefixTrace(s, moved, i, access, policy, clock);
      TraceMoves(s, moved[..i], access, policy, clock);
    }
  }

  lemma PrefixTrace(s: State, moved: seq<Digest>, n: nat, access: map<Digest, Access>, policy: Policy,
                    clock: nat -> int)
    requires IsTrace(s, moved, access, policy, clock) && n <= |moved|
    ensures IsTrace(s, moved[..n], access, policy, clock)
  {
    forall i | 0 <= i < n ensures PickedAt(s, moved[..n], i, access, policy, clock) {
      assert PickedAt(s, moved, i, access, policy, clock);
      assert moved[..n][..i] == moved[..i];
    }
  }

  class Demoter {
    const meta: MetadataStore
    const store: BlockStore
    const policy: Policy
    const access: map<Digest, Access>
    var requested: bool

    constructor (meta: MetadataStore, store: BlockStore, policy: Policy, access: map<Digest, Access>)
      ensures this.meta == meta && this.store == store && this.policy == policy && this.access == access && !requested
    {
      this.meta, this.store, this.policy, this.access, this.requested := meta, store, policy, access, false;
    }

    /** Rows have statistics, and no demotion is half done. */
    ghost predicate Valid()
      reads this, meta, store
    {
      store.meta == meta && meta.db.blocks.Keys <= access.Keys && store.demotion == NotDemoting
    }

    /** `hot_tier_stored_size`. */
    method HotTierStoredSize() returns (total: int)
      ensures total == HotSum(meta.db.blocks)
    {
      total := 0;
      var blocks := meta.db.blocks;
      var todo := HotSet(blocks);
      while todo != {}
        invariant todo <= HotSet(blocks)
        invariant total + Sum(blocks, todo) == HotSum(blocks)
        decreases todo
      {
        var d :| d in todo;
        SumWithout(blocks, todo, d);
        total := total + blocks[d].storedSize;
        todo := todo - {d};
      }
    }

    method FirstIndex(d: Digest) returns (n: int)
      ensures IsFirstIndex(meta.db.chunks, d, n)
    {
      var todo := Naming(meta.db.chunks, d);
      if todo == {} {
        return NO_CHUNK;
      }
      var k :| k in todo;
      n := k.index;
      ghost var found := k;
      while todo != {}
        invariant todo <= Naming(meta.db.chunks, d)
        invariant found in Naming(meta.db.chunks, d) && found.index == n
        invariant forall j :: j in Naming(meta.db.chunks, d) - todo ==> n <= j.index
        decreases todo
      {
        var j :| j in todo;
        if j.index < n {
          n := j.index;
          found := j;
        }
        todo := todo - {j};
      }
    }

    /** The WHERE clause. */
    method IsEligible(d: Digest, maxAtime: int) returns (ok: bool)
      requires d in meta.db.blocks && d in access
      ensures ok <==> Eligible(meta.db, access, d, policy.protectedPrefix, maxAtime)
    {
      ok := IsHot(meta.db.blocks[d]) && access[d].atime <= maxAtime
        && (forall k | k in Naming(meta.db.chunks, d) :: k.index >= policy.protectedPrefix);
    }

    /** `demotion_candidate`: the first eligible row in the given order, if there is one. */
    method DemotionCandidate(maxAtime: int) returns (best: Option<Digest>)
      requires meta.db.blocks.Keys <= access.Keys
      ensures best.None? <==> forall d :: !MayMove(meta.db, access, d, policy.protectedPrefix, maxAtime)
      ensures best.Some? ==> MayMove(meta.db, access, best.value, policy.protectedPrefix, maxAtime)
      ensures best.Some? ==> forall e, m, n ::
        MayMove(meta.db, access, e, policy.protectedPrefix, maxAtime)
        && IsFirstIndex(meta.db.chunks, best.value, m) && IsFirstIndex(meta.db.chunks, e, n) ==>
          && access[best.value].readCount <= access[e].readCount
          && (access[best.value].readCount == access[e].readCount ==> m >= n)
          && (access[best.value].readCount == access[e].readCount && m == n ==>
                access[best.value].atime <= access[e].atime)
      ensures best.None? ==> NoCandidate(meta.db, access, policy, maxAtime)
      ensures best.Some? ==> IsBest(meta.db, access, best.value, policy.protectedPrefix, maxAtime)
    {
      best := None;
      var bestFirst := 0;
      var todo := meta.db.blocks.Keys;
      while todo != {}
        invariant todo <= meta.db.blocks.Keys
        invariant best.None? ==> forall d ::
          d in meta.db.blocks.Keys - todo ==> !Eligible(meta.db, access, d, policy.protectedPrefix, maxAtime)
        invariant best.Some? ==> Eligible(meta.db, access, best.value, policy.protectedPrefix, maxAtime)
        invariant best.Some? ==> IsFirstIndex(meta.db.chunks, best.value, bestFirst)
        invariant best.Some? ==>
          BestOf(meta.db, access, meta.db.blocks.Keys - todo, best.value, bestFirst, policy.protectedPrefix, maxAtime)
        decreases todo
      {
        var d :| d in todo;
        var eligible := IsEligible(d, maxAtime);
        if eligible {
          var first := FirstIndex(d);
          BestStep(meta.db, access, meta.db.blocks.Keys - todo, d, first, best, bestFirst, policy.protectedPrefix,
            maxAtime);
          if best.None? || Before(access[d], first, access[best.value], bestFirst) {
            best, bestFirst := Some(d), first;
          }
        }
        assert meta.db.blocks.Keys - (todo - {d}) == meta.db.blocks.Keys - todo + {d};
        todo := todo - {d};
      }
      assert meta.db.blocks.Keys - todo == meta.db.blocks.Keys;
      if best.Some? {
        BestOfAll(meta.db, access, best.value, bestFirst, policy.protectedPrefix, maxAtime);
        BestForAll(meta.db, access, best.value, policy.protectedPrefix, maxAtime);
      } else {
        forall d ensures !MayMove(meta.db, access, d, policy.protectedPrefix, maxAtime) {
          EligibleExactly(meta.db, access, d, policy.protectedPrefix, maxAtime);
        }
      }
    }

    /** The body of the loop for one candidate; it fails when a tier it needs cannot be reached. */
    method DemoteBlock(d: Digest) returns (ok: bool)
      requires store.meta == meta && d in meta.db.blocks
      modifies this`requested, meta`db, store`disk
      ensures ok <==> !Stopped(old(meta.db), store.down, d)
      ensures ok <==> (d, Hot) !in store.down && (old(meta.db.blocks[d].cold) || (d, Cold) !in store.down)
      ensures ok ==> requested == old(requested) && store.View() == AfterDemotion(old(store.View()), d)
      ensures !ok ==> requested && store.View() == old(store.View())
    {
      var row := meta.db.blocks[d];
      if !row.cold && (d, Cold) in store.down {
        requested := true;
        return false;
      }
      if (d, Hot) in store.down {
        requested := true;
        return false;
      }
      if !row.cold {
        store.disk := CopyAtomic(store.disk, d, Hot, Cold);
      }
      store.disk := Unlink(store.disk, d, Hot);
      meta.db := meta.db.(blocks := meta.db.blocks[d := Demoted(row)]);
      return true;
    }

    /** `demote_cold_blocks`.  `clock(i)` is the time read in pass `i`.  The blocks are moved one by one, always the
        first candidate, and only while the hot tier is too large. */
    method DemoteColdBlocks(maxBlocks: Option<int>, clock: nat -> int) returns (demoted: nat, ghost moved: seq<Digest>)
      requires Valid()
      modifies this`requested, meta`db, store`disk
      ensures demoted == |moved| && IsTrace(old(store.View()), moved, access, policy, clock)
      ensures store.View() == AfterMoves(old(store.View()), moved) && Reaches(old(store.View()), store.View())
      ensures maxBlocks.Some? ==> demoted <= Max(maxBlocks.value, 0)
      ensures !Starts(old(meta.db), policy, maxBlocks) ==> demoted == 0
      ensures !Starts(old(meta.db), policy, maxBlocks) ==>
        requested == (old(requested) || (policy.hotMax > 0 && maxBlocks.Some? && maxBlocks.value <= 0))
      ensures Starts(old(meta.db), policy, maxBlocks) ==>
        || HotSum(meta.db.blocks) <= policy.hotMin
        || (requested && maxBlocks.Some? && demoted >= maxBlocks.value)
        || Halted(meta.db, access, policy, clock(demoted) - policy.minHotAge, store.down, requested)
    {
      demoted, moved := 0, [];
      ghost var from := store.View();
      ReachesSelf(from);
      if policy.hotMax <= 0 {
        return;
      }
      if maxBlocks.Some? && maxBlocks.value <= 0 {
        requested := true;
        return;
      }
      var total := HotTierStoredSize();
      if total <= policy.hotMax {
        return;
      }
      demoted, moved := DemoteUntil(total, maxBlocks, clock);
      TraceReaches(from, moved, access, policy, clock);
    }

    /** One pass of the loop: the first candidate moves, if there is one and the tiers it needs can be reached. */
    method DemoteNext(maxAtime: int) returns (moved: Option<Digest>, size: int)
      requires store.meta == meta && meta.db.blocks.Keys <= access.Keys
      modifies this`requested, meta`db, store`disk
      ensures moved.None? ==>
        store.View() == old(store.View()) && Halted(meta.db, access, policy, maxAtime, store.down, requested)
      ensures moved.Some? ==>
        && IsBest(old(meta.db), access, moved.value, policy.protectedPrefix, maxAtime)
        && store.View() == AfterDemotion(old(store.View()), moved.value)
        && HotSum(meta.db.blocks) == old(HotSum(meta.db.blocks)) - size
        && HotSet(meta.db.blocks) < old(HotSet(meta.db.blocks)) && meta.db.blocks.Keys <= access.Keys
    {
      var candidate := DemotionCandidate(maxAtime);
      if candidate.None? {
        return None, 0;
      }
      size := meta.db.blocks[candidate.value].storedSize;
      HotSumDemoted(meta.db.blocks, candidate.value);
      var ok := DemoteBlock(candidate.value);
      moved := if ok then candidate else None;
    }

    /** The loop. */
    method DemoteUntil(start: int, maxBlocks: Option<int>, clock: nat -> int)
      returns (demoted: nat, ghost moved: seq<Digest>)
      requires Valid() && start == HotSum(meta.db.blocks) && (maxBlocks.Some? ==> maxBlocks.value > 0)
      modifies this`requested, meta`db, store`disk
      ensures demoted == |moved| && IsTrace(old(store.View()), moved, access, policy, clock)
      ensures store.View() == AfterMoves(old(store.View()), moved)
      ensures maxBlocks.Some? ==> demoted <= maxBlocks.value
      ensures
        || HotSum(meta.db.blocks) <= policy.hotMin
        || (requested && maxBlocks.Some? && demoted >= maxBlocks.value)
        || Halted(meta.db, access, policy, clock(demoted) - policy.minHotAge, store.down, requested)
    {
      demoted, moved := 0, [];
      var total := start;
      ghost var from := store.View();
      while total > policy.hotMin
        invariant store.meta == meta && meta.db.blocks.Keys <= access.Keys
        invariant demoted == |moved| && total == HotSum(meta.db.blocks)
        invariant Traced(from, store.View(), moved, access, policy, clock)
        invariant maxBlocks.Some? ==> demoted <= maxBlocks.value
        decreases HotSet(meta.db.blocks)
      {
        if maxBlocks.Some? && demoted >= maxBlocks.value {
          requested := true;
          break;
        }
        var candidate, size := DemoteNext(clock(demoted) - policy.minHotAge);
        if candidate.None? {
          break;
        }
        TracedMore(from, moved, access, policy, clock, candidate.value);
        total := total - size;
        demoted, moved := demoted + 1, moved + [candidate.value];
      }
    }
  }

  /** The pass has work to do and a budget for it. */
  ghost predicate Starts(db: Database, policy: Policy, maxBlocks: Option<int>) {
    policy.hotMax > 0 && (maxBlocks.Some? ==> maxBlocks.value > 0) && HotSum(db.blocks) > policy.hotMax
  }

  /** A tier the block needs cannot be reached. */
  predicate Stopped(db: Database, down: set<(Digest, Tier)>, d: Digest) {
    d in db.blocks && ((!db.blocks[d].cold && (d, Cold) in down) || (d, Hot) in down)
  }

  /** There is no candidate, or the best one needs a tier that cannot be reached, which is left for a later request. */
  ghost predicate Halted(db: Database, access: map<Digest, Access>, policy: Policy, maxAtime: int,
                         down: set<(Digest, Tier)>, requested: bool)
  {
    || NoCandidate(db, access, policy, maxAtime)
    || (requested && exists d :: IsBest(db, access, d, policy.protectedPrefix, maxAtime) && Stopped(db, down, d))
  }

  ghost predicate NoCandidate(db: Database, access: map<Digest, Access>, policy: Policy, maxAtime: int) {
    forall d :: !Eligible(db, access, d, policy.protectedPrefix, maxAtime)
  }

  ghost predicate BestOf(db: Database, access: map<Digest, Access>, seen: set<Digest>, d: Digest, first: int,
                         prefix: int, maxAtime: int)
    requires d in access
  {
    forall e, m ::
      e in seen && Eligible(db, access, e, prefix, maxAtime) && IsFirstIndex(db.chunks, e, m) ==>
        !Before(access[e], m, access[d], first)
  }

  lemma BestStep(db: Database, access: map<Digest, Access>, seen: set<Digest>, d: Digest, first: int,
                 best: Option<Digest>, bestFirst: int, prefix: int, maxAtime: int)
    requires d in access && IsFirstIndex(db.chunks, d, first)
    requires best.Some? ==> best.value in access && BestOf(db, access, seen, best.value, bestFirst, prefix, maxAtime)
    requires best.None? ==> forall e :: e in seen ==> !Eligible(db, access, e, prefix, maxAtime)
    ensures best.None? || Before(access[d], first, access[best.value], bestFirst) ==>
      BestOf(db, access, seen + {d}, d, first, prefix, maxAtime)
    ensures best.Some? && !Before(access[d], first, access[best.value], bestFirst) ==>
      BestOf(db, access, seen + {d}, best.value, bestFirst, prefix, maxAtime)
  {
    forall m | IsFirstIndex(db.chunks, d, m) ensures m == first {
      FirstIndexUnique(db.chunks, d, m, first);
    }
  }

  lemma BestOfAll(db: Database, access: map<Digest, Access>, d: Digest, first: int, prefix: int, maxAtime: int)
    requires Eligible(db, access, d, prefix, maxAtime) && IsFirstIndex(db.chunks, d, first)
    requires BestOf(db, access, db.blocks.Keys, d, first, prefix, maxAtime)
    ensures IsBest(db, access, d, prefix, maxAtime)
  {
    forall n | IsFirstIndex(db.chunks, d, n) ensures n == first {
      FirstIndexUnique(db.chunks, d, n, first);
    }
  }
}
