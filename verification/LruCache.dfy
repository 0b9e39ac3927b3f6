/** The cache of decoded blocks, least recently used first, and reading through it. */
module LruCache {
  import opened Types
  import opened Schema
  import opened TierRead
  import opened Tiering
  import opened BlockStore

  datatype Entry = Entry(digest: Digest, data: Bytes)

  function Total(entries: seq<Entry>): nat {
    if entries == [] then 0 else |entries[0].data| + Total(entries[1..])
  }

  lemma {:induction false} TotalJoin(a: seq<Entry>, b: seq<Entry>)
    ensures Total(a + b) == Total(a) + Total(b)
  {
    if a == [] {
      assert a + b == b;
    } else {
      assert (a + b)[1..] == a[1..] + b;
      TotalJoin(a[1..], b);
    }
  }

  predicate Distinct(entries: seq<Entry>) {
    forall i, j :: 0 <= i < j < |entries| ==> entries[i].digest != entries[j].digest
  }

  predicate Has(entries: seq<Entry>, d: Digest) {
    exists i :: 0 <= i < |entries| && entries[i].digest == d
  }

  /** The entries in their order, without the one for a digest. */
  function Without(entries: seq<Entry>, d: Digest): seq<Entry> {
    if entries == [] then []
    else if entries[0].digest == d then Without(entries[1..], d)
    else [entries[0]] + Without(entries[1..], d)
  }

  ghost predicate Good(entries: seq<Entry>) {
    Distinct(entries) && forall e :: e in entries ==> e.data == e.digest.data
  }

  /** `n` entries are gone from the old end, none of them too early. */
  ghost predicate Evicting(full: seq<Entry>, n: nat, entries: seq<Entry>, size: int, limit: int) {
    && n <= |full| && entries == full[n..] && size == Total(entries) && Good(entries)
    && (n > 0 ==> Total(full[n - 1..]) > limit)
  }

  lemma EvictMore(full: seq<Entry>, n: nat, entries: seq<Entry>, size: int, limit: int)
    requires Evicting(full, n, entries, size, limit) && size > limit && entries != []
    ensures Evicting(full, n + 1, entries[1..], size - |entries[0].data|, limit)
  {
    GoodTail(entries);
    assert full[n..][1..] == full[n + 1..];
  }

  lemma LastFits(full: seq<Entry>, newest: Entry, limit: int)
    requires full != [] && full[|full| - 1] == newest && |newest.data| <= limit
    ensures Total(full[|full| - 1..]) <= limit
  {
    assert full[|full| - 1..] == [newest] && [newest][1..] == [];
  }

  lemma GoodTail(entries: seq<Entry>)
    requires Good(entries) && entries != []
    ensures Good(entries[1..]) && forall e :: e in entries[1..] ==> e.digest != entries[0].digest
  {
  }

  lemma GoodCons(e: Entry, rest: seq<Entry>)
    requires Good(rest) && e.data == e.digest.data && forall f :: f in rest ==> f.digest != e.digest
    ensures Good([e] + rest)
  {
    forall i | 0 <= i < |rest| ensures rest[i].digest != e.digest {
      assert rest[i] in rest;
    }
  }

  lemma GoodSnoc(rest: seq<Entry>, e: Entry)
    requires Good(rest) && e.data == e.digest.data && forall f :: f in rest ==> f.digest != e.digest
    ensures Good(rest + [e]) && Total(rest + [e]) == Total(rest) + |e.data|
  {
    forall i | 0 <= i < |rest| ensures rest[i].digest != e.digest {
      assert rest[i] in rest;
    }
    TotalJoin(rest, [e]);
    assert [e][1..] == [];
  }

  /** Without its entry for a digest the cache is smaller by that entry, and otherwise as it was. */
  lemma {:induction false} WithoutFacts(entries: seq<Entry>, d: Digest)
    requires Good(entries)
    ensures Good(Without(entries, d))
    ensures forall e :: e in Without(entries, d) <==> e in entries && e.digest != d
    ensures Total(Without(entries, d)) == Total(entries) - if Has(entries, d) then |d.data| else 0
    ensures !Has(entries, d) ==> Without(entries, d) == entries
  {
    if entries != [] {
      GoodTail(entries);
      WithoutFacts(entries[1..], d);
      HasTail(entries, d);
      if entries[0].digest != d {
        GoodCons(entries[0], Without(entries[1..], d));
      } else {
        assert !Has(entries[1..], d);
      }
    }
  }

  lemma HasTail(entries: seq<Entry>, d: Digest)
    requires entries != []
    ensures Has(entries, d) <==> entries[0].digest == d || Has(entries[1..], d)
  {
    if Has(entries, d) && entries[0].digest != d {
      var i :| 0 <= i < |entries| && entries[i].digest == d;
      assert entries[1..][i - 1].digest == d;
    }
    if Has(entries[1..], d) {
      var i :| 0 <= i < |entries[1..]| && entries[1..][i].digest == d;
      assert entries[i + 1].digest == d;
    }
  }

  lemma {:induction false} WithoutAt(entries: seq<Entry>, i: nat)
    requires Good(entries) && i < |entries|
    ensures Without(entries, entries[i].digest) == entries[..i] + entries[i + 1..]
  {
    GoodTail(entries);
    if i == 0 {
      WithoutFacts(entries[1..], entries[0].digest);
    } else {
      WithoutAt(entries[1..], i - 1);
      assert entries[1..][..i - 1] == entries[1..i];
      assert [entries[0]] + entries[1..i] == entries[..i];
    }
  }

  /** `kept` is what is left of `full` when just enough of the oldest entries go. */
  ghost predicate EvictedOldest(full: seq<Entry>, kept: seq<Entry>, limit: int) {
    exists n: nat ::
      n <= |full| && kept == full[n..] && Total(kept) <= limit && (n > 0 ==> Total(full[n - 1..]) > limit)
  }

  /** The tier a successful read counts as an access to: the preferred one on a hit, else the one that was read. */
  function AccessTier(disk: Disk, down: set<(Digest, Tier)>, d: Digest, row: BlockRow, cached: bool): Option<Tier> {
    if row.storage == Inline then None
    else if cached then Some(PreferredTier(row))
    else match ReadTiered(row, ProbeIn(disk, down, d, Hot), ProbeIn(disk, down, d, Cold))
      case Ok(decision) => Some(decision.tier)
      case Err(_) => None
  }

  /** It is the cold tier if and only if the row prefers the cold copy and a hit made no read necessary or that copy was
      there, or the row prefers the hot one and the read had to fall back. */
  lemma AccessTierExactly(disk: Disk, down: set<(Digest, Tier)>, d: Digest, row: BlockRow, cached: bool)
    requires row.storage == Tiered
      && (cached || ReadTiered(row, ProbeIn(disk, down, d, Hot), ProbeIn(disk, down, d, Cold)).Ok?)
    ensures AccessTier(disk, down, d, row, cached) == Some(Cold) <==>
      if PreferredTier(row) == Cold then cached || ((d, Cold) in disk && (d, Cold) !in down)
      else !cached && ((d, Hot) !in disk || (d, Hot) in down)
    ensures AccessTier(disk, down, d, row, cached).Some?
  {
  }

  ghost predicate IsCommitted(db: Database, d: Digest, row: BlockRow) {
    d in db.blocks && db.blocks[d] == row
  }

  class LruCache {
    const limit: int
    var entries: seq<Entry>
    var size: int

    constructor (limit: int)
      ensures this.limit == limit && entries == [] && Valid()
    {
      this.limit, entries, size := limit, [], 0;
    }

    /** Every entry is the block its digest names, and the recorded size is the sum of lengths and within the limit. */
    ghost predicate Valid()
      reads this
    {
      && Good(entries)
      && size == Total(entries) && (if limit <= 0 then entries == [] else size <= limit)
    }

    method Find(d: Digest) returns (at: Option<nat>)
      ensures at.Some? ==> at.value < |entries| && entries[at.value].digest == d
      ensures at.None? ==> !Has(entries, d)
    {
      for i := 0 to |entries|
        invariant forall j :: 0 <= j < i ==> entries[j].digest != d
      {
        if entries[i].digest == d {
          return Some(i);
        }
      }
      return None;
    }

    /** `_cache_get`: a hit returns the block's bytes and makes the entry the most recent one. */
    method Get(d: Digest) returns (r: Option<Bytes>)
      requires Valid()
      modifies this
      ensures Valid()
      ensures r.Some? <==> Has(old(entries), d)
      ensures r.Some? ==> r.value == d.data && entries == Without(old(entries), d) + [Entry(d, d.data)]
      ensures r.None? ==> entries == old(entries)
    {
      if limit <= 0 {
        return None;
      }
      var at := Find(d);
      if at.None? {
        return None;
      }
      var i := at.value;
      var e := entries[i];
      WithoutAt(entries, i);
      WithoutFacts(entries, d);
      GoodSnoc(Without(entries, d), e);
      entries := entries[..i] + entries[i + 1..] + [e];
      return Some(e.data);
    }

    /** `_cache_put`: the block becomes the most recent entry, and just enough of the oldest ones are evicted. */
    method Put(d: Digest, data: Bytes)
      requires Valid() && data == d.data
      modifies this
      ensures Valid()
      ensures limit <= 0 || |data| > limit ==> entries == old(entries)
      ensures 0 < limit && |data| <= limit ==> Has(entries, d)
      ensures 0 < limit && |data| <= limit ==>
        EvictedOldest(Without(old(entries), d) + [Entry(d, data)], entries, limit)
    {
      if limit <= 0 || |data| > limit {
        return;
      }
      Drop(d);
      GoodSnoc(entries, Entry(d, data));
      entries := entries + [Entry(d, data)];
      size := size + |data|;
      Evict(Entry(d, data));
    }

    /** The eviction loop; the newest entry alone would fit. */
    method Evict(ghost newest: Entry)
      requires entries != [] && entries[|entries| - 1] == newest && |newest.data| <= limit
      requires Good(entries) && size == Total(entries) && limit > 0
      modifies this
      ensures Valid() && EvictedOldest(old(entries), entries, limit) && Has(entries, newest.digest)
    {
      ghost var full, n := entries, 0;
      LastFits(full, newest, limit);
      while size > limit && entries != []
        invariant n < |full| && Evicting(full, n, entries, size, limit)
        decreases |entries|
      {
        EvictMore(full, n, entries, size, limit);
        size := size - |entries[0].data|;
        entries := entries[1..];
        n := n + 1;
      }
      assert entries[|entries| - 1] == newest;
    }

    /** `pop` of the previous entry. */
    method Drop(d: Digest)
      requires Valid()
      modifies this
      ensures Valid()
      ensures entries == Without(old(entries), d) && forall e :: e in entries ==> e.digest != d
    {
      WithoutFacts(entries, d);
      var at := Find(d);
      if at.None? {
        return;
      }
      WithoutAt(entries, at.value);
      size := size - |entries[at.value].data|;
      entries := entries[..at.value] + entries[at.value + 1..];
    }

    /** `read_block_snapshot` through the cache.  The cache never changes the bytes of a read; all it can do is
        let a read succeed that would have failed without it.  A successful read that takes the cold copy, or
        would take it but for the cache, schedules one copy-up. */
    method ReadBlockSnapshot(store: BlockStore, d: Digest, row: BlockRow, expected: nat) returns (r: Result<Bytes>)
      requires Valid() && Addressed(store.disk) && (row.inlinePayload.Some? ==> row.inlinePayload.value.data == d.data)
      modifies this, store`inflight, store`promoting
      ensures Valid()
      ensures r.Ok? ==> r.value == Fit(d.data, expected)
      ensures Snapshot(store.disk, store.down, d, row, expected).Ok? ==>
        r == Snapshot(store.disk, store.down, d, row, expected)
      ensures r.Ok? && Snapshot(store.disk, store.down, d, row, expected).Err? ==> Has(old(entries), d)
      ensures r.Err? ==> r.errno == EIO
      ensures var tier := AccessTier(store.disk, store.down, d, row, Has(old(entries), d));
        var more := if r.Ok? && tier.Some? && CopiesUp(store.hotMax, row, tier.value) then {d} else {};
        store.inflight == old(store.inflight) + more
      ensures IsCommitted(store.meta.committed, d, row) ==> Reaches(old(store.View()), store.View())
    {
      ReachesSelf(store.View());
      var tier: Option<Tier>;
      r, tier := ReadThrough(store, d, row, expected);
      if r.Ok? {
        ScheduleAfter(store, d, row, tier);
      }
    }

    /** The copy-up that an access to a tier calls for. */
    method ScheduleAfter(store: BlockStore, d: Digest, row: BlockRow, tier: Option<Tier>)
      modifies store`inflight, store`promoting
      ensures store.inflight
        == old(store.inflight) + if tier.Some? && CopiesUp(store.hotMax, row, tier.value) then {d} else {}
      ensures (tier.Some? ==> CanCopyUp(old(store.View()), d, tier.value)) ==> Reaches(old(store.View()), store.View())
    {
      ReachesSelf(store.View());
      if tier.Some? {
        store.ScheduleColdCopyUp(d, row, tier.value);
      }
    }

    /** The bytes of a read and the tier it counts as an access to. */
    method ReadThrough(store: BlockStore, d: Digest, row: BlockRow, expected: nat)
      returns (r: Result<Bytes>, tier: Option<Tier>)
      requires Valid() && Addressed(store.disk) && (row.inlinePayload.Some? ==> row.inlinePayload.value.data == d.data)
      modifies this
      ensures Valid()
      ensures r.Ok? ==> r.value == Fit(d.data, expected)
      ensures Snapshot(store.disk, store.down, d, row, expected).Ok? ==>
        r == Snapshot(store.disk, store.down, d, row, expected)
      ensures r.Ok? && Snapshot(store.disk, store.down, d, row, expected).Err? ==> Has(old(entries), d)
      ensures r.Err? ==> r.errno == EIO
      ensures r.Ok? ==> tier == AccessTier(store.disk, store.down, d, row, Has(old(entries), d))
    {
      tier := None;
      if row.storage == Inline && row.inlinePayload.None? {
        return Err(EIO), tier;
      }
      var cached := Get(d);
      if cached.Some? {
        tier := if row.storage == Inline then None else Some(PreferredTier(row));
        return Ok(Fit(cached.value, expected)), tier;
      }
      var data := Snapshot(store.disk, store.down, d, row, Max(row.rawSize, 0));
      if data.Err? {
        return Err(EIO), tier;
      }
      tier := AccessTier(store.disk, store.down, d, row, false);
      WholeBlock(store.disk, store.down, d, row, expected);
      Put(d, data.value);
      return Ok(Fit(data.value, expected)), tier;
    }
  }

  /** A block that decodes has its recorded raw size, so read at that size it is whole. */
  lemma WholeBlock(disk: Disk, down: set<(Digest, Tier)>, d: Digest, row: BlockRow, expected: nat)
    requires Addressed(disk) && (row.inlinePayload.Some? ==> row.inlinePayload.value.data == d.data)
    requires Snapshot(disk, down, d, row, Max(row.rawSize, 0)).Ok?
    ensures Snapshot(disk, down, d, row, Max(row.rawSize, 0)).value == d.data
    ensures Snapshot(disk, down, d, row, expected) == Ok(Fit(d.data, expected))
  {
    assert Fit(d.data, |d.data|) == d.data;
  }
}
