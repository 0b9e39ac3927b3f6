/** From a crash back to safe operation: a repair pass between the system with crashes and the whole operations that
    rely on true presence bits. */
module Recovery {
  import opened Types
  import opened ChunkTable
  import opened Tiering
  import opened TieringSafety
  import opened Histories
  import opened Presence
  import opened Fsck

  /** What a crash leaves: the committed tables and the files. */
  function AfterCrash(s: State): Store {
    Store(s.committed, s.disk)
  }

  /** Nothing the repair relies on is queued for deletion. */
  predicate NothingReliedOnQueued(s: Store) {
    forall d :: d in s.db.blocks && ReliesOnHot(s, d, s.db.blocks[d]) ==> (d, Hot) !in s.db.queue
  }

  lemma CrashIsSafe(s: State, t: State)
    requires Inv(s) && Reaches(s, t)
    ensures RefsExact(AfterCrash(t).db) && TablesSafe(AfterCrash(t).db, AfterCrash(t).disk)
  {
    ReachesStep(s, t, Crash);
    ReachesKeepsInv(s, Next(t, Crash));
  }

  /** Any guarded run, a crash at any of its points, one repair pass that reaches every file, and then any guarded
      crash-free run, both cleanups included: if nothing the repair relies on was queued, every committed chunk is still
      there after the repair and every chunk reads back after the run. */
  lemma RepairedRunsLoseNothing(s: State, t: State, ops: seq<Op>)
    requires Inv(s) && Reaches(s, t) && NothingReliedOnQueued(AfterCrash(t))
    requires CanDoAll(Repaired(AfterCrash(t), {}), ops)
    ensures var repaired := Repaired(AfterCrash(t), {});
      && repaired.db.chunks == t.committed.chunks && repaired.db.inodes == t.committed.inodes
      && Strict(DoAll(repaired, ops))
      && forall k :: k in DoAll(repaired, ops).db.chunks ==> ChunkReads(DoAll(repaired, ops), k)
  {
    CrashIsSafe(s, t);
    FsckRestoresBitsExactly(AfterCrash(t));
    CrashFreeRuns(Repaired(AfterCrash(t), {}), ops);
  }

  /** In particular from the empty file system, once the queue has been drained. */
  lemma DrainedRunsLoseNothing(t: State, ops: seq<Op>)
    requires Reaches(START, t) && t.committed.queue == {} && CanDoAll(Repaired(AfterCrash(t), {}), ops)
    ensures var end := DoAll(Repaired(AfterCrash(t), {}), ops);
      forall k :: k in end.db.chunks ==> ChunkReads(end, k)
  {
    StartIsSafe();
    RepairedRunsLoseNothing(START, t, ops);
  }
}
