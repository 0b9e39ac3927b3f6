/** The writer-preferring read/write lock.  Each action is what one thread does while it holds the condition's
    mutex; a waiting thread sleeps until a notification and then tests its condition again. */
module ReadWriteLock {
  datatype Thread = Thread(id: int)

  datatype Phase = Idle | ReadAsleep | ReadAwake | Reading | WriteAsleep | WriteAwake | Writing

  datatype LockState = LockState(readers: int, writer: bool, waitingWriters: int, threads: map<Thread, Phase>)

  datatype Action =
    | AcquireRead(thread: Thread)
    | ResumeRead(thread: Thread)
    | ReleaseRead(thread: Thread)
    | AcquireWrite(thread: Thread)
    | ResumeWrite(thread: Thread)
    | ReleaseWrite(thread: Thread)
    | SpuriousWakeup(thread: Thread)

  const START := LockState(0, false, 0, map[])

  function PhaseOf(threads: map<Thread, Phase>, t: Thread): Phase {
    if t in threads then threads[t] else Idle
  }

  function Woken(p: Phase): Phase {
    if p == ReadAsleep then ReadAwake else if p == WriteAsleep then WriteAwake else p
  }

  function NotifyAll(threads: map<Thread, Phase>): map<Thread, Phase> {
    map t | t in threads :: Woken(threads[t])
  }

  predicate Enabled(s: LockState, a: Action) {
    var p := PhaseOf(s.threads, a.thread);
    match a
    case AcquireRead(_) => p == Idle
    case ResumeRead(_) => p == ReadAwake
    case ReleaseRead(_) => p == Reading
    case AcquireWrite(_) => p == Idle
    case ResumeWrite(_) => p == WriteAwake
    case ReleaseWrite(_) => p == Writing
    case SpuriousWakeup(_) => p == ReadAsleep || p == WriteAsleep
  }

  /** The loop of `acquire_read`: sleep while there is a writer or a waiting writer. */
  function TryRead(s: LockState, t: Thread): LockState {
    if s.writer || s.waitingWriters != 0
    then s.(threads := s.threads[t := ReadAsleep])
    else s.(readers := s.readers + 1, threads := s.threads[t := Reading])
  }

  /** The loop of `acquire_write`: sleep while anyone holds the lock. */
  function TryWrite(s: LockState, t: Thread): LockState {
    if s.writer || s.readers != 0
    then s.(threads := s.threads[t := WriteAsleep])
    else s.(writer := true, waitingWriters := s.waitingWriters - 1, threads := s.threads[t := Writing])
  }

  function Next(s: LockState, a: Action): LockState {
    var t := a.thread;
    match a
    case AcquireRead(_) => TryRead(s, t)
    case ResumeRead(_) => TryRead(s, t)
    case ReleaseRead(_) =>
      var left := s.threads[t := Idle];
      s.(readers := s.readers - 1, threads := if s.readers - 1 == 0 then NotifyAll(left) else left)
    case AcquireWrite(_) => TryWrite(s.(waitingWriters := s.waitingWriters + 1), t)
    case ResumeWrite(_) => TryWrite(s, t)
    case ReleaseWrite(_) => s.(writer := false, threads := NotifyAll(s.threads[t := Idle]))
    case SpuriousWakeup(_) => s.(threads := s.threads[t := Woken(PhaseOf(s.threads, t))])
  }

  // ----- the invariant -----

  function In(threads: map<Thread, Phase>, p: Phase): set<Thread> {
    set t | t in threads && threads[t] == p
  }

  /** How many threads are in a phase. */
  function Count(threads: map<Thread, Phase>, p: Phase): nat {
    |In(threads, p)|
  }

  ghost predicate Inv(s: LockState) {
    && s.readers == Count(s.threads, Reading)
    && (if s.writer then 1 else 0) == Count(s.threads, Writing)
    && s.waitingWriters == Count(s.threads, WriteAsleep) + Count(s.threads, WriteAwake)
    && (s.writer ==> s.readers == 0)
    && (Count(s.threads, WriteAsleep) > 0 ==> s.writer || s.readers > 0)
    && (Count(s.threads, ReadAsleep) > 0 ==> s.writer || s.readers > 0 || Count(s.threads, WriteAwake) > 0)
  }

  /** A thread that changes phase changes two counts. */
  lemma Moved(threads: map<Thread, Phase>, t: Thread, p: Phase, q: Phase)
    requires p != PhaseOf(threads, t)
    ensures t in threads || q != Idle ==>
      Count(threads[t := p], q)
        == Count(threads, q) + (if q == p then 1 else 0) - (if q == PhaseOf(threads, t) then 1 else 0)
  {
    assert In(threads[t := p], q) == if q == p then In(threads, q) + {t} else In(threads, q) - {t};
  }

  lemma MovedAll(threads: map<Thread, Phase>, t: Thread, p: Phase)
    requires p != PhaseOf(threads, t)
    ensures forall q :: q != Idle ==>
      Count(threads[t := p], q)
        == Count(threads, q) + (if q == p then 1 else 0) - (if q == PhaseOf(threads, t) then 1 else 0)
  {
    forall q | q != Idle
      ensures Count(threads[t := p], q)
        == Count(threads, q) + (if q == p then 1 else 0) - (if q == PhaseOf(threads, t) then 1 else 0)
    {
      Moved(threads, t, p, q);
    }
  }

  lemma NotifiedKeeps(threads: map<Thread, Phase>, p: Phase)
    requires Holds(p)
    ensures Count(NotifyAll(threads), p) == Count(threads, p)
  {
    assert In(NotifyAll(threads), p) == In(threads, p);
  }

  lemma NotifiedWakes(threads: map<Thread, Phase>, p: Phase)
    requires Asleep(p)
    ensures Count(NotifyAll(threads), p) == 0
    ensures Count(NotifyAll(threads), Woken(p)) == Count(threads, Woken(p)) + Count(threads, p)
  {
    assert In(NotifyAll(threads), p) == {};
    assert In(NotifyAll(threads), Woken(p)) == In(threads, Woken(p)) + In(threads, p);
  }

  lemma Notified(threads: map<Thread, Phase>)
    ensures Count(NotifyAll(threads), Reading) == Count(threads, Reading)
    ensures Count(NotifyAll(threads), Writing) == Count(threads, Writing)
    ensures Count(NotifyAll(threads), WriteAwake) == Count(threads, WriteAwake) + Count(threads, WriteAsleep)
    ensures Count(NotifyAll(threads), ReadAsleep) == 0 && Count(NotifyAll(threads), WriteAsleep) == 0
  {
    NotifiedKeeps(threads, Reading);
    NotifiedKeeps(threads, Writing);
    NotifiedWakes(threads, ReadAsleep);
    NotifiedWakes(threads, WriteAsleep);
  }

  lemma OthersCount(threads: map<Thread, Phase>, t: Thread)
    requires t in threads
    ensures Count(threads, threads[t]) > 0
  {
    assert t in In(threads, threads[t]);
  }

  lemma TryReadKeepsInv(s: LockState, t: Thread)
    requires Inv(s) && PhaseOf(s.threads, t) in {Idle, ReadAwake}
    ensures Inv(TryRead(s, t))
  {
    MovedAll(s.threads, t, if s.writer || s.waitingWriters != 0 then ReadAsleep else Reading);
  }

  lemma TryWriteKeepsInv(s: LockState, t: Thread)
    requires Inv(s) && PhaseOf(s.threads, t) in {Idle, WriteAwake}
    ensures Inv(TryWrite(if PhaseOf(s.threads, t) == Idle then s.(waitingWriters := s.waitingWriters + 1) else s, t))
  {
    MovedAll(s.threads, t, if s.writer || s.readers != 0 then WriteAsleep else Writing);
  }

  lemma LeaveKeepsInv(s: LockState, t: Thread)
    requires Inv(s) && PhaseOf(s.threads, t) in {Reading, Writing}
    ensures Inv(Next(s, if PhaseOf(s.threads, t) == Reading then ReleaseRead(t) else ReleaseWrite(t)))
  {
    OthersCount(s.threads, t);
    MovedAll(s.threads, t, Idle);
    Notified(s.threads[t := Idle]);
  }

  lemma StepKeepsInv(s: LockState, a: Action)
    requires Inv(s) && Enabled(s, a)
    ensures Inv(Next(s, a))
  {
    var t := a.thread;
    match a
    case AcquireRead(_) => TryReadKeepsInv(s, t);
    case ResumeRead(_) => TryReadKeepsInv(s, t);
    case ReleaseRead(_) => LeaveKeepsInv(s, t);
    case AcquireWrite(_) => TryWriteKeepsInv(s, t);
    case ResumeWrite(_) => TryWriteKeepsInv(s, t);
    case ReleaseWrite(_) => LeaveKeepsInv(s, t);
    case SpuriousWakeup(_) => MovedAll(s.threads, t, Woken(PhaseOf(s.threads, t)));
  }

  // ----- all runs -----

  function Exec(s: LockState, run: seq<Action>): LockState
    decreases |run|
  {
    if run == [] then s else Exec(Next(s, run[0]), run[1..])
  }

  ghost predicate IsRun(s: LockState, run: seq<Action>)
    decreases |run|
  {
    run == [] || (Enabled(s, run[0]) && IsRun(Next(s, run[0]), run[1..]))
  }

  lemma {:induction false} RunKeepsInv(s: LockState, run: seq<Action>)
    requires Inv(s) && IsRun(s, run)
    ensures Inv(Exec(s, run))
    decreases |run|
  {
    if run != [] {
      StepKeepsInv(s, run[0]);
      RunKeepsInv(Next(s, run[0]), run[1..]);
    }
  }

  /** A writer shares the lock with nobody. */
  ghost predicate Exclusive(threads: map<Thread, Phase>) {
    forall t, u ::
      t != u && PhaseOf(threads, t) == Writing ==> PhaseOf(threads, u) != Writing && PhaseOf(threads, u) != Reading
  }

  predicate Asleep(p: Phase) { p == ReadAsleep || p == WriteAsleep }

  predicate Holds(p: Phase) { p == Reading || p == Writing }

  /** A thread that will notify, or a waiting writer that is awake and will take the lock when it runs. */
  ghost predicate SomeoneActs(s: LockState) {
    exists t :: Holds(PhaseOf(s.threads, t)) || (PhaseOf(s.threads, t) == WriteAwake && Next(s, ResumeWrite(t)).writer)
  }

  lemma OnlyOne(threads: map<Thread, Phase>, p: Phase, t: Thread, u: Thread)
    requires PhaseOf(threads, t) == PhaseOf(threads, u) == p != Idle && Count(threads, p) <= 1
    ensures t == u
  {
    assert t in In(threads, p);
    assert |In(threads, p) - {t}| == 0;
    assert u !in In(threads, p) - {t};
  }

  lemma InvGivesExclusive(s: LockState)
    requires Inv(s)
    ensures Exclusive(s.threads)
  {
    forall t, u | t != u && PhaseOf(s.threads, t) == Writing
      ensures PhaseOf(s.threads, u) != Writing && PhaseOf(s.threads, u) != Reading
    {
      OthersCount(s.threads, t);
      if u in s.threads && Holds(s.threads[u]) {
        OthersCount(s.threads, u);
        OnlyOne(s.threads, Writing, t, u);
      }
    }
  }

  lemma SomeIn(threads: map<Thread, Phase>, p: Phase) returns (t: Thread)
    requires Count(threads, p) > 0
    ensures PhaseOf(threads, t) == p && t in threads
  {
    assert In(threads, p) != {};
    t :| t in In(threads, p);
  }

  lemma InvGivesProgress(s: LockState, sleeper: Thread)
    requires Inv(s) && Asleep(PhaseOf(s.threads, sleeper))
    ensures SomeoneActs(s)
  {
    OthersCount(s.threads, sleeper);
    if s.writer {
      var t := SomeIn(s.threads, Writing);
      assert Holds(PhaseOf(s.threads, t));
    } else if s.readers > 0 {
      var t := SomeIn(s.threads, Reading);
      assert Holds(PhaseOf(s.threads, t));
    } else {
      var t := SomeIn(s.threads, WriteAwake);
      assert Next(s, ResumeWrite(t)).writer;
    }
  }

  ghost predicate SomeoneSleeps(threads: map<Thread, Phase>) {
    exists t :: Asleep(PhaseOf(threads, t))
  }

  lemma InvGivesSafe(s: LockState)
    requires Inv(s)
    ensures Exclusive(s.threads)
    ensures SomeoneSleeps(s.threads) ==> SomeoneActs(s)
  {
    InvGivesExclusive(s);
    if SomeoneSleeps(s.threads) {
      var t :| Asleep(PhaseOf(s.threads, t));
      InvGivesProgress(s, t);
    }
  }

  /** Whatever any number of threads do, a writer is alone and no wake-up is lost: while anybody sleeps there
      is a holder, who will notify, or a woken writer, who finds the lock free. */
  lemma RunsAreSafe(run: seq<Action>)
    requires IsRun(START, run)
    ensures Exclusive(Exec(START, run).threads)
    ensures SomeoneSleeps(Exec(START, run).threads) ==> SomeoneActs(Exec(START, run))
  {
    assert forall p :: In(START.threads, p) == {};
    RunKeepsInv(START, run);
    InvGivesSafe(Exec(START, run));
  }

  // ----- who gets in -----

  lemma NoneIn(threads: map<Thread, Phase>, p: Phase)
    requires p != Idle
    ensures Count(threads, p) == 0 <==> forall u :: PhaseOf(threads, u) != p
  {
    if Count(threads, p) == 0 {
      assert In(threads, p) == {};
      forall u ensures PhaseOf(threads, u) != p {
        assert u !in In(threads, p);
      }
    } else {
      var u := SomeIn(threads, p);
    }
  }

  /** A test for reading lets the thread in if and only if nobody writes or waits to write: readers share the lock. */
  lemma ReadEntersExactly(s: LockState, t: Thread)
    requires Inv(s) && PhaseOf(s.threads, t) in {Idle, ReadAwake}
    ensures PhaseOf(TryRead(s, t).threads, t) == Reading <==>
      forall u :: PhaseOf(s.threads, u) !in {Writing, WriteAsleep, WriteAwake}
    ensures PhaseOf(TryRead(s, t).threads, t) != Reading ==> PhaseOf(TryRead(s, t).threads, t) == ReadAsleep
  {
    NoneIn(s.threads, Writing);
    NoneIn(s.threads, WriteAsleep);
    NoneIn(s.threads, WriteAwake);
  }

  /** A test for writing lets the thread in if and only if nobody reads or writes, whoever waits. */
  lemma WriteEntersExactly(s: LockState, t: Thread)
    requires Inv(s) && PhaseOf(s.threads, t) in {Idle, WriteAwake}
    ensures var a := if PhaseOf(s.threads, t) == Idle then AcquireWrite(t) else ResumeWrite(t);
      && (PhaseOf(Next(s, a).threads, t) == Writing <==> forall u :: !Holds(PhaseOf(s.threads, u)))
      && (PhaseOf(Next(s, a).threads, t) != Writing ==> PhaseOf(Next(s, a).threads, t) == WriteAsleep)
  {
    NoneIn(s.threads, Writing);
    NoneIn(s.threads, Reading);
  }

  /** Whoever leaves last wakes everybody who sleeps; a reader that leaves others reading wakes nobody. */
  lemma LeavingWakesExactly(s: LockState, t: Thread)
    requires Inv(s) && Holds(PhaseOf(s.threads, t))
    ensures var after := Next(s, if PhaseOf(s.threads, t) == Reading then ReleaseRead(t) else ReleaseWrite(t)).threads;
      && PhaseOf(after, t) == Idle
      && forall u :: u != t ==>
           PhaseOf(after, u) ==
             if PhaseOf(s.threads, u) == ReadAsleep && AloneHolds(s.threads, t) then ReadAwake
             else if PhaseOf(s.threads, u) == WriteAsleep && AloneHolds(s.threads, t) then WriteAwake
             else PhaseOf(s.threads, u)
  {
    if PhaseOf(s.threads, t) == Reading {
      OneReaderExactly(s, t);
    } else {
      InvGivesExclusive(s);
    }
  }

  lemma OneReaderExactly(s: LockState, t: Thread)
    requires Inv(s) && PhaseOf(s.threads, t) == Reading
    ensures s.readers == 1 <==> AloneHolds(s.threads, t)
  {
    var left := s.threads[t := Idle];
    OthersCount(s.threads, t);
    MovedAll(s.threads, t, Idle);
    if s.readers == 1 {
      NoneIn(left, Reading);
      NoneIn(s.threads, Writing);
      forall u | u != t ensures !Holds(PhaseOf(s.threads, u)) {
        assert PhaseOf(left, u) == PhaseOf(s.threads, u);
      }
    } else {
      var u := SomeIn(left, Reading);
      assert u != t && Holds(PhaseOf(s.threads, u));
    }
  }

  /** Nobody but `t` holds the lock. */
  ghost predicate AloneHolds(threads: map<Thread, Phase>, t: Thread) {
    forall u :: u != t ==> !Holds(PhaseOf(threads, u))
  }

  /** A thread starts to read only while no writer holds the lock or waits for it. */
  lemma NoReaderPassesWriter(s: LockState, a: Action, t: Thread)
    requires Inv(s) && Enabled(s, a)
    requires PhaseOf(s.threads, t) != Reading && PhaseOf(Next(s, a).threads, t) == Reading
    ensures forall u :: PhaseOf(s.threads, u) !in {Writing, WriteAsleep, WriteAwake}
  {
    forall u | u in s.threads ensures Count(s.threads, s.threads[u]) > 0 {
      OthersCount(s.threads, u);
    }
  }

  ghost predicate WaitsThroughout(s: LockState, run: seq<Action>, w: Thread)
    decreases |run|
  {
    && PhaseOf(s.threads, w) in {WriteAsleep, WriteAwake}
    && (run == [] || WaitsThroughout(Next(s, run[0]), run[1..], w))
  }

  /** Readers cannot starve a writer: while it waits the set of readers only shrinks. */
  lemma {:induction false} ReadersOnlyLeave(s: LockState, run: seq<Action>, w: Thread)
    requires Inv(s) && IsRun(s, run) && WaitsThroughout(s, run, w)
    ensures In(Exec(s, run).threads, Reading) <= In(s.threads, Reading)
    decreases |run|
  {
    if run != [] {
      var after := Next(s, run[0]);
      forall t | t in In(after.threads, Reading) ensures t in In(s.threads, Reading) {
        if PhaseOf(s.threads, t) != Reading {
          NoReaderPassesWriter(s, run[0], t);
        }
      }
      StepKeepsInv(s, run[0]);
      ReadersOnlyLeave(after, run[1..], w);
    }
  }

  // ----- the lock object -----

  class Lock {
    var readers: int
    var writer: bool
    var waitingWriters: int
    ghost var threads: map<Thread, Phase>

    constructor ()
      ensures View() == START
    {
      readers, writer, waitingWriters, threads := 0, false, 0, map[];
    }

    ghost function View(): LockState
      reads this
    {
      LockState(readers, writer, waitingWriters, threads)
    }

    /** One test of the loop in `acquire_read`; false means the thread goes to sleep. */
    method TestRead(ghost t: Thread) returns (entered: bool)
      requires PhaseOf(threads, t) in {Idle, ReadAwake}
      modifies this
      ensures View() == Next(old(View()), if PhaseOf(old(threads), t) == Idle then AcquireRead(t) else ResumeRead(t))
      ensures entered <==> PhaseOf(threads, t) == Reading
      ensures threads == old(threads)[t := if entered then Reading else ReadAsleep]
      ensures Inv(old(View())) ==>
        (entered <==> forall u :: PhaseOf(old(threads), u) !in {Writing, WriteAsleep, WriteAwake})
    {
      if Inv(View()) {
        ReadEntersExactly(View(), t);
      }
      if writer || waitingWriters != 0 {
        threads := threads[t := ReadAsleep];
        return false;
      }
      readers := readers + 1;
      threads := threads[t := Reading];
      return true;
    }

    method LeaveRead(ghost t: Thread) returns (notified: bool)
      requires PhaseOf(threads, t) == Reading
      modifies this
      ensures View() == Next(old(View()), ReleaseRead(t))
      ensures notified <==> readers == 0
      ensures Inv(old(View())) ==> (notified <==> AloneHolds(old(threads), t))
    {
      if Inv(View()) {
        OneReaderExactly(View(), t);
      }
      readers := readers - 1;
      threads := threads[t := Idle];
      if readers == 0 {
        threads := NotifyAll(threads);
      }
      return readers == 0;
    }

    /** `acquire_write` up to the first test of its loop. */
    method BeginWrite(ghost t: Thread) returns (entered: bool)
      requires PhaseOf(threads, t) == Idle
      modifies this
      ensures View() == Next(old(View()), AcquireWrite(t))
      ensures entered <==> PhaseOf(threads, t) == Writing
      ensures threads == old(threads)[t := if entered then Writing else WriteAsleep]
      ensures Inv(old(View())) ==> (entered <==> forall u :: !Holds(PhaseOf(old(threads), u)))
    {
      if Inv(View()) {
        WriteEntersExactly(View(), t);
      }
      waitingWriters := waitingWriters + 1;
      entered := TestWrite(t);
    }

    /** One test of the loop in `acquire_write`. */
    method TestWrite(ghost t: Thread) returns (entered: bool)
      requires PhaseOf(threads, t) in {Idle, WriteAwake}
      modifies this
      ensures View() == TryWrite(old(View()), t)
      ensures entered <==> PhaseOf(threads, t) == Writing
      ensures threads == old(threads)[t := if entered then Writing else WriteAsleep]
      ensures PhaseOf(old(threads), t) == WriteAwake && Inv(old(View())) ==>
        (entered <==> forall u :: !Holds(PhaseOf(old(threads), u)))
    {
      if PhaseOf(threads, t) == WriteAwake && Inv(View()) {
        WriteEntersExactly(View(), t);
      }
      if writer || readers != 0 {
        threads := threads[t := WriteAsleep];
        return false;
      }
      writer := true;
      waitingWriters := waitingWriters - 1;
      threads := threads[t := Writing];
      return true;
    }

    method LeaveWrite(ghost t: Thread)
      requires PhaseOf(threads, t) == Writing
      modifies this
      ensures View() == Next(old(View()), ReleaseWrite(t))
    {
      writer := false;
      threads := NotifyAll(threads[t := Idle]);
    }
  }
}
