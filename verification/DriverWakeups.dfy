/**
 No wakeup is lost, although `wait_event_interruptible` evaluates its condition slot by slot
 without the mutex: a thread registers before it scans, and whoever changes the ring wakes the
 queue after the change and before giving up the mutex.
 */
module DriverWakeups {
  import opened Messages
  import opened Calls
  import opened Circular
  import opened Driver
  import opened DriverInvariants
  import R = RingStore
  import Fifo

  /** The mutex holder has pushed a message and not yet woken the readers. */
  predicate PushPending(s: State) {
    && s.owner.Some? && s.owner.value in s.threads
    && s.threads[s.owner.value].pc.WakeReaders?
  }

  predicate Vacating(pc: Pc) {
    || pc.WakeWriters?
    || (pc.Sweep? && pc.dropped != [])
    || (pc.SweepWake? && pc.expired > 0)
  }

  /** The mutex holder has removed messages and not yet woken the writers. */
  predicate DropPending(s: State) {
    && s.owner.Some? && s.owner.value in s.threads
    && Vacating(s.threads[s.owner.value].pc)
  }

  ghost predicate NoneValid(r: R.Ring, n: nat) {
    n <= |r.records| && forall j | 0 <= j < n :: !r.records[j].valid
  }

  ghost predicate AllValid(r: R.Ring, n: nat) {
    n <= |r.records| && forall j | 0 <= j < n :: r.records[j].valid
  }

  /** What a registered, unwoken reader can rely on, however far its scan has come. */
  ghost predicate ReaderOk(s: State, pc: Pc) {
    && (pc.Scan? && pc.seen == 0 ==> PushPending(s) || NoneValid(s.ring, pc.i))
    && (pc.Scan? ==> pc.i <= |s.ring.records|)
    && (pc.Asleep? ==> PushPending(s) || NoneValid(s.ring, |s.ring.records|))
  }

  /** Nothing has been removed since `tail` was at slot 0, and slot `i` is still to be filled. */
  predicate RoomAhead(r: R.Ring, i: nat) {
    r.tail == 0 && r.head <= i < r.capacity
  }

  /**
   What a registered, unwoken writer can rely on: having found every slot so far taken, it is to be
   woken, or they are all still taken, or it will come to a free one.
   */
  ghost predicate WriterOk(s: State, pc: Pc) {
    && (pc.Scan? && pc.seen == pc.i ==> DropPending(s) || AllValid(s.ring, pc.i) || RoomAhead(s.ring, pc.i))
    && (pc.Scan? ==> pc.seen <= pc.i <= |s.ring.records|)
    && (pc.Asleep? ==> DropPending(s) || AllValid(s.ring, |s.ring.records|))
  }

  ghost predicate ReadersInv(s: State) {
    forall t | t in s.readerQ && t in s.threads :: ReaderOk(s, s.threads[t].pc)
  }

  ghost predicate WritersInv(s: State) {
    forall t | t in s.writerQ && t in s.threads :: WriterOk(s, s.threads[t].pc)
  }

  ghost predicate WakeInv(s: State) {
    ReadersInv(s) && WritersInv(s)
  }

  // ---------------------------------------------------------------- room ahead of a scan

  /** With `tail` at slot 0, the slots from `head` on are free, unless the ring is full. */
  lemma RoomAheadIsFree(r: R.Ring, i: nat)
    requires R.WellFormed(r) && RoomAhead(r, i) && r.records[i].valid
    ensures AllValid(r, r.capacity)
  {
    assert R.Represents(r, R.QueueOf(r));
  }

  /** A push that takes the room ahead leaves no free slot behind it. */
  lemma PushKeepsRoom(r: R.Ring, data: seq<byte>, uid: Uid, gid: Gid, stamp: Time, i: nat)
    requires R.WellFormed(r) && RoomAhead(r, i) && R.Push(r, data, uid, gid, stamp).status.Ok?
    ensures var r' := R.Push(r, data, uid, gid, stamp).ring; RoomAhead(r', i) || AllValid(r', i)
  {
    R.FlagsDecide(r);
    NextIsSlotOf(r.head, r.capacity);
    assert R.Represents(r, R.QueueOf(r));
  }

  // ---------------------------------------------------------------- what a step does to the flags

  /** A step may set a flag only with a wakeup of the readers still to come. */
  ghost predicate SafeForReaders(s: State, s': State) {
    && |s'.ring.records| == |s.ring.records|
    && (
      || s'.readerQ == {}
      || PushPending(s')
      || (!PushPending(s) && forall j | 0 <= j < |s.ring.records| ::
            s'.ring.records[j].valid ==> s.ring.records[j].valid))
  }

  /** Slots may be filled, in order, and none is freed. */
  ghost predicate OnlyFills(r: R.Ring, r': R.Ring) {
    && |r'.records| == |r.records|
    && (forall j | 0 <= j < |r.records| :: r.records[j].valid ==> r'.records[j].valid)
    && (forall i | RoomAhead(r, i) :: RoomAhead(r', i) || AllValid(r', i))
  }

  /** A step may clear a flag only with a wakeup of the writers still to come. */
  ghost predicate SafeForWriters(s: State, s': State) {
    && |s'.ring.records| == |s.ring.records|
    && (
      || s'.writerQ == {}
      || DropPending(s')
      || (!DropPending(s) && OnlyFills(s.ring, s'.ring)))
  }

  lemma ActorOwns(s: State, t: Tid, s': State)
    requires MutexInv(s) && t in s.threads && StepShape(s, t, s')
    ensures Owns(s.threads[t].pc) ==> PushPending(s) == s.threads[t].pc.WakeReaders?
    ensures Owns(s.threads[t].pc) ==> DropPending(s) == Vacating(s.threads[t].pc)
    ensures Owns(s'.threads[t].pc) ==> PushPending(s') == s'.threads[t].pc.WakeReaders?
    ensures Owns(s'.threads[t].pc) ==> DropPending(s') == Vacating(s'.threads[t].pc)
    ensures !Owns(s.threads[t].pc) && PushPending(s) ==> PushPending(s')
    ensures !Owns(s.threads[t].pc) && DropPending(s) ==> DropPending(s')
  {
  }

  lemma OutsideIsSafe(s: State, t: Tid, s': State)
    requires MutexInv(s) && t in s.threads && StepShape(s, t, s') && !Owns(s.threads[t].pc)
    ensures SafeForReaders(s, s') && SafeForWriters(s, s')
  {
    ActorOwns(s, t, s');
  }

  lemma LoopIsSafe(s: State, t: Tid, c: Choice, s': State)
    requires MutexInv(s) && R.Shaped(s.ring) && t in s.threads && StepShape(s, t, s')
    requires Owns(s.threads[t].pc) && ExecLoop(s, t, c) == Some(s')
    ensures SafeForReaders(s, s') && SafeForWriters(s, s')
  {
    ActorOwns(s, t, s');
  }

  lemma WriteIsSafe(s: State, t: Tid, c: Choice, s': State)
    requires MutexInv(s) && R.WellFormed(s.ring) && t in s.threads && StepShape(s, t, s')
    requires Writing(s.threads[t].pc) && ExecWrite(s, t, c) == Some(s')
    ensures SafeForReaders(s, s') && SafeForWriters(s, s')
  {
    ActorOwns(s, t, s');
    if s.threads[t].pc.Insert? && s'.ring != s.ring {
      InsertIsSafe(s, t, s');
    }
  }

  lemma InsertIsSafe(s: State, t: Tid, s': State)
    requires R.WellFormed(s.ring) && t in s.threads && s.threads[t].pc.Insert? && s.threads[t].op.Write?
    requires var op, x := s.threads[t].op, s.threads[t].pc.stamp;
      var o := R.Push(s.ring, op.data, op.uid, op.gid, x); s'.ring == o.ring && o.status.Ok?
    ensures forall i | RoomAhead(s.ring, i) :: RoomAhead(s'.ring, i) || AllValid(s'.ring, i)
  {
    var op := s.threads[t].op;
    forall i | RoomAhead(s.ring, i)
      ensures RoomAhead(s'.ring, i) || AllValid(s'.ring, i)
    {
      PushKeepsRoom(s.ring, op.data, op.uid, op.gid, s.threads[t].pc.stamp, i);
    }
  }

  lemma ReadIsSafe(s: State, t: Tid, c: Choice, s': State)
    requires MutexInv(s) && R.Shaped(s.ring) && t in s.threads && StepShape(s, t, s')
    requires Reading(s.threads[t].pc) && ExecRead(s, t, c) == Some(s')
    ensures SafeForReaders(s, s') && SafeForWriters(s, s')
  {
    ActorOwns(s, t, s');
  }

  lemma SweepIsSafe(s: State, t: Tid, c: Choice, s': State)
    requires MutexInv(s) && R.Shaped(s.ring) && t in s.threads && StepShape(s, t, s')
    requires Sweeping(s.threads[t].pc) && ExecSweep(s, t, c) == Some(s')
    ensures SafeForReaders(s, s') && SafeForWriters(s, s')
  {
    ActorOwns(s, t, s');
  }

  lemma ExecIsSafe(s: State, t: Tid, c: Choice, s': State)
    requires MutexInv(s) && R.WellFormed(s.ring) && t in s.threads && StepShape(s, t, s')
    requires Exec(true, s, t, c) == Some(s')
    ensures SafeForReaders(s, s') && SafeForWriters(s, s')
  {
    var pc := s.threads[t].pc;
    if !Owns(pc) { OutsideIsSafe(s, t, s'); }
    else if Writing(pc) { WriteIsSafe(s, t, c, s'); }
    else if Reading(pc) { ReadIsSafe(s, t, c, s'); }
    else if Sweeping(pc) { SweepIsSafe(s, t, c, s'); }
    else { LoopIsSafe(s, t, c, s'); }
  }

  // ---------------------------------------------------------------- the waiting threads

  lemma OtherReaderStaysOk(s: State, t: Tid, s': State, u: Tid)
    requires ReadersInv(s) && t in s.threads && StepShape(s, t, s') && SafeForReaders(s, s')
    requires u != t && u in s'.threads && u in s.readerQ && u in s'.readerQ
    ensures ReaderOk(s', s'.threads[u].pc)
  {
    assert u in s.threads && s'.threads[u] == s.threads[u];
  }

  lemma OtherWriterStaysOk(s: State, t: Tid, s': State, u: Tid)
    requires WritersInv(s) && t in s.threads && StepShape(s, t, s') && SafeForWriters(s, s')
    requires u != t && u in s'.threads && u in s.writerQ && u in s'.writerQ
    ensures WriterOk(s', s'.threads[u].pc)
  {
    assert u in s.threads && s'.threads[u] == s.threads[u];
  }

  /** The scanning thread itself: what it has seen is still so, or a wakeup is on its way. */
  lemma ScannerStaysOk(s: State, t: Tid, c: Choice, s': State)
    requires MutexInv(s) && R.WellFormed(s.ring) && t in s.threads && Waits(s.threads[t].pc)
    requires QueuesInv(s) && StepShape(s, t, s') && ExecWait(true, s, t, c) == Some(s')
    ensures ReadersInv(s) && t in s'.readerQ ==> ReaderOk(s', s'.threads[t].pc)
    ensures WritersInv(s) && t in s'.writerQ ==> WriterOk(s', s'.threads[t].pc)
  {
    ActorOwns(s, t, s');
    var pc := s.threads[t].pc;
    if pc.Scan? && RoomAhead(s.ring, pc.i) && s.ring.records[pc.i].valid {
      RoomAheadIsFree(s.ring, pc.i);
    }
  }

  /** Only the thread that registers itself joins a wait queue. */
  lemma QueuesGrowByActor(s: State, t: Tid, c: Choice, s': State)
    requires R.Shaped(s.ring) && t in s.threads && StepShape(s, t, s')
    requires Owns(s.threads[t].pc) ==> HeldShape(s, t, s')
    requires Exec(true, s, t, c) == Some(s')
    ensures s'.readerQ <= s.readerQ + {t} && s'.writerQ <= s.writerQ + {t}
  {
    if !Owns(s.threads[t].pc) && !Waits(s.threads[t].pc) {
      OutsideShape(s, t, c, s');
    }
  }

  lemma ExecKeepsWakeInv(lim: Fifo.Limits, s: State, t: Tid, c: Choice, s': State)
    requires Stable(lim, s) && R.Shaped(s.ring) && t in s.threads && Exec(true, s, t, c) == Some(s')
    requires QueuesInv(s')
    ensures ReadersInv(s) ==> ReadersInv(s')
    ensures WritersInv(s) ==> WritersInv(s')
  {
    ExecShape(true, s, t, c, s');
    ExecIsSafe(s, t, c, s');
    QueuesGrowByActor(s, t, c, s');
    if Waits(s.threads[t].pc) {
      ScannerStaysOk(s, t, c, s');
    }
    forall u | ReadersInv(s) && u in s'.threads && u != t && u in s'.readerQ
      ensures ReaderOk(s', s'.threads[u].pc)
    {
      OtherReaderStaysOk(s, t, s', u);
    }
    forall u | WritersInv(s) && u in s'.threads && u != t && u in s'.writerQ
      ensures WriterOk(s', s'.threads[u].pc)
    {
      OtherWriterStaysOk(s, t, s', u);
    }
    assert MayBeQueued(s'.threads[t].pc) ==> Waits(s.threads[t].pc) by {
      EntersWaitThroughPrecheck(s, t, c, s');
    }
  }

  lemma EntersWaitThroughPrecheck(s: State, t: Tid, c: Choice, s': State)
    requires R.Shaped(s.ring) && t in s.threads && Exec(true, s, t, c) == Some(s')
    requires StepShape(s, t, s') && (Owns(s.threads[t].pc) ==> HeldShape(s, t, s'))
    ensures MayBeQueued(s'.threads[t].pc) ==> Waits(s.threads[t].pc)
  {
  }

  lemma StepKeepsWakeInv(lim: Fifo.Limits, s: State, e: Event, s': State)
    requires Stable(lim, s) && Next(true, s, e, s')
    ensures Stable(lim, s')
    ensures ReadersInv(s) ==> ReadersInv(s')
    ensures WritersInv(s) ==> WritersInv(s')
  {
    StepKeepsStable(lim, true, s, e, s');
    if e.Do? {
      ExecKeepsWakeInv(lim, s, e.t, e.choice, s');
    } else {
      OtherEventsShape(true, s, e, s');
      OtherEventsKeepWakeInv(s, s');
    }
  }

  lemma OtherEventsKeepWakeInv(s: State, s': State)
    requires OtherShape(s, s') && MutexInv(s)
    ensures ReadersInv(s) ==> ReadersInv(s')
    ensures WritersInv(s) ==> WritersInv(s')
  {
  }

  lemma {:induction false} RunKeepsWakeInv(ss: seq<State>, es: seq<Event>, n: nat)
    requires IsRun(true, ss, es) && n <= |es|
    ensures Stable(LimitsOf(ss[0]), ss[n]) && WakeInv(ss[n])
  {
    if n == 0 {
      InitInv(ss[0]);
    } else {
      RunKeepsWakeInv(ss, es, n - 1);
      assert StepAt(true, ss, es, n - 1);
      StepKeepsWakeInv(LimitsOf(ss[0]), ss[n - 1], es[n - 1], ss[n]);
    }
  }

  // ---------------------------------------------------------------- theorems

  /** Asleep, and not woken since it registered. */
  predicate SleepsUnwoken(s: State, t: Tid) {
    t in s.threads && s.threads[t].pc.Asleep? && t !in s.awake
  }

  /** Why a thread may sleep unwoken: nothing to do, or a wakeup still to come. */
  ghost predicate HasReason(s: State, t: Tid)
    requires R.Shaped(s.ring) && t in s.threads
  {
    if s.threads[t].op.Write? then |R.QueueOf(s.ring)| == s.ring.capacity || DropPending(s)
    else R.QueueOf(s.ring) == [] || PushPending(s)
  }

  lemma SleeperHasReason(lim: Fifo.Limits, s: State, t: Tid)
    requires Stable(lim, s) && SleepsUnwoken(s, t)
    requires if s.threads[t].op.Write? then WritersInv(s) else ReadersInv(s)
    ensures HasReason(s, t)
  {
    R.FlagsDecide(s.ring);
  }

  /**
   In every reachable state a reader sleeps unwoken only while the ring is empty or the mutex holder
   has pushed and will wake the readers before unlocking; a writer only while the ring is full or
   the holder has removed messages and will wake the writers.
   */
  lemma NoLostWakeup(ss: seq<State>, es: seq<Event>, n: nat, t: Tid)
    requires IsRun(true, ss, es) && n <= |es| && SleepsUnwoken(ss[n], t)
    ensures R.Shaped(ss[n].ring)
    ensures HasReason(ss[n], t)
  {
    RunKeepsWakeInv(ss, es, n);
    SleeperHasReason(LimitsOf(ss[0]), ss[n], t);
  }

  /** No thread has a statement it can execute, or a result to return. */
  ghost predicate Quiet(s: State)
    requires R.Shaped(s.ring)
  {
    forall t | t in s.threads ::
      !s.threads[t].pc.Finished? && !Overruns(s, t) && Exec(true, s, t, Go) == None
  }

  /** A thread that cannot go on is waiting for the mutex or for a wakeup. */
  lemma QuietThread(lim: Fifo.Limits, s: State, t: Tid)
    requires R.Shaped(s.ring) && t in s.threads && ThreadOk(lim, R.QueueOf(s.ring), s.clock, s.threads[t])
    requires !s.threads[t].pc.Finished? && !Overruns(s, t) && Exec(true, s, t, Go) == None
    ensures (s.threads[t].pc.Lock? && s.owner.Some?) || SleepsUnwoken(s, t)
  {
    if Waits(s.threads[t].pc) {
    } else if Owns(s.threads[t].pc) {
      OwnerCanGo(lim, s, t);
    }
  }

  /** The mutex holder never waits; its next statement may only be a copy that does not fit. */
  lemma OwnerCanGo(lim: Fifo.Limits, s: State, t: Tid)
    requires R.Shaped(s.ring) && t in s.threads && ThreadOk(lim, R.QueueOf(s.ring), s.clock, s.threads[t])
    requires Owns(s.threads[t].pc)
    ensures Exec(true, s, t, Go) == None <==> Overruns(s, t)
  {
  }

  /** At rest nobody holds the mutex, so nobody waits for it either. */
  lemma RestIsAsleep(lim: Fifo.Limits, s: State)
    requires R.Shaped(s.ring) && MutexInv(s) && ThreadsInv(lim, s) && Quiet(s)
    ensures s.owner == None
    ensures forall t | t in s.threads :: SleepsUnwoken(s, t)
  {
    forall t | t in s.threads
      ensures (s.threads[t].pc.Lock? && s.owner.Some?) || SleepsUnwoken(s, t)
    {
      QuietThread(lim, s, t);
    }
  }

  /** The mutex is free, and all calls are readers asleep on an empty ring or writers asleep on a full one. */
  ghost predicate Rested(s: State)
    requires R.Shaped(s.ring)
  {
    && s.owner == None
    && (forall t | t in s.threads :: SleepsUnwoken(s, t))
    && ((forall t | t in s.threads :: !s.threads[t].op.Write? && R.QueueOf(s.ring) == [])
        || (forall t | t in s.threads :: s.threads[t].op.Write? && |R.QueueOf(s.ring)| == s.ring.capacity))
  }

  lemma RestHasReason(lim: Fifo.Limits, s: State)
    requires Stable(lim, s) && WakeInv(s) && Quiet(s)
    ensures Rested(s)
  {
    RestIsAsleep(lim, s);
    forall t | t in s.threads
      ensures if s.threads[t].op.Write? then |R.QueueOf(s.ring)| == s.ring.capacity
              else R.QueueOf(s.ring) == []
    {
      SleeperHasReason(lim, s, t);
    }
  }

  /** The system comes to rest only when it should. */
  lemma RestIsJustified(ss: seq<State>, es: seq<Event>, n: nat)
    requires IsRun(true, ss, es) && n <= |es|
    requires R.Shaped(ss[n].ring) && Quiet(ss[n])
    ensures Rested(ss[n])
  {
    RunKeepsWakeInv(ss, es, n);
    RestHasReason(LimitsOf(ss[0]), ss[n]);
  }

  // ---------------------------------------------------------------- the wait ends

  /** A scan that has counted its first `i` slots as they are now. */
  predicate Counted(s: State, t: Tid)
    requires R.Shaped(s.ring) && t in s.threads
  {
    var pc := s.threads[t].pc;
    && pc.Scan? && pc.i <= s.ring.capacity
    && pc.seen == R.ValidUpTo(s.ring.records, pc.i)
  }

  /** A signal has taken the thread off its wait queue. */
  predicate Interrupted(pc: Pc) {
    (pc.Scan? && pc.sig) || (pc.Leave? && pc.interrupted)
  }

  /** A bound on the statements a waiting thread still executes if nobody changes the ring. */
  function Rank(s: State, t: Tid): nat
    requires R.Shaped(s.ring) && t in s.threads
  {
    var n := s.ring.capacity;
    match s.threads[t].pc
    case Precheck(i, _) => 3 * n + 5 + (if i < n then n - i else 0)
    case Scan(_, i, _) =>
      if Counted(s, t) then n - i + 1 else 2 * n + 4 + (if i < n then n - i else 0)
    case Asleep => n + 3
    case Enlist => n + 2
    case _ => 0
  }

  /**
   While the loop guard would let it through and no wakeup is outstanding, a waiting thread is never
   stuck, and each of its statements brings it closer to leaving the wait.
   */
  lemma WaitProgresses(lim: Fifo.Limits, s: State, t: Tid)
    requires Stable(lim, s) && WakeInv(s) && R.Shaped(s.ring) && t in s.threads
    requires Waits(s.threads[t].pc) && !s.threads[t].pc.Leave?
    requires !MustWait(s.ring, s.threads[t].op) && !PushPending(s) && !DropPending(s)
    ensures var next := Exec(true, s, t, Go);
      && next.Some?
      && next.value.ring == s.ring && t in next.value.threads
      && Waits(next.value.threads[t].pc)
      && (!Interrupted(s.threads[t].pc) ==> !Interrupted(next.value.threads[t].pc))
      && Rank(next.value, t) < Rank(s, t)
  {
    TestStep(lim, s, s.threads[t].op);
    if s.threads[t].pc.Asleep? && t !in s.awake {
      SleeperHasReason(lim, s, t);
    } else {
      StepLowersRank(s, t);
    }
  }

  lemma StepLowersRank(s: State, t: Tid)
    requires R.Shaped(s.ring) && t in s.threads
    requires Waits(s.threads[t].pc) && !s.threads[t].pc.Leave? && !MustWait(s.ring, s.threads[t].op)
    requires s.threads[t].pc.Asleep? ==> t in s.awake
    ensures var next := ExecWait(true, s, t, Go);
      && next.Some?
      && next.value.ring == s.ring && t in next.value.threads
      && Waits(next.value.threads[t].pc)
      && (!Interrupted(s.threads[t].pc) ==> !Interrupted(next.value.threads[t].pc))
      && Rank(next.value, t) < Rank(s, t)
  {
  }

  lemma PendingStaysOff(s: State, t: Tid, s': State)
    requires MutexInv(s) && t in s.threads && StepShape(s, t, s')
    requires !Owns(s.threads[t].pc) && !Owns(s'.threads[t].pc) && !PushPending(s) && !DropPending(s)
    ensures !PushPending(s') && !DropPending(s')
  {
  }

  /** One statement of a wait that will end. */
  lemma WaitStep(lim: Fifo.Limits, s: State, t: Tid) returns (s': State)
    requires Stable(lim, s) && WakeInv(s) && t in s.threads
    requires Waits(s.threads[t].pc) && !s.threads[t].pc.Leave?
    requires !MustWait(s.ring, s.threads[t].op) && !PushPending(s) && !DropPending(s)
    ensures Next(true, s, Do(t, Go), s') && Stable(lim, s') && WakeInv(s')
    ensures s'.ring == s.ring && t in s'.threads && s'.threads[t].op == s.threads[t].op
    ensures Waits(s'.threads[t].pc) && !PushPending(s') && !DropPending(s')
    ensures !Interrupted(s.threads[t].pc) ==> !Interrupted(s'.threads[t].pc)
    ensures Rank(s', t) < Rank(s, t)
  {
    WaitProgresses(lim, s, t);
    s' := Exec(true, s, t, Go).value;
    StepKeepsWakeInv(lim, s, Do(t, Go), s');
    WaitShape(true, s, t, Go, s');
    PendingStaysOff(s, t, s');
  }

  /**
   Every wait can end: from any reachable state in which the guard is false and nobody owes a wakeup,
   the waiting thread alone gets out of the wait, in a number of statements bounded by the capacity;
   and unless it was interrupted before, its wait succeeds.
   */
  lemma {:induction false} WaitEnds(lim: Fifo.Limits, s: State, t: Tid) returns (run: seq<State>)
    requires Stable(lim, s) && WakeInv(s) && t in s.threads
    requires Waits(s.threads[t].pc)
    requires !MustWait(s.ring, s.threads[t].op) && !PushPending(s) && !DropPending(s)
    ensures 0 < |run| <= Rank(s, t) + 1 <= 4 * s.ring.capacity + 6 && run[0] == s
    ensures forall k | 0 <= k < |run| - 1 :: Next(true, run[k], Do(t, Go), run[k + 1])
    ensures t in run[|run| - 1].threads && run[|run| - 1].threads[t].pc.Leave?
    ensures !Interrupted(s.threads[t].pc) ==> run[|run| - 1].threads[t].pc == Leave(false)
    decreases Rank(s, t)
  {
    if s.threads[t].pc.Leave? {
      run := [s];
    } else {
      var s' := WaitStep(lim, s, t);
      var rest := WaitEnds(lim, s', t);
      run := [s] + rest;
      forall k | 0 <= k < |run| - 1
        ensures Next(true, run[k], Do(t, Go), run[k + 1])
      {
        assert k > 0 ==> run[k] == rest[k - 1] && run[k + 1] == rest[k];
      }
    }
  }
}
