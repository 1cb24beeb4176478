/**
 What holds in every reachable state of the driver, whatever its unlocked scans conclude. `Stable` is
 the part that does not rely on the count taken at the loop guard; `Inv` adds what does.
 */
module DriverInvariants {
  import opened Messages
  import opened Calls
  import opened Driver
  import R = RingStore
  import Fifo

  /** Messages taken off the ring by a call that has not yet taken effect. */
  function Held(pc: Pc): seq<Msg> {
    match pc
    case WakeWriters(m, _) => [m]
    case CopyOut(m, _) => [m]
    case Sweep(dropped) => dropped
    case _ => []
  }

  predicate Proper(res: Result) {
    res.status.Fail? ==>
      var e := res.status.error;
      e == EINVAL || e == ENOMEM || e == ERESTARTSYS || e == EFAULT || e == EACCES || e == EAGAIN
  }

  /** The results a call may have even when the ring is emptied between its guard and its pop. */
  predicate Possible(res: Result) {
    Proper(res) || res == Failed(ENODATA)
  }

  function ReadResult(m: Msg, count: nat): Result
    requires |m.payload| <= count
  {
    Result(Ok(|m.payload|), Padded(m.payload, count))
  }

  /** What a thread that holds the mutex knows about the queue. */
  ghost predicate OwnerOk(lim: Fifo.Limits, q: seq<Msg>, clock: Time, th: Thread) {
    && |Held(th.pc)| + |q| <= lim.capacity
    && (Held(th.pc) != [] ==> Fifo.Sorted(Held(th.pc) + q))
    && (forall m | m in Held(th.pc) :: m.stamp <= clock)
    && match th.pc
       case Test => !th.op.Cleanup?
       case Release => !th.op.Cleanup?
       case Stamp => th.op.Write? && |q| < lim.capacity
       case CopyIn(x) =>
         && th.op.Write? && |q| < lim.capacity
         && th.began <= x <= clock && forall m | m in q :: m.stamp <= x
       case Insert(x) =>
         && th.op.Write? && |q| < lim.capacity
         && th.began <= x <= clock && forall m | m in q :: m.stamp <= x
       case WakeReaders(res) => th.op.Write? && res == Result(Ok(|th.op.data|), [])
       case Remove => th.op.Read?
       case WakeWriters(m, res) =>
         && th.op.Read? && MayRead(th.op.uid, th.op.gid, m)
         && |m.payload| <= th.op.count && res == ReadResult(m, th.op.count)
       case CopyOut(m, res) =>
         && th.op.Read? && MayRead(th.op.uid, th.op.gid, m)
         && |m.payload| <= th.op.count && res == ReadResult(m, th.op.count)
       case Sweep(dropped) => th.op.Cleanup? && forall m | m in dropped :: m.stamp < th.began
       case SweepWake(_) => th.op.Cleanup?
       case Unlock(res) => Possible(res)
       case _ => true
  }

  /** What any other thread knows: nothing about the queue. */
  predicate OutsideOk(th: Thread) {
    match th.pc
    case Block => !th.op.Cleanup?
    case Precheck(_, _) => !th.op.Cleanup? && !th.op.nonblock
    case Enlist => !th.op.Cleanup? && !th.op.nonblock
    case Scan(_, _, _) => !th.op.Cleanup? && !th.op.nonblock
    case Asleep => !th.op.Cleanup? && !th.op.nonblock
    case Leave(_) => !th.op.Cleanup? && !th.op.nonblock
    case Finished(res) => Possible(res)
    case _ => true
  }

  ghost predicate ThreadOk(lim: Fifo.Limits, q: seq<Msg>, clock: Time, th: Thread) {
    && th.began <= clock
    && (!th.pc.Start? && !th.pc.Finished? ==> !TooLarge(lim.dataSize, th.op))
    && (if Owns(th.pc) then OwnerOk(lim, q, clock, th) else OutsideOk(th))
  }

  ghost predicate RingOk(lim: Fifo.Limits, r: R.Ring, clock: Time) {
    && R.WellFormed(r)
    && r.capacity == lim.capacity && r.dataSize == lim.dataSize
    && Fifo.Sorted(R.QueueOf(r))
    && forall m | m in R.QueueOf(r) :: m.stamp <= clock
  }

  /** The ring holds a queue, in the order of its time stamps, none of them in the future. */
  ghost predicate RingInv(lim: Fifo.Limits, s: State) {
    RingOk(lim, s.ring, s.clock)
  }

  /** The mutex is held by exactly the thread inside its critical section. */
  ghost predicate MutexInv(s: State) {
    && (s.owner.Some? ==> s.owner.value in s.threads && Owns(s.threads[s.owner.value].pc))
    && forall t | t in s.threads :: Owns(s.threads[t].pc) ==> s.owner == Some(t)
  }

  ghost predicate ThreadsInv(lim: Fifo.Limits, s: State)
    requires R.Shaped(s.ring)
  {
    forall t | t in s.threads :: ThreadOk(lim, R.QueueOf(s.ring), s.clock, s.threads[t])
  }

  ghost function Waiting(s: State, writers: bool): set<Tid> {
    set t | t in s.threads && Waits(s.threads[t].pc) && s.threads[t].op.Write? == writers
  }

  /** Each counter is the number of its waiting threads. */
  ghost predicate CountersInv(s: State) {
    && s.readerWaiting == |Waiting(s, false)|
    && s.writerWaiting == |Waiting(s, true)|
  }

  /** Where a thread may be while its entry is on a wait queue. */
  predicate MayBeQueued(pc: Pc) {
    pc.Enlist? || (pc.Scan? && !pc.sig) || pc.Asleep?
  }

  /** Between registering on a wait queue and leaving it. */
  predicate MaySleep(pc: Pc) {
    (pc.Scan? && !pc.sig) || pc.Asleep?
  }

  /**
   No stale entries: a thread on a wait queue is waiting on that side and has not been woken. No
   missing ones: a thread that may go to sleep is on its queue, or was woken since it registered.
   */
  ghost predicate QueuesInv(s: State) {
    && (forall t | t in s.readerQ ::
          t in s.threads && !s.threads[t].op.Write? && MayBeQueued(s.threads[t].pc))
    && (forall t | t in s.writerQ ::
          t in s.threads && s.threads[t].op.Write? && MayBeQueued(s.threads[t].pc))
    && (forall t | t in s.threads && MaySleep(s.threads[t].pc) :: Registered(s, t) || t in s.awake)
    && s.readerQ !! s.awake && s.writerQ !! s.awake
  }

  ghost predicate Stable(lim: Fifo.Limits, s: State) {
    RingInv(lim, s) && MutexInv(s) && ThreadsInv(lim, s) && CountersInv(s) && QueuesInv(s)
  }

  /** What a thread knows from the count it took under the mutex. */
  ghost predicate Guarded(q: seq<Msg>, th: Thread) {
    && (th.pc.Remove? ==> q != [])
    && (th.pc.Unlock? || th.pc.Finished? ==> Proper(th.pc.res))
  }

  ghost predicate GuardInv(s: State)
    requires R.Shaped(s.ring)
  {
    forall t | t in s.threads :: Guarded(R.QueueOf(s.ring), s.threads[t])
  }

  ghost predicate Inv(lim: Fifo.Limits, s: State) {
    Stable(lim, s) && GuardInv(s)
  }

  lemma InitInv(s: State)
    requires Init(s)
    ensures Inv(Fifo.Limits(s.ring.capacity, s.ring.dataSize), s)
  {
    R.BlankIsEmpty(s.ring.capacity, s.ring.dataSize);
    assert Waiting(s, false) == {} && Waiting(s, true) == {};
  }

  // ---------------------------------------------------------------- the shape of a step

  /** A step changes one program counter; the ring only under the mutex; the mutex as its counter says. */
  ghost predicate StepShape(s: State, t: Tid, s': State)
    requires t in s.threads
  {
    && t in s'.threads
    && s'.threads == s.threads[t := s.threads[t].(pc := s'.threads[t].pc)]
    && s'.clock == s.clock
    && (s'.ring != s.ring ==> Owns(s.threads[t].pc) && Owns(s'.threads[t].pc))
    && (if Owns(s.threads[t].pc) == Owns(s'.threads[t].pc) then s'.owner == s.owner
        else if Owns(s'.threads[t].pc) then s.owner == None && s'.owner == Some(t)
        else s'.owner == None)
  }

  lemma WaitShape(exact: bool, s: State, t: Tid, c: Choice, s': State)
    requires R.Shaped(s.ring) && t in s.threads && Waits(s.threads[t].pc) && ExecWait(exact, s, t, c) == Some(s')
    ensures StepShape(s, t, s') && s'.ring == s.ring && !Owns(s'.threads[t].pc)
  {
  }

  lemma OutsideShape(s: State, t: Tid, c: Choice, s': State)
    requires R.Shaped(s.ring) && t in s.threads && ExecOutside(s, t, c) == Some(s')
    ensures StepShape(s, t, s') && s'.ring == s.ring
    ensures s'.readerQ == s.readerQ && s'.writerQ == s.writerQ && s'.awake == s.awake
    ensures !MaySleep(s'.threads[t].pc)
  {
  }

  /** What a step under the mutex leaves alone. */
  ghost predicate HeldShape(s: State, t: Tid, s': State)
    requires t in s.threads
  {
    && StepShape(s, t, s')
    && !Waits(s'.threads[t].pc)
    && s'.readerWaiting == s.readerWaiting && s'.writerWaiting == s.writerWaiting
    && s'.readerQ <= s.readerQ <= s'.readerQ + s'.awake
    && s'.writerQ <= s.writerQ <= s'.writerQ + s'.awake
    && s.awake <= s'.awake <= s.awake + (s.readerQ - s'.readerQ) + (s.writerQ - s'.writerQ)
  }

  lemma LoopShape(s: State, t: Tid, c: Choice, s': State)
    requires R.Shaped(s.ring) && t in s.threads && ExecLoop(s, t, c) == Some(s')
    ensures HeldShape(s, t, s')
  {
  }

  lemma WriteShape(s: State, t: Tid, c: Choice, s': State)
    requires R.Shaped(s.ring) && t in s.threads && ExecWrite(s, t, c) == Some(s')
    ensures HeldShape(s, t, s')
  {
  }

  lemma ReadShape(s: State, t: Tid, c: Choice, s': State)
    requires R.Shaped(s.ring) && t in s.threads && ExecRead(s, t, c) == Some(s')
    ensures HeldShape(s, t, s')
  {
  }

  lemma SweepShape(s: State, t: Tid, c: Choice, s': State)
    requires R.Shaped(s.ring) && t in s.threads && ExecSweep(s, t, c) == Some(s')
    ensures HeldShape(s, t, s')
  {
  }

  lemma ExecShape(exact: bool, s: State, t: Tid, c: Choice, s': State)
    requires R.Shaped(s.ring) && t in s.threads && Exec(exact, s, t, c) == Some(s')
    ensures StepShape(s, t, s')
    ensures Owns(s.threads[t].pc) ==> HeldShape(s, t, s')
  {
    var pc := s.threads[t].pc;
    if Waits(pc) { WaitShape(exact, s, t, c, s'); }
    else if Writing(pc) { WriteShape(s, t, c, s'); }
    else if Reading(pc) { ReadShape(s, t, c, s'); }
    else if Sweeping(pc) { SweepShape(s, t, c, s'); }
    else if Owns(pc) { LoopShape(s, t, c, s'); }
    else { OutsideShape(s, t, c, s'); }
  }

  lemma MutexKept(s: State, t: Tid, s': State)
    requires MutexInv(s) && t in s.threads && StepShape(s, t, s')
    ensures MutexInv(s')
  {
  }

  // ---------------------------------------------------------------- ring operations under the mutex

  lemma QueuePayloads(r: R.Ring, m: Msg)
    requires R.Shaped(r) && m in R.QueueOf(r)
    ensures |m.payload| <= r.dataSize
  {
  }

  lemma SortedAppend(q: seq<Msg>, m: Msg, clock: Time)
    requires Fifo.Sorted(q) && m.stamp <= clock
    requires forall x | x in q :: x.stamp <= m.stamp
    ensures Fifo.Sorted(q + [m]) && forall x | x in q + [m] :: x.stamp <= clock
  {
  }

  lemma PushKeepsRingOk(lim: Fifo.Limits, r: R.Ring, clock: Time, data: seq<byte>, uid: Uid, gid: Gid, x: Time)
    requires RingOk(lim, r, clock) && |data| <= lim.dataSize && |R.QueueOf(r)| < lim.capacity
    requires x <= clock && forall m | m in R.QueueOf(r) :: m.stamp <= x
    ensures var o := R.Push(r, data, uid, gid, x);
      && o.status == Ok(|data|)
      && RingOk(lim, o.ring, clock)
      && R.QueueOf(o.ring) == R.QueueOf(r) + [Msg(Stored(data), uid, gid, x)]
  {
    R.PushRefines(r, data, uid, gid, x);
    SortedAppend(R.QueueOf(r), Msg(Stored(data), uid, gid, x), clock);
  }

  /** A checked push always succeeds: the ring is not full and the block fits. */
  lemma InsertStep(lim: Fifo.Limits, s: State, th: Thread, x: Time)
    requires RingInv(lim, s) && th.pc == Insert(x) && ThreadOk(lim, R.QueueOf(s.ring), s.clock, th)
    ensures var o := R.Push(s.ring, th.op.data, th.op.uid, th.op.gid, x);
      && o.status == Ok(|th.op.data|)
      && RingOk(lim, o.ring, s.clock)
      && R.QueueOf(o.ring) == R.QueueOf(s.ring) + [Msg(Stored(th.op.data), th.op.uid, th.op.gid, x)]
  {
    PushKeepsRingOk(lim, s.ring, s.clock, th.op.data, th.op.uid, th.op.gid, x);
  }

  lemma FrontOfQueue(r: R.Ring)
    requires R.WellFormed(r) && R.QueueOf(r) != []
    ensures R.MsgAt(r, r.tail) == R.QueueOf(r)[0]
    ensures |R.QueueOf(r)[0].payload| <= r.dataSize
  {
    R.FlagsDecide(r);
    R.DropRefines(r);
    QueuePayloads(r, R.QueueOf(r)[0]);
  }

  lemma SortedTail(q: seq<Msg>, clock: Time)
    requires q != [] && Fifo.Sorted(q) && forall m | m in q :: m.stamp <= clock
    ensures Fifo.Sorted(q[1..]) && forall m | m in q[1..] :: m.stamp <= clock
  {
  }

  lemma PopKeepsRingOk(lim: Fifo.Limits, r: R.Ring, clock: Time, uid: Uid, gid: Gid)
    requires RingOk(lim, r, clock) && R.QueueOf(r) != []
    ensures var o := R.Pop(r, uid, gid); var q := R.QueueOf(r);
      && RingOk(lim, o.ring, clock)
      && o.status == (if MayRead(uid, gid, q[0]) then Ok(|q[0].payload|) else Fail(EACCES))
      && R.QueueOf(o.ring) == (if o.status.Ok? then q[1..] else q)
      && o.bytes == (if o.status.Ok? then q[0].payload else [])
  {
    R.PopRefines(r, uid, gid);
    SortedTail(R.QueueOf(r), clock);
  }

  /** A checked pop finds a message: it delivers it or refuses access to it. */
  lemma RemoveStep(lim: Fifo.Limits, s: State, th: Thread)
    requires RingInv(lim, s) && th.pc == Remove && ThreadOk(lim, R.QueueOf(s.ring), s.clock, th)
    requires Guarded(R.QueueOf(s.ring), th)
    ensures var o := R.Pop(s.ring, th.op.uid, th.op.gid); var q := R.QueueOf(s.ring);
      && RingOk(lim, o.ring, s.clock)
      && |q[0].payload| <= lim.dataSize
      && R.MsgAt(s.ring, s.ring.tail) == q[0]
      && o.status == (if MayRead(th.op.uid, th.op.gid, q[0]) then Ok(|q[0].payload|) else Fail(EACCES))
      && R.QueueOf(o.ring) == (if o.status.Ok? then q[1..] else q)
      && o.bytes == (if o.status.Ok? then q[0].payload else [])
  {
    PopKeepsRingOk(lim, s.ring, s.clock, th.op.uid, th.op.gid);
    FrontOfQueue(s.ring);
  }

  lemma SweepStep(lim: Fifo.Limits, s: State, now: Time)
    requires RingInv(lim, s)
    ensures var q := R.QueueOf(s.ring); var r' := R.DropOldest(s.ring);
      && (R.Expirable(s.ring, now) <==> q != [] && q[0].stamp < now)
      && (q != [] ==>
            && RingOk(lim, r', s.clock)
            && R.MsgAt(s.ring, s.ring.tail) == q[0]
            && R.QueueOf(r') == q[1..])
  {
    R.FlagsDecide(s.ring);
    if R.QueueOf(s.ring) != [] {
      R.DropRefines(s.ring);
    }
  }

  lemma TestStep(lim: Fifo.Limits, s: State, op: Op)
    requires RingInv(lim, s)
    ensures MustWait(s.ring, op) <==>
              if op.Write? then |R.QueueOf(s.ring)| == lim.capacity else R.QueueOf(s.ring) == []
    ensures |R.QueueOf(s.ring)| <= lim.capacity
  {
    R.CountIsLength(s.ring, R.QueueOf(s.ring));
  }

  // ---------------------------------------------------------------- the acting thread

  /** The acting thread's knowledge, and the ring's invariant, after a step. */
  ghost predicate ActorOk(lim: Fifo.Limits, s: State, t: Tid) {
    && RingInv(lim, s)
    && t in s.threads
    && ThreadOk(lim, R.QueueOf(s.ring), s.clock, s.threads[t])
  }

  lemma OutsideKeepsActor(lim: Fifo.Limits, s: State, t: Tid, c: Choice, s': State)
    requires ActorOk(lim, s, t) && !Owns(s.threads[t].pc)
    requires R.Shaped(s.ring) && ExecOutside(s, t, c) == Some(s')
    ensures ActorOk(lim, s', t)
  {
    TestStep(lim, s, s.threads[t].op);
    OutsideShape(s, t, c, s');
  }

  lemma WaitKeepsActor(lim: Fifo.Limits, exact: bool, s: State, t: Tid, c: Choice, s': State)
    requires ActorOk(lim, s, t) && Waits(s.threads[t].pc)
    requires R.Shaped(s.ring) && ExecWait(exact, s, t, c) == Some(s')
    ensures ActorOk(lim, s', t)
  {
    WaitShape(exact, s, t, c, s');
  }

  lemma LoopKeepsActor(lim: Fifo.Limits, s: State, t: Tid, c: Choice, s': State)
    requires ActorOk(lim, s, t) && Owns(s.threads[t].pc)
    requires R.Shaped(s.ring) && ExecLoop(s, t, c) == Some(s')
    ensures ActorOk(lim, s', t)
  {
    TestStep(lim, s, s.threads[t].op);
  }

  /** What the push statement does to the queue and to its thread. */
  ghost predicate Inserts(s: State, t: Tid, s': State)
    requires R.Shaped(s.ring) && R.Shaped(s'.ring)
  {
    && t in s.threads && s.threads[t].pc.Insert? && s.threads[t].op.Write?
    && var op := s.threads[t].op;
    && R.QueueOf(s'.ring) == R.QueueOf(s.ring) + [Msg(Stored(op.data), op.uid, op.gid, s.threads[t].pc.stamp)]
    && StepShape(s, t, s')
    && s'.threads[t].pc == WakeReaders(Result(Ok(|op.data|), []))
  }

  lemma InsertEffect(lim: Fifo.Limits, s: State, t: Tid, c: Choice, s': State)
    requires ActorOk(lim, s, t) && s.threads[t].pc.Insert?
    requires R.Shaped(s.ring) && ExecWrite(s, t, c) == Some(s')
    ensures RingInv(lim, s') && Inserts(s, t, s')
  {
    InsertStep(lim, s, s.threads[t], s.threads[t].pc.stamp);
    WriteShape(s, t, c, s');
  }

  lemma WriteKeepsActor(lim: Fifo.Limits, s: State, t: Tid, c: Choice, s': State)
    requires ActorOk(lim, s, t) && Writing(s.threads[t].pc)
    requires R.Shaped(s.ring) && ExecWrite(s, t, c) == Some(s')
    ensures ActorOk(lim, s', t)
  {
    if s.threads[t].pc.Insert? {
      InsertEffect(lim, s, t, c, s');
    }
  }

  /** The message a read takes off the ring is held, in order, before what remains. */
  lemma TakingKeepsOwner(lim: Fifo.Limits, q: seq<Msg>, clock: Time, th: Thread)
    requires OwnerOk(lim, q, clock, th) && th.pc.Remove? && Fifo.Sorted(q) && q != []
    requires |q[0].payload| <= th.op.count && MayRead(th.op.uid, th.op.gid, q[0])
    requires forall m | m in q :: m.stamp <= clock
    ensures OwnerOk(lim, q[1..], clock, th.(pc := WakeWriters(q[0], ReadResult(q[0], th.op.count))))
  {
    assert [q[0]] + q[1..] == q;
  }

  /** What the pop statement does to the queue and to its thread. */
  ghost predicate Removes(lim: Fifo.Limits, s: State, t: Tid, s': State)
    requires R.Shaped(s.ring) && R.Shaped(s'.ring)
  {
    && t in s.threads && s.threads[t].pc.Remove? && s.threads[t].op.Read?
    && var th := s.threads[t];
    && var q := R.QueueOf(s.ring);
    && StepShape(s, t, s')
    && (if q == [] then
          && s'.ring == s.ring
          && s'.threads[t] == th.(pc := Unlock(Failed(ENODATA)))
        else if MayRead(th.op.uid, th.op.gid, q[0]) then
          && |q[0].payload| <= th.op.count
          && R.QueueOf(s'.ring) == q[1..]
          && s'.threads[t] == th.(pc := WakeWriters(q[0], ReadResult(q[0], th.op.count)))
        else
          && R.QueueOf(s'.ring) == q
          && s'.threads[t] == th.(pc := Unlock(Failed(EACCES))))
  }

  /** The pop statement, in terms of the ring operation it calls. */
  ghost predicate Pops(s: State, t: Tid, s': State)
    requires R.Shaped(s.ring)
  {
    && t in s.threads && s.threads[t].pc.Remove? && s.threads[t].op.Read?
    && StepShape(s, t, s')
    && var op := s.threads[t].op;
    && var o := R.Pop(s.ring, op.uid, op.gid);
    && |o.bytes| <= op.count
    && s'.ring == o.ring
    && s'.threads[t].pc == (if o.status.Fail? then Unlock(Result(o.status, []))
                            else WakeWriters(R.MsgAt(s.ring, s.ring.tail),
                                             Result(o.status, Padded(o.bytes, op.count))))
  }

  lemma RemoveExec(s: State, t: Tid, c: Choice, s': State)
    requires R.Shaped(s.ring) && t in s.threads && s.threads[t].pc.Remove?
    requires ExecRead(s, t, c) == Some(s')
    ensures Pops(s, t, s')
  {
    ReadShape(s, t, c, s');
  }

  lemma RemoveEffect(lim: Fifo.Limits, s: State, t: Tid, s': State)
    requires ActorOk(lim, s, t) && Pops(s, t, s')
    ensures RingInv(lim, s') && Removes(lim, s, t, s')
  {
    if R.QueueOf(s.ring) == [] {
      var op := s.threads[t].op;
      R.PopRefines(s.ring, op.uid, op.gid);
    } else {
      RemoveStep(lim, s, s.threads[t]);
    }
  }

  lemma RemoveKeepsThread(lim: Fifo.Limits, q: seq<Msg>, clock: Time, th: Thread)
    requires ThreadOk(lim, q, clock, th) && th.pc.Remove? && Fifo.Sorted(q)
    requires forall m | m in q :: m.stamp <= clock
    requires q != [] && MayRead(th.op.uid, th.op.gid, q[0]) ==> |q[0].payload| <= th.op.count
    ensures if q == [] then ThreadOk(lim, q, clock, th.(pc := Unlock(Failed(ENODATA))))
            else if MayRead(th.op.uid, th.op.gid, q[0])
            then ThreadOk(lim, q[1..], clock, th.(pc := WakeWriters(q[0], ReadResult(q[0], th.op.count))))
            else ThreadOk(lim, q, clock, th.(pc := Unlock(Failed(EACCES))))
  {
    if q != [] && MayRead(th.op.uid, th.op.gid, q[0]) {
      TakingKeepsOwner(lim, q, clock, th);
    }
  }

  lemma RemoveKeepsActor(lim: Fifo.Limits, s: State, t: Tid, s': State)
    requires ActorOk(lim, s, t) && RingInv(lim, s') && Removes(lim, s, t, s')
    ensures ActorOk(lim, s', t)
  {
    RemoveKeepsThread(lim, R.QueueOf(s.ring), s.clock, s.threads[t]);
  }

  lemma ReadKeepsActor(lim: Fifo.Limits, q: seq<Msg>, s: State, t: Tid, c: Choice, s': State)
    requires R.Shaped(s.ring) && t in s.threads && ThreadOk(lim, q, s.clock, s.threads[t])
    requires Reading(s.threads[t].pc) && !s.threads[t].pc.Remove? && ExecRead(s, t, c) == Some(s')
    ensures t in s'.threads && ThreadOk(lim, q, s.clock, s'.threads[t])
    ensures s'.ring == s.ring && s'.clock == s.clock
  {
  }

  /** One more expired message is held, in order, before what remains. */
  lemma DroppingKeepsOwner(lim: Fifo.Limits, q: seq<Msg>, clock: Time, th: Thread)
    requires OwnerOk(lim, q, clock, th) && th.pc.Sweep?
    requires q != [] && q[0].stamp < th.began <= clock && Fifo.Sorted(q)
    ensures OwnerOk(lim, q[1..], clock, th.(pc := Sweep(th.pc.dropped + [q[0]])))
  {
    assert (th.pc.dropped + [q[0]]) + q[1..] == th.pc.dropped + q;
  }

  /** What one iteration of the cleanup loop, or its exit, does to the queue and to its thread. */
  ghost predicate Sweeps(s: State, t: Tid, s': State)
    requires R.Shaped(s.ring) && R.Shaped(s'.ring)
  {
    && t in s.threads && s.threads[t].pc.Sweep?
    && var th := s.threads[t];
    && var q := R.QueueOf(s.ring);
    && StepShape(s, t, s')
    && (if q != [] && q[0].stamp < th.began then
          && R.QueueOf(s'.ring) == q[1..]
          && s'.threads[t] == th.(pc := Sweep(th.pc.dropped + [q[0]]))
        else
          && s'.ring == s.ring
          && s'.threads[t] == th.(pc := SweepWake(|th.pc.dropped|)))
  }

  lemma SweepEffect(lim: Fifo.Limits, s: State, t: Tid, c: Choice, s': State)
    requires ActorOk(lim, s, t) && s.threads[t].pc.Sweep?
    requires R.Shaped(s.ring) && ExecSweep(s, t, c) == Some(s')
    ensures RingInv(lim, s') && Sweeps(s, t, s')
  {
    SweepStep(lim, s, s.threads[t].began);
    SweepShape(s, t, c, s');
  }

  lemma SweepKeepsThread(lim: Fifo.Limits, q: seq<Msg>, clock: Time, th: Thread)
    requires ThreadOk(lim, q, clock, th) && th.pc.Sweep? && Fifo.Sorted(q)
    ensures if q != [] && q[0].stamp < th.began
            then ThreadOk(lim, q[1..], clock, th.(pc := Sweep(th.pc.dropped + [q[0]])))
            else ThreadOk(lim, q, clock, th.(pc := SweepWake(|th.pc.dropped|)))
  {
    if q != [] && q[0].stamp < th.began {
      DroppingKeepsOwner(lim, q, clock, th);
    }
  }

  lemma SweepKeepsActor(lim: Fifo.Limits, s: State, t: Tid, s': State)
    requires ActorOk(lim, s, t) && RingInv(lim, s') && Sweeps(s, t, s')
    ensures ActorOk(lim, s', t)
  {
    SweepKeepsThread(lim, R.QueueOf(s.ring), s.clock, s.threads[t]);
  }

  lemma SweepWakeKeepsActor(lim: Fifo.Limits, s: State, t: Tid, c: Choice, s': State)
    requires ActorOk(lim, s, t) && s.threads[t].pc.SweepWake?
    requires R.Shaped(s.ring) && ExecSweep(s, t, c) == Some(s')
    ensures ActorOk(lim, s', t)
  {
  }

  lemma ExecKeepsActor(lim: Fifo.Limits, exact: bool, s: State, t: Tid, c: Choice, s': State)
    requires ActorOk(lim, s, t)
    requires R.Shaped(s.ring) && Exec(exact, s, t, c) == Some(s')
    ensures ActorOk(lim, s', t)
  {
    var pc := s.threads[t].pc;
    if Waits(pc) { WaitKeepsActor(lim, exact, s, t, c, s'); }
    else if Writing(pc) { WriteKeepsActor(lim, s, t, c, s'); }
    else if pc.Remove? { RemoveExec(s, t, c, s'); RemoveEffect(lim, s, t, s'); RemoveKeepsActor(lim, s, t, s'); }
    else if Reading(pc) { ReadKeepsActor(lim, R.QueueOf(s.ring), s, t, c, s'); }
    else if pc.Sweep? { SweepEffect(lim, s, t, c, s'); SweepKeepsActor(lim, s, t, s'); }
    else if pc.SweepWake? { SweepWakeKeepsActor(lim, s, t, c, s'); }
    else if Owns(pc) { LoopKeepsActor(lim, s, t, c, s'); }
    else { OutsideKeepsActor(lim, s, t, c, s'); }
  }

  /** Nobody else's knowledge depends on what a step may change. */
  lemma OthersKept(lim: Fifo.Limits, s: State, t: Tid, s': State)
    requires MutexInv(s) && R.Shaped(s.ring) && R.Shaped(s'.ring) && ThreadsInv(lim, s)
    requires t in s.threads && StepShape(s, t, s')
    requires ThreadOk(lim, R.QueueOf(s'.ring), s'.clock, s'.threads[t])
    ensures ThreadsInv(lim, s')
  {
    forall u | u in s'.threads
      ensures ThreadOk(lim, R.QueueOf(s'.ring), s'.clock, s'.threads[u])
    {
      if u != t {
        assert s'.threads[u] == s.threads[u];
        assert ThreadOk(lim, R.QueueOf(s.ring), s.clock, s.threads[u]);
      }
    }
  }

  // ---------------------------------------------------------------- counters and wait queues

  lemma WaitingAfter(s: State, t: Tid, s': State, writers: bool)
    requires t in s.threads && StepShape(s, t, s')
    ensures Waiting(s', writers) ==
              if s.threads[t].op.Write? == writers && Waits(s'.threads[t].pc)
              then Waiting(s, writers) + {t} else Waiting(s, writers) - {t}
  {
  }

  /** What the waiting counters do is what the set of waiting threads does. */
  ghost predicate CountsStep(s: State, t: Tid, s': State)
    requires t in s.threads && t in s'.threads
  {
    var d := (if Waits(s'.threads[t].pc) then 1 else 0) - (if Waits(s.threads[t].pc) then 1 else 0);
    && s'.writerWaiting == s.writerWaiting + (if s.threads[t].op.Write? then d else 0)
    && s'.readerWaiting == s.readerWaiting + (if s.threads[t].op.Write? then 0 else d)
  }

  lemma ExecCounts(exact: bool, s: State, t: Tid, c: Choice, s': State)
    requires R.Shaped(s.ring) && t in s.threads && Exec(exact, s, t, c) == Some(s')
    requires StepShape(s, t, s') && (Owns(s.threads[t].pc) ==> HeldShape(s, t, s'))
    ensures CountsStep(s, t, s')
  {
    if !Owns(s.threads[t].pc) {
      OutsideCounts(exact, s, t, c, s');
    }
  }

  lemma OutsideCounts(exact: bool, s: State, t: Tid, c: Choice, s': State)
    requires R.Shaped(s.ring) && t in s.threads && Exec(exact, s, t, c) == Some(s')
    requires StepShape(s, t, s') && !Owns(s.threads[t].pc)
    ensures CountsStep(s, t, s')
  {
  }

  lemma CountersKept(s: State, t: Tid, s': State)
    requires t in s.threads && StepShape(s, t, s') && CountsStep(s, t, s') && CountersInv(s)
    ensures CountersInv(s')
  {
    WaitingAfter(s, t, s', false);
    WaitingAfter(s, t, s', true);
    assert t in Waiting(s, s.threads[t].op.Write?) <==> Waits(s.threads[t].pc);
  }

  /** What a step may do to the wait queues on behalf of its own thread only. */
  ghost predicate MovesOnly(s: State, t: Tid, s': State) {
    && s'.readerQ - {t} == s.readerQ - {t}
    && s'.writerQ - {t} == s.writerQ - {t}
    && s'.awake - {t} == s.awake - {t}
  }

  /** The part of `QueuesInv` about one thread. */
  ghost predicate QueuedRight(s: State, t: Tid)
    requires t in s.threads
  {
    var th := s.threads[t];
    && (t in s.readerQ ==> !th.op.Write? && MayBeQueued(th.pc))
    && (t in s.writerQ ==> th.op.Write? && MayBeQueued(th.pc))
    && (MaySleep(th.pc) ==> Registered(s, t) || t in s.awake)
    && (t in s.readerQ || t in s.writerQ ==> t !in s.awake)
  }

  lemma WaitMovesOnly(exact: bool, s: State, t: Tid, c: Choice, s': State)
    requires R.Shaped(s.ring) && t in s.threads && Waits(s.threads[t].pc)
    requires ExecWait(exact, s, t, c) == Some(s')
    ensures MovesOnly(s, t, s')
  {
  }

  lemma WaitQueuesRight(exact: bool, s: State, t: Tid, c: Choice, s': State)
    requires R.Shaped(s.ring) && t in s.threads && Waits(s.threads[t].pc) && QueuedRight(s, t)
    requires ExecWait(exact, s, t, c) == Some(s')
    ensures t in s'.threads && QueuedRight(s', t)
  {
  }

  lemma MovesKeepQueues(s: State, t: Tid, s': State)
    requires QueuesInv(s) && t in s.threads && StepShape(s, t, s')
    requires MovesOnly(s, t, s') && QueuedRight(s', t)
    ensures QueuesInv(s')
  {
    forall u | u in s'.readerQ
      ensures u in s'.threads && !s'.threads[u].op.Write? && MayBeQueued(s'.threads[u].pc)
    {
      assert u != t ==> u in s'.readerQ - {t};
    }
    forall u | u in s'.writerQ
      ensures u in s'.threads && s'.threads[u].op.Write? && MayBeQueued(s'.threads[u].pc)
    {
      assert u != t ==> u in s'.writerQ - {t};
    }
    forall u | u in s'.threads && MaySleep(s'.threads[u].pc)
      ensures Registered(s', u) || u in s'.awake
    {
      assert u != t && u in s.readerQ ==> u in s.readerQ - {t};
      assert u != t && u in s.writerQ ==> u in s.writerQ - {t};
      assert u != t && u in s.awake ==> u in s.awake - {t};
    }
    forall u | u in s'.awake
      ensures u !in s'.readerQ && u !in s'.writerQ
    {
      assert u != t ==> u in s'.awake - {t};
      assert u != t && u in s'.readerQ ==> u in s'.readerQ - {t};
      assert u != t && u in s'.writerQ ==> u in s'.writerQ - {t};
    }
  }

  lemma HeldKeepsQueues(s: State, t: Tid, s': State)
    requires QueuesInv(s) && t in s.threads && Owns(s.threads[t].pc) && HeldShape(s, t, s')
    ensures QueuesInv(s')
  {
    forall u | u in s'.awake
      ensures u !in s'.readerQ && u !in s'.writerQ
    {
    }
  }

  lemma ExecKeepsQueues(exact: bool, s: State, t: Tid, c: Choice, s': State)
    requires R.Shaped(s.ring) && t in s.threads && Exec(exact, s, t, c) == Some(s')
    requires QueuesInv(s)
    requires StepShape(s, t, s') && (Owns(s.threads[t].pc) ==> HeldShape(s, t, s'))
    ensures QueuesInv(s')
  {
    if Waits(s.threads[t].pc) {
      WaitMovesOnly(exact, s, t, c, s');
      WaitQueuesRight(exact, s, t, c, s');
      MovesKeepQueues(s, t, s');
    } else if Owns(s.threads[t].pc) {
      HeldKeepsQueues(s, t, s');
    } else {
      OutsideShape(s, t, c, s');
    }
  }

  // ---------------------------------------------------------------- what the recheck is for

  lemma OutsideKeepsGuard(exact: bool, s: State, t: Tid, c: Choice, s': State)
    requires R.Shaped(s.ring) && t in s.threads && !Owns(s.threads[t].pc)
    requires Guarded(R.QueueOf(s.ring), s.threads[t]) && Exec(exact, s, t, c) == Some(s')
    ensures s'.ring == s.ring && t in s'.threads && Guarded(R.QueueOf(s.ring), s'.threads[t])
  {
  }

  lemma LoopKeepsGuard(lim: Fifo.Limits, s: State, t: Tid, c: Choice, s': State)
    requires ActorOk(lim, s, t) && Guarded(R.QueueOf(s.ring), s.threads[t])
    requires ExecLoop(s, t, c) == Some(s')
    ensures s'.ring == s.ring && t in s'.threads && Guarded(R.QueueOf(s.ring), s'.threads[t])
  {
    TestStep(lim, s, s.threads[t].op);
  }

  lemma WriteKeepsGuard(lim: Fifo.Limits, s: State, t: Tid, c: Choice, s': State)
    requires ActorOk(lim, s, t) && Writing(s.threads[t].pc) && ExecWrite(s, t, c) == Some(s')
    ensures R.Shaped(s'.ring) && t in s'.threads && Guarded(R.QueueOf(s'.ring), s'.threads[t])
  {
    if s.threads[t].pc.Insert? {
      InsertEffect(lim, s, t, c, s');
    }
  }

  lemma ReadKeepsGuard(lim: Fifo.Limits, s: State, t: Tid, c: Choice, s': State)
    requires ActorOk(lim, s, t) && Reading(s.threads[t].pc) && ExecRead(s, t, c) == Some(s')
    requires Guarded(R.QueueOf(s.ring), s.threads[t])
    ensures R.Shaped(s'.ring) && t in s'.threads && Guarded(R.QueueOf(s'.ring), s'.threads[t])
  {
    if s.threads[t].pc.Remove? {
      RemoveExec(s, t, c, s');
      RemoveEffect(lim, s, t, s');
    }
  }

  lemma SweepKeepsGuard(s: State, t: Tid, c: Choice, s': State)
    requires R.Shaped(s.ring) && t in s.threads && Sweeping(s.threads[t].pc) && ExecSweep(s, t, c) == Some(s')
    ensures R.Shaped(s'.ring) && t in s'.threads && Guarded(R.QueueOf(s'.ring), s'.threads[t])
  {
  }

  lemma ExecKeepsGuard(lim: Fifo.Limits, exact: bool, s: State, t: Tid, c: Choice, s': State)
    requires ActorOk(lim, s, t) && Guarded(R.QueueOf(s.ring), s.threads[t])
    requires R.Shaped(s.ring) && Exec(exact, s, t, c) == Some(s')
    ensures R.Shaped(s'.ring) && t in s'.threads && Guarded(R.QueueOf(s'.ring), s'.threads[t])
  {
    var pc := s.threads[t].pc;
    if !Owns(pc) { OutsideKeepsGuard(exact, s, t, c, s'); }
    else if Writing(pc) { WriteKeepsGuard(lim, s, t, c, s'); }
    else if Reading(pc) { ReadKeepsGuard(lim, s, t, c, s'); }
    else if Sweeping(pc) { SweepKeepsGuard(s, t, c, s'); }
    else { LoopKeepsGuard(lim, s, t, c, s'); }
  }

  /** A thread that relies on the count holds the mutex, so nobody else touches the ring. */
  lemma OthersStayGuarded(s: State, t: Tid, s': State)
    requires MutexInv(s) && R.Shaped(s.ring) && R.Shaped(s'.ring) && GuardInv(s)
    requires t in s.threads && StepShape(s, t, s')
    requires Guarded(R.QueueOf(s'.ring), s'.threads[t])
    ensures GuardInv(s')
  {
    forall u | u in s'.threads
      ensures Guarded(R.QueueOf(s'.ring), s'.threads[u])
    {
      if u != t {
        assert s'.threads[u] == s.threads[u];
        assert Guarded(R.QueueOf(s.ring), s.threads[u]);
      }
    }
  }

  /** What the recheck under the mutex is for: a push that succeeds, a pop that finds a message. */
  predicate Rechecked(r: R.Ring, th: Thread)
    requires R.Shaped(r)
  {
    && (th.pc.Insert? ==>
          th.op.Write? && R.Push(r, th.op.data, th.op.uid, th.op.gid, th.pc.stamp).status == Ok(|th.op.data|))
    && (th.pc.Remove? ==> th.op.Read? && R.Pop(r, th.op.uid, th.op.gid).status != Fail(ENODATA))
    && (th.pc.Finished? ==>
          th.pc.res.status.Fail? ==> th.pc.res.status.error !in {ENOSPC, EMSGSIZE, ENODATA})
  }

  lemma RecheckedThread(lim: Fifo.Limits, s: State, th: Thread)
    requires RingInv(lim, s) && ThreadOk(lim, R.QueueOf(s.ring), s.clock, th)
    requires Guarded(R.QueueOf(s.ring), th)
    ensures Rechecked(s.ring, th)
  {
    if th.pc.Insert? {
      InsertStep(lim, s, th, th.pc.stamp);
    } else if th.pc.Remove? {
      RemoveStep(lim, s, th);
    }
  }

  // ---------------------------------------------------------------- every step

  lemma ExecKeepsStable(lim: Fifo.Limits, exact: bool, s: State, t: Tid, c: Choice, s': State)
    requires Stable(lim, s) && R.Shaped(s.ring) && t in s.threads && Exec(exact, s, t, c) == Some(s')
    ensures Stable(lim, s')
  {
    ExecShape(exact, s, t, c, s');
    MutexKept(s, t, s');
    ExecKeepsActor(lim, exact, s, t, c, s');
    OthersKept(lim, s, t, s');
    ExecCounts(exact, s, t, c, s');
    CountersKept(s, t, s');
    ExecKeepsQueues(exact, s, t, c, s');
  }

  /** Time passing, a call starting and a call returning. */
  ghost predicate OtherShape(s: State, s': State) {
    && s' == s.(clock := s'.clock, threads := s'.threads)
    && s.clock <= s'.clock
    && (forall t | t in s'.threads && t in s.threads :: s'.threads[t] == s.threads[t])
    && (forall t | t in s'.threads && t !in s.threads ::
          s'.threads[t].pc == Start && s'.threads[t].began <= s'.clock)
    && (forall t | t in s.threads && t !in s'.threads :: s.threads[t].pc.Finished?)
  }

  lemma OtherEventsShape(exact: bool, s: State, e: Event, s': State)
    requires Next(exact, s, e, s') && !e.Do?
    ensures OtherShape(s, s')
  {
  }

  lemma OtherEventsKeepWaiting(s: State, s': State)
    requires OtherShape(s, s') && CountersInv(s) && QueuesInv(s)
    ensures CountersInv(s') && QueuesInv(s')
  {
    assert Waiting(s', false) == Waiting(s, false);
    assert Waiting(s', true) == Waiting(s, true);
  }

  lemma OtherEventsKeepThreads(lim: Fifo.Limits, s: State, s': State)
    requires R.Shaped(s.ring) && s.ring.dataSize == lim.dataSize
    requires OtherShape(s, s') && MutexInv(s) && ThreadsInv(lim, s)
    ensures MutexInv(s') && ThreadsInv(lim, s')
  {
    forall t | t in s'.threads
      ensures ThreadOk(lim, R.QueueOf(s.ring), s'.clock, s'.threads[t])
    {
      assert t in s.threads ==> ThreadOk(lim, R.QueueOf(s.ring), s.clock, s.threads[t]);
    }
  }

  lemma StepKeepsStable(lim: Fifo.Limits, exact: bool, s: State, e: Event, s': State)
    requires Stable(lim, s) && Next(exact, s, e, s')
    ensures Stable(lim, s')
  {
    if e.Do? {
      ExecKeepsStable(lim, exact, s, e.t, e.choice, s');
    } else {
      OtherEventsShape(exact, s, e, s');
      OtherEventsKeepWaiting(s, s');
      OtherEventsKeepThreads(lim, s, s');
    }
  }

  lemma StepKeepsGuardInv(lim: Fifo.Limits, exact: bool, s: State, e: Event, s': State)
    requires Stable(lim, s) && GuardInv(s) && R.Shaped(s'.ring) && Next(exact, s, e, s')
    ensures GuardInv(s')
  {
    if e.Do? {
      assert ThreadOk(lim, R.QueueOf(s.ring), s.clock, s.threads[e.t]);
      ExecShape(exact, s, e.t, e.choice, s');
      ExecKeepsGuard(lim, exact, s, e.t, e.choice, s');
      OthersStayGuarded(s, e.t, s');
    } else {
      OtherEventsShape(exact, s, e, s');
    }
  }

  lemma StepKeepsInv(lim: Fifo.Limits, exact: bool, s: State, e: Event, s': State)
    requires Inv(lim, s) && Next(exact, s, e, s')
    ensures Inv(lim, s')
  {
    StepKeepsStable(lim, exact, s, e, s');
    StepKeepsGuardInv(lim, exact, s, e, s');
  }

  ghost function LimitsOf(s: State): Fifo.Limits {
    Fifo.Limits(s.ring.capacity, s.ring.dataSize)
  }

  lemma {:induction false} RunKeepsInv(exact: bool, ss: seq<State>, es: seq<Event>, n: nat)
    requires IsRun(exact, ss, es) && n <= |es|
    ensures Inv(LimitsOf(ss[0]), ss[n])
  {
    if n == 0 {
      InitInv(ss[0]);
    } else {
      RunKeepsInv(exact, ss, es, n - 1);
      assert StepAt(exact, ss, es, n - 1);
      StepKeepsInv(LimitsOf(ss[0]), exact, ss[n - 1], es[n - 1], ss[n]);
    }
  }
}
