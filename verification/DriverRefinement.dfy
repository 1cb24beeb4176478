/**
 Every step of the driver is a stutter or exactly one step of the atomic pipe. A read takes effect
 at its copy to the user and a cleanup at the end of its loop, so the messages such a call has
 already taken off the ring still count as queued until then.
 */
module DriverRefinement {
  import opened Messages
  import opened Calls
  import opened Driver
  import opened DriverInvariants
  import R = RingStore
  import A = AtomicPipe
  import Fifo

  /** Once the guard was true, a non-blocking call can only return -EAGAIN. */
  function AfterTest(th: Thread): A.Call {
    if !th.op.Cleanup? && th.op.nonblock then A.Done(th.op, Failed(EAGAIN))
    else A.Pending(th.op, th.began)
  }

  function AbsCall(th: Thread): A.Call {
    match th.pc
    case WakeReaders(res) => A.Done(th.op, res)
    case Unlock(res) => A.Done(th.op, res)
    case Finished(res) => A.Done(th.op, res)
    case SweepWake(_) => A.Done(th.op, Result(Ok(0), []))
    case Release => AfterTest(th)
    case Block => AfterTest(th)
    case _ => A.Pending(th.op, th.began)
  }

  /** Messages off the ring whose removal has not taken effect. */
  function Limbo(s: State): seq<Msg> {
    if s.owner.Some? && s.owner.value in s.threads then Held(s.threads[s.owner.value].pc) else []
  }

  ghost function Abs(s: State): A.Pipe
    requires R.Shaped(s.ring)
  {
    A.Pipe(Limbo(s) + R.QueueOf(s.ring), map t | t in s.threads :: AbsCall(s.threads[t]), s.clock)
  }

  /** The atomic step that an event of the driver performs. */
  ghost function LabelOf(s: State, e: Event): A.Label
    requires R.Shaped(s.ring)
  {
    match e
    case Tick(_) => A.Tick
    case Begin(t, op) => A.Invoke(t, op)
    case End(t) =>
      if t in s.threads && s.threads[t].pc.Finished? then A.Return(t, s.threads[t].pc.res) else A.Idle
    case Do(t, c) => if t in s.threads then LabelOfDo(s, t, c) else A.Idle
  }

  ghost function LabelOfDo(s: State, t: Tid, c: Choice): A.Label
    requires R.Shaped(s.ring) && t in s.threads
  {
    var op := s.threads[t].op;
    match s.threads[t].pc
    case Start =>
      if TooLarge(s.ring.dataSize, op) then A.Abort(t, EINVAL)
      else if c.NoMemory? then A.Abort(t, ENOMEM)
      else A.Idle
    case Lock => if c.Signal? then A.Abort(t, ERESTARTSYS) else A.Idle
    case Leave(interrupted) => if interrupted then A.Abort(t, ERESTARTSYS) else A.Idle
    case Test => if !op.Cleanup? && op.nonblock && MustWait(s.ring, op) then A.WouldBlock(t) else A.Idle
    case CopyIn(_) => if c.Fault? then A.Abort(t, EFAULT) else A.Idle
    case Insert(x) => if op.Write? then A.Enqueue(t, Msg(Stored(op.data), op.uid, op.gid, x)) else A.Idle
    case Remove => if op.Read? && R.Pop(s.ring, op.uid, op.gid).status.Fail? then A.Refuse(t) else A.Idle
    case CopyOut(m, _) => A.Dequeue(t, m, !c.Fault?)
    case Sweep(dropped) => if R.Expirable(s.ring, s.threads[t].began) then A.Idle else A.Expire(t, dropped)
    case _ => A.Idle
  }

  // ---------------------------------------------------------------- how a step changes the abstraction

  lemma CallsAfter(s: State, t: Tid, s': State)
    requires R.Shaped(s.ring) && R.Shaped(s'.ring) && t in s.threads && StepShape(s, t, s')
    ensures Abs(s').calls == Abs(s).calls[t := AbsCall(s'.threads[t])]
    ensures Abs(s').clock == Abs(s).clock
  {
  }

  lemma LimboAfter(s: State, t: Tid, s': State)
    requires MutexInv(s) && t in s.threads && StepShape(s, t, s')
    ensures Owns(s.threads[t].pc) ==> Limbo(s) == Held(s.threads[t].pc)
    ensures Owns(s.threads[t].pc) ==> Limbo(s') == Held(s'.threads[t].pc)
    ensures !Owns(s.threads[t].pc) && Held(s'.threads[t].pc) == [] ==> Limbo(s') == Limbo(s)
  {
  }

  /** A step that moves no message and leaves the call where it was is a stutter. */
  ghost predicate Stutters(s: State, t: Tid, s': State)
    requires R.Shaped(s.ring) && R.Shaped(s'.ring) && t in s.threads && t in s'.threads
  {
    && Abs(s').queue == Abs(s).queue
    && AbsCall(s'.threads[t]) == AbsCall(s.threads[t])
  }

  lemma StutterIsIdle(s: State, t: Tid, s': State)
    requires R.Shaped(s.ring) && R.Shaped(s'.ring) && t in s.threads && StepShape(s, t, s')
    requires Stutters(s, t, s')
    ensures Abs(s') == Abs(s)
  {
    CallsAfter(s, t, s');
    assert Abs(s').calls == Abs(s).calls;
  }

  /** A step after which the call has its result is the atomic step that fixes it. */
  lemma FinishesCall(s: State, t: Tid, s': State, res: Result)
    requires R.Shaped(s.ring) && R.Shaped(s'.ring) && t in s.threads && StepShape(s, t, s')
    requires AbsCall(s'.threads[t]) == A.Done(s.threads[t].op, res)
    ensures t in Abs(s).calls && Abs(s).calls[t].op == s.threads[t].op
    ensures Abs(s') == A.Finish(Abs(s), t, Abs(s').queue, res)
  {
    CallsAfter(s, t, s');
  }

  lemma QueueUntouched(s: State, t: Tid, s': State)
    requires MutexInv(s) && t in s.threads && StepShape(s, t, s')
    requires R.Shaped(s.ring) && s'.ring == s.ring
    requires Held(s'.threads[t].pc) == Held(s.threads[t].pc) == []
    ensures Abs(s').queue == Abs(s).queue
  {
    LimboAfter(s, t, s');
  }

  // ---------------------------------------------------------------- phase by phase

  /** The refinement of one step of thread `t`. */
  ghost predicate Refines(lim: Fifo.Limits, s: State, t: Tid, c: Choice, s': State)
    requires R.Shaped(s.ring) && R.Shaped(s'.ring) && t in s.threads
  {
    A.Step(lim, Abs(s), LabelOfDo(s, t, c), Abs(s'))
  }

  /** A step without the ring either aborts the call or leaves it where it was. */
  ghost predicate Aside(s: State, t: Tid, s': State, lab: A.Label) {
    && t in s.threads && StepShape(s, t, s') && s'.ring == s.ring
    && Held(s'.threads[t].pc) == Held(s.threads[t].pc) == []
    && (if lab.Abort? then
          && lab.t == t
          && AbsCall(s.threads[t]) == A.Pending(s.threads[t].op, s.threads[t].began)
          && AbsCall(s'.threads[t]) == A.Done(s.threads[t].op, Failed(lab.e))
        else lab.Idle? && AbsCall(s'.threads[t]) == AbsCall(s.threads[t]))
  }

  /** An abort that needs no look at the queue. */
  predicate Excused(dataSize: nat, op: Op, e: Errno) {
    || e == ERESTARTSYS
    || (e == EINVAL && TooLarge(dataSize, op))
    || (e == ENOMEM && !op.Cleanup?)
  }

  lemma OutsideIsAside(s: State, t: Tid, c: Choice, s': State)
    requires R.Shaped(s.ring) && t in s.threads && !Owns(s.threads[t].pc)
    requires ExecOutside(s, t, c) == Some(s')
    ensures var lab := LabelOfDo(s, t, c);
      Aside(s, t, s', lab) && (lab.Abort? ==> Excused(s.ring.dataSize, s.threads[t].op, lab.e))
  {
    OutsideShape(s, t, c, s');
  }

  lemma WaitIsAside(exact: bool, s: State, t: Tid, c: Choice, s': State)
    requires R.Shaped(s.ring) && t in s.threads && Waits(s.threads[t].pc)
    requires ExecWait(exact, s, t, c) == Some(s')
    ensures var lab := LabelOfDo(s, t, c);
      Aside(s, t, s', lab) && (lab.Abort? ==> Excused(s.ring.dataSize, s.threads[t].op, lab.e))
  {
    WaitShape(exact, s, t, c, s');
  }

  lemma AsideRefines(lim: Fifo.Limits, s: State, t: Tid, s': State, lab: A.Label)
    requires MutexInv(s) && R.Shaped(s.ring) && s.ring.dataSize == lim.dataSize
    requires Aside(s, t, s', lab)
    requires lab.Abort? ==> Excused(lim.dataSize, s.threads[t].op, lab.e)
    ensures A.Step(lim, Abs(s), lab, Abs(s'))
  {
    QueueUntouched(s, t, s');
    if lab.Abort? {
      FinishesCall(s, t, s', Failed(lab.e));
    } else {
      StutterIsIdle(s, t, s');
    }
  }

  /** The loop guard turns a non-blocking call away. */
  predicate TurnsAway(s: State, t: Tid)
    requires R.Shaped(s.ring) && t in s.threads
  {
    var op := s.threads[t].op;
    s.threads[t].pc.Test? && !op.Cleanup? && op.nonblock && MustWait(s.ring, op)
  }

  /** The loop guard decides a non-blocking call; the unlocks are invisible. */
  ghost predicate Loops(s: State, t: Tid, s': State)
    requires R.Shaped(s.ring)
  {
    && t in s.threads && t in s'.threads && StepShape(s, t, s') && s'.ring == s.ring
    && Held(s'.threads[t].pc) == Held(s.threads[t].pc) == []
    && (if TurnsAway(s, t) then AbsCall(s'.threads[t]) == A.Done(s.threads[t].op, Failed(EAGAIN))
        else AbsCall(s'.threads[t]) == AbsCall(s.threads[t]))
  }

  lemma LoopEffect(lim: Fifo.Limits, s: State, t: Tid, c: Choice, s': State)
    requires R.Shaped(s.ring) && t in s.threads && ThreadOk(lim, R.QueueOf(s.ring), s.clock, s.threads[t])
    requires ExecLoop(s, t, c) == Some(s')
    ensures Loops(s, t, s')
    ensures LabelOfDo(s, t, c) == if TurnsAway(s, t) then A.WouldBlock(t) else A.Idle
  {
    LoopShape(s, t, c, s');
  }

  lemma LoopTurnsAway(lim: Fifo.Limits, s: State, t: Tid, s': State)
    requires MutexInv(s) && R.Shaped(s.ring) && Loops(s, t, s') && TurnsAway(s, t)
    requires if s.threads[t].op.Write? then |R.QueueOf(s.ring)| == lim.capacity else R.QueueOf(s.ring) == []
    requires !TooLarge(lim.dataSize, s.threads[t].op)
    ensures A.Step(lim, Abs(s), A.WouldBlock(t), Abs(s'))
  {
    QueueUntouched(s, t, s');
    LimboAfter(s, t, s');
    assert Abs(s).queue == R.QueueOf(s.ring);
    FinishesCall(s, t, s', Failed(EAGAIN));
  }

  lemma LoopStutters(s: State, t: Tid, s': State)
    requires MutexInv(s) && R.Shaped(s.ring) && Loops(s, t, s') && !TurnsAway(s, t)
    ensures Abs(s') == Abs(s)
  {
    QueueUntouched(s, t, s');
    StutterIsIdle(s, t, s');
  }

  lemma InsertRefines(lim: Fifo.Limits, s: State, t: Tid, s': State)
    requires R.Shaped(s.ring) && R.Shaped(s'.ring) && MutexInv(s) && Inserts(s, t, s')
    requires ThreadOk(lim, R.QueueOf(s.ring), s.clock, s.threads[t])
    ensures var th := s.threads[t];
      A.Step(lim, Abs(s), A.Enqueue(t, Msg(Stored(th.op.data), th.op.uid, th.op.gid, th.pc.stamp)), Abs(s'))
  {
    var th := s.threads[t];
    LimboAfter(s, t, s');
    assert Abs(s).queue == R.QueueOf(s.ring);
    assert Abs(s').queue == R.QueueOf(s'.ring);
    FinishesCall(s, t, s', Result(Ok(|th.op.data|), []));
  }

  /** Before and after the push, a write only moves its program counter or fails to copy. */
  ghost predicate Writes(lim: Fifo.Limits, s: State, t: Tid, c: Choice, s': State)
    requires R.Shaped(s.ring)
  {
    && t in s.threads && StepShape(s, t, s') && s'.ring == s.ring
    && Held(s'.threads[t].pc) == Held(s.threads[t].pc) == []
    && Owns(s.threads[t].pc)
    && (if s.threads[t].pc.CopyIn? && c.Fault? then
          && s.threads[t].op.Write? && |R.QueueOf(s.ring)| < lim.capacity
          && AbsCall(s'.threads[t]) == A.Done(s.threads[t].op, Failed(EFAULT))
        else AbsCall(s'.threads[t]) == AbsCall(s.threads[t]))
  }

  lemma WriteEffect(lim: Fifo.Limits, s: State, t: Tid, c: Choice, s': State)
    requires R.Shaped(s.ring) && t in s.threads && ThreadOk(lim, R.QueueOf(s.ring), s.clock, s.threads[t])
    requires Writing(s.threads[t].pc) && !s.threads[t].pc.Insert? && ExecWrite(s, t, c) == Some(s')
    ensures Writes(lim, s, t, c, s')
  {
    WriteShape(s, t, c, s');
  }

  lemma WriteRefines(lim: Fifo.Limits, s: State, t: Tid, c: Choice, s': State)
    requires MutexInv(s) && R.Shaped(s.ring) && Writes(lim, s, t, c, s')
    requires !TooLarge(lim.dataSize, s.threads[t].op)
    ensures A.Step(lim, Abs(s),
                   if s.threads[t].pc.CopyIn? && c.Fault? then A.Abort(t, EFAULT) else A.Idle, Abs(s'))
  {
    QueueUntouched(s, t, s');
    LimboAfter(s, t, s');
    assert Abs(s).queue == R.QueueOf(s.ring);
    if s.threads[t].pc.CopyIn? && c.Fault? {
      FinishesCall(s, t, s', Failed(EFAULT));
    } else {
      StutterIsIdle(s, t, s');
    }
  }

  /** Taken or refused, the oldest message is still in front of the queue seen from outside. */
  lemma RemoveKeepsQueue(lim: Fifo.Limits, s: State, t: Tid, s': State)
    requires R.Shaped(s.ring) && R.Shaped(s'.ring) && MutexInv(s) && Removes(lim, s, t, s')
    requires R.QueueOf(s.ring) != []
    ensures Abs(s').queue == Abs(s).queue == R.QueueOf(s.ring)
  {
    var q := R.QueueOf(s.ring);
    LimboAfter(s, t, s');
    assert [q[0]] + q[1..] == q;
  }

  lemma RefuseRefines(lim: Fifo.Limits, s: State, t: Tid, s': State)
    requires R.Shaped(s.ring) && R.Shaped(s'.ring) && t in s.threads && StepShape(s, t, s')
    requires s.threads[t].pc.Remove? && s.threads[t].op.Read? && s'.threads[t].pc == Unlock(Failed(EACCES))
    requires Abs(s').queue == Abs(s).queue != []
    requires !MayRead(s.threads[t].op.uid, s.threads[t].op.gid, Abs(s).queue[0])
    requires !TooLarge(lim.dataSize, s.threads[t].op)
    ensures A.Step(lim, Abs(s), A.Refuse(t), Abs(s'))
  {
    FinishesCall(s, t, s', Failed(EACCES));
  }

  lemma RemoveRefines(lim: Fifo.Limits, s: State, t: Tid, s': State)
    requires R.Shaped(s.ring) && R.Shaped(s'.ring) && MutexInv(s) && Removes(lim, s, t, s')
    requires R.QueueOf(s.ring) != []
    requires !TooLarge(lim.dataSize, s.threads[t].op)
    ensures var op := s.threads[t].op;
      A.Step(lim, Abs(s), if MayRead(op.uid, op.gid, R.QueueOf(s.ring)[0]) then A.Idle else A.Refuse(t), Abs(s'))
  {
    RemoveKeepsQueue(lim, s, t, s');
    if MayRead(s.threads[t].op.uid, s.threads[t].op.gid, R.QueueOf(s.ring)[0]) {
      StutterIsIdle(s, t, s');
    } else {
      RefuseRefines(lim, s, t, s');
    }
  }

  lemma WakeWritersRefines(lim: Fifo.Limits, s: State, t: Tid, c: Choice, s': State)
    requires MutexInv(s) && R.Shaped(s.ring) && R.Shaped(s'.ring) && t in s.threads
    requires s.threads[t].pc.WakeWriters? && ExecRead(s, t, c) == Some(s')
    ensures Refines(lim, s, t, c, s')
  {
    ReadShape(s, t, c, s');
    LimboAfter(s, t, s');
    StutterIsIdle(s, t, s');
  }

  /** The copy to the user: the held message leaves the queue, delivered or lost. */
  ghost predicate Delivers(s: State, t: Tid, s': State, copied: bool) {
    && t in s.threads && StepShape(s, t, s') && s'.ring == s.ring
    && s.threads[t].pc.CopyOut? && s.threads[t].op.Read?
    && s'.threads[t].pc == Unlock(if copied then s.threads[t].pc.res else Failed(EFAULT))
  }

  lemma CopyOutDelivers(s: State, t: Tid, c: Choice, s': State)
    requires R.Shaped(s.ring) && t in s.threads && s.threads[t].pc.CopyOut? && s.threads[t].op.Read?
    requires ExecRead(s, t, c) == Some(s')
    ensures Delivers(s, t, s', !c.Fault?)
  {
    ReadShape(s, t, c, s');
  }

  lemma CopyOutRefines(lim: Fifo.Limits, s: State, t: Tid, s': State, copied: bool)
    requires MutexInv(s) && R.Shaped(s.ring) && Delivers(s, t, s', copied)
    requires OwnerOk(lim, R.QueueOf(s.ring), s.clock, s.threads[t])
    requires !TooLarge(lim.dataSize, s.threads[t].op)
    ensures A.Step(lim, Abs(s), A.Dequeue(t, s.threads[t].pc.m, copied), Abs(s'))
  {
    var th, q := s.threads[t], R.QueueOf(s.ring);
    LimboAfter(s, t, s');
    assert Abs(s).queue == [th.pc.m] + q;
    assert Abs(s').queue == ([th.pc.m] + q)[1..];
    FinishesCall(s, t, s', if copied then th.pc.res else Failed(EFAULT));
  }

  lemma SweepRefines(lim: Fifo.Limits, s: State, t: Tid, s': State)
    requires R.Shaped(s.ring) && R.Shaped(s'.ring) && MutexInv(s) && Sweeps(s, t, s')
    requires OwnerOk(lim, R.QueueOf(s.ring), s.clock, s.threads[t]) && Fifo.Sorted(R.QueueOf(s.ring))
    ensures var th := s.threads[t]; var q := R.QueueOf(s.ring);
      A.Step(lim, Abs(s),
             if q != [] && q[0].stamp < th.began then A.Idle else A.Expire(t, th.pc.dropped), Abs(s'))
  {
    var th, q := s.threads[t], R.QueueOf(s.ring);
    if q != [] && q[0].stamp < th.began {
      SweepDropStutters(s, t, s');
    } else {
      SweepEndRefines(lim, s, t, s');
    }
  }

  lemma SweepDropStutters(s: State, t: Tid, s': State)
    requires R.Shaped(s.ring) && R.Shaped(s'.ring) && MutexInv(s) && Sweeps(s, t, s')
    requires R.QueueOf(s.ring) != [] && R.QueueOf(s.ring)[0].stamp < s.threads[t].began
    ensures Abs(s') == Abs(s)
  {
    var dropped, q := s.threads[t].pc.dropped, R.QueueOf(s.ring);
    LimboAfter(s, t, s');
    assert (dropped + [q[0]]) + q[1..] == dropped + q;
    StutterIsIdle(s, t, s');
  }

  lemma SweepEndRefines(lim: Fifo.Limits, s: State, t: Tid, s': State)
    requires R.Shaped(s.ring) && MutexInv(s) && t in s.threads && StepShape(s, t, s')
    requires s.threads[t].pc.Sweep? && s.threads[t].op.Cleanup?
    requires s'.ring == s.ring && s'.threads[t] == s.threads[t].(pc := SweepWake(|s.threads[t].pc.dropped|))
    requires forall m | m in s.threads[t].pc.dropped :: m.stamp < s.threads[t].began
    requires forall m | m in R.QueueOf(s.ring) :: s.threads[t].began <= m.stamp
    ensures A.Step(lim, Abs(s), A.Expire(t, s.threads[t].pc.dropped), Abs(s'))
  {
    var th, q := s.threads[t], R.QueueOf(s.ring);
    LimboAfter(s, t, s');
    Fifo.FreshAfterExpired(th.pc.dropped, q, th.began);
    assert Abs(s').queue == q;
    FinishesCall(s, t, s', Result(Ok(0), []));
  }

  lemma SweepWakeRefines(lim: Fifo.Limits, s: State, t: Tid, c: Choice, s': State)
    requires MutexInv(s) && R.Shaped(s.ring) && R.Shaped(s'.ring) && t in s.threads && s.threads[t].pc.SweepWake?
    requires ExecSweep(s, t, c) == Some(s')
    ensures Refines(lim, s, t, c, s')
  {
    SweepShape(s, t, c, s');
    QueueUntouched(s, t, s');
    StutterIsIdle(s, t, s');
  }

  lemma RemovePhase(lim: Fifo.Limits, s: State, t: Tid, c: Choice, s': State)
    requires MutexInv(s) && ActorOk(lim, s, t) && s.threads[t].pc.Remove? && R.QueueOf(s.ring) != []
    requires R.Shaped(s.ring) && R.Shaped(s'.ring) && ExecRead(s, t, c) == Some(s')
    ensures Refines(lim, s, t, c, s')
  {
    RemoveExec(s, t, c, s');
    RemoveEffect(lim, s, t, s');
    RemoveStep(lim, s, s.threads[t]);
    RemoveRefines(lim, s, t, s');
  }

  lemma SweepPhase(lim: Fifo.Limits, s: State, t: Tid, c: Choice, s': State)
    requires MutexInv(s) && ActorOk(lim, s, t) && s.threads[t].pc.Sweep?
    requires R.Shaped(s.ring) && R.Shaped(s'.ring) && ExecSweep(s, t, c) == Some(s')
    ensures Refines(lim, s, t, c, s')
  {
    SweepEffect(lim, s, t, c, s');
    SweepStep(lim, s, s.threads[t].began);
    SweepRefines(lim, s, t, s');
  }

  lemma WritePhase(lim: Fifo.Limits, s: State, t: Tid, c: Choice, s': State)
    requires MutexInv(s) && ActorOk(lim, s, t) && Writing(s.threads[t].pc)
    requires R.Shaped(s.ring) && R.Shaped(s'.ring) && ExecWrite(s, t, c) == Some(s')
    ensures Refines(lim, s, t, c, s')
  {
    if s.threads[t].pc.Insert? {
      InsertEffect(lim, s, t, c, s');
      InsertRefines(lim, s, t, s');
    } else {
      WriteEffect(lim, s, t, c, s');
      WriteRefines(lim, s, t, c, s');
    }
  }

  lemma ReadPhase(lim: Fifo.Limits, s: State, t: Tid, c: Choice, s': State)
    requires MutexInv(s) && ActorOk(lim, s, t) && Reading(s.threads[t].pc)
    requires Guarded(R.QueueOf(s.ring), s.threads[t])
    requires R.Shaped(s.ring) && R.Shaped(s'.ring) && ExecRead(s, t, c) == Some(s')
    ensures Refines(lim, s, t, c, s')
  {
    if s.threads[t].pc.Remove? {
      RemovePhase(lim, s, t, c, s');
    } else if s.threads[t].pc.WakeWriters? {
      WakeWritersRefines(lim, s, t, c, s');
    } else {
      CopyOutDelivers(s, t, c, s');
      CopyOutRefines(lim, s, t, s', !c.Fault?);
    }
  }

  lemma LoopPhase(lim: Fifo.Limits, s: State, t: Tid, c: Choice, s': State)
    requires MutexInv(s) && ActorOk(lim, s, t)
    requires R.Shaped(s.ring) && R.Shaped(s'.ring) && ExecLoop(s, t, c) == Some(s')
    ensures Refines(lim, s, t, c, s')
  {
    LoopEffect(lim, s, t, c, s');
    if TurnsAway(s, t) {
      TestStep(lim, s, s.threads[t].op);
      LoopTurnsAway(lim, s, t, s');
    } else {
      LoopStutters(s, t, s');
    }
  }

  lemma AsidePhase(lim: Fifo.Limits, exact: bool, s: State, t: Tid, c: Choice, s': State)
    requires MutexInv(s) && ActorOk(lim, s, t) && !Owns(s.threads[t].pc)
    requires R.Shaped(s.ring) && R.Shaped(s'.ring) && Exec(exact, s, t, c) == Some(s')
    ensures Refines(lim, s, t, c, s')
  {
    if Waits(s.threads[t].pc) {
      WaitIsAside(exact, s, t, c, s');
    } else {
      OutsideIsAside(s, t, c, s');
    }
    AsideRefines(lim, s, t, s', LabelOfDo(s, t, c));
  }

  lemma ExecRefines(lim: Fifo.Limits, exact: bool, s: State, t: Tid, c: Choice, s': State)
    requires MutexInv(s) && ActorOk(lim, s, t) && R.Shaped(s.ring) && R.Shaped(s'.ring)
    requires Guarded(R.QueueOf(s.ring), s.threads[t])
    requires Exec(exact, s, t, c) == Some(s')
    ensures Refines(lim, s, t, c, s')
  {
    var pc := s.threads[t].pc;
    if !Owns(pc) { AsidePhase(lim, exact, s, t, c, s'); }
    else if Writing(pc) { WritePhase(lim, s, t, c, s'); }
    else if Reading(pc) { ReadPhase(lim, s, t, c, s'); }
    else if pc.Sweep? { SweepPhase(lim, s, t, c, s'); }
    else if pc.SweepWake? { SweepWakeRefines(lim, s, t, c, s'); }
    else { LoopPhase(lim, s, t, c, s'); }
  }

  lemma BeginRefines(lim: Fifo.Limits, exact: bool, s: State, t: Tid, op: Op, s': State)
    requires MutexInv(s) && Next(exact, s, Begin(t, op), s')
    ensures A.Step(lim, Abs(s), A.Invoke(t, op), Abs(s'))
  {
    assert Limbo(s') == Limbo(s);
    assert Abs(s').calls == Abs(s).calls[t := A.Pending(op, s.clock)];
  }

  lemma EndRefines(lim: Fifo.Limits, exact: bool, s: State, t: Tid, s': State)
    requires MutexInv(s) && Next(exact, s, End(t), s')
    ensures A.Step(lim, Abs(s), A.Return(t, s.threads[t].pc.res), Abs(s'))
  {
    assert Limbo(s') == Limbo(s);
    assert Abs(s').calls == Abs(s).calls - {t};
  }

  lemma OtherEventsRefine(lim: Fifo.Limits, exact: bool, s: State, e: Event, s': State)
    requires MutexInv(s) && Next(exact, s, e, s') && !e.Do?
    ensures A.Step(lim, Abs(s), LabelOf(s, e), Abs(s'))
  {
    match e
    case Tick(to) =>
    case Begin(t, op) => BeginRefines(lim, exact, s, t, op, s');
    case End(t) => EndRefines(lim, exact, s, t, s');
  }

  /** One step of the driver is one step, possibly idle, of the atomic pipe. */
  lemma StepRefines(lim: Fifo.Limits, exact: bool, s: State, e: Event, s': State)
    requires Inv(lim, s) && Next(exact, s, e, s')
    ensures R.Shaped(s'.ring) && A.Step(lim, Abs(s), LabelOf(s, e), Abs(s'))
  {
    StepKeepsInv(lim, exact, s, e, s');
    if e.Do? {
      assert ThreadOk(lim, R.QueueOf(s.ring), s.clock, s.threads[e.t]);
      assert Guarded(R.QueueOf(s.ring), s.threads[e.t]);
      ExecRefines(lim, exact, s, e.t, e.choice, s');
    } else {
      OtherEventsRefine(lim, exact, s, e, s');
    }
  }

  // ---------------------------------------------------------------- whole runs

  ghost predicate StateSeen(ss: seq<State>, ps: seq<A.Pipe>, k: nat)
    requires k < |ss| == |ps|
  {
    R.Shaped(ss[k].ring) && ps[k] == Abs(ss[k])
  }

  ghost predicate EventSeen(ss: seq<State>, es: seq<Event>, ls: seq<A.Label>, k: nat)
    requires k < |es| == |ls| < |ss|
  {
    R.Shaped(ss[k].ring) && ls[k] == LabelOf(ss[k], es[k])
  }

  /** `ps` and `ls` are what a run looks like from outside: its queue and calls, its atomic steps. */
  ghost predicate Mirrors(ss: seq<State>, es: seq<Event>, ps: seq<A.Pipe>, ls: seq<A.Label>) {
    && |ps| == |ss| == |es| + 1 && |ls| == |es|
    && (forall k {:trigger StateSeen(ss, ps, k)} | 0 <= k < |ss| :: StateSeen(ss, ps, k))
    && (forall k {:trigger EventSeen(ss, es, ls, k)} | 0 <= k < |es| :: EventSeen(ss, es, ls, k))
  }

  lemma MirrorIsUnique(ss: seq<State>, es: seq<Event>, ps: seq<A.Pipe>, ls: seq<A.Label>,
                       ps': seq<A.Pipe>, ls': seq<A.Label>)
    requires Mirrors(ss, es, ps, ls) && Mirrors(ss, es, ps', ls')
    ensures ps' == ps && ls' == ls
  {
    forall k | 0 <= k < |ss|
      ensures ps'[k] == ps[k]
    {
      assert StateSeen(ss, ps, k) && StateSeen(ss, ps', k);
    }
    forall k | 0 <= k < |es|
      ensures ls'[k] == ls[k]
    {
      assert EventSeen(ss, es, ls, k) && EventSeen(ss, es, ls', k);
    }
  }

  /** Every run has exactly one such view. */
  lemma MirrorExists(exact: bool, ss: seq<State>, es: seq<Event>)
    returns (ps: seq<A.Pipe>, ls: seq<A.Label>)
    requires IsRun(exact, ss, es)
    ensures Mirrors(ss, es, ps, ls)
    ensures forall ps', ls' | Mirrors(ss, es, ps', ls') :: ps' == ps && ls' == ls
  {
    forall k | 0 <= k < |ss|
      ensures R.Shaped(ss[k].ring)
    {
      RunKeepsInv(exact, ss, es, k);
    }
    forall k | 0 <= k < |es|
      ensures R.Shaped(ss[k].ring)
    {
      assert StepAt(exact, ss, es, k);
    }
    ps := seq(|ss|, k requires 0 <= k < |ss| => Abs(ss[k]));
    ls := seq(|es|, k requires 0 <= k < |es| => LabelOf(ss[k], es[k]));
    forall ps', ls' | Mirrors(ss, es, ps', ls')
      ensures ps' == ps && ls' == ls
    {
      MirrorIsUnique(ss, es, ps, ls, ps', ls');
    }
  }

  /**
   Every interleaved run is, step for step, a run of the atomic pipe. Nothing is assumed about
   what the unlocked scans conclude.
   */
  lemma RunIsAtomic(exact: bool, ss: seq<State>, es: seq<Event>, ps: seq<A.Pipe>, ls: seq<A.Label>)
    requires IsRun(exact, ss, es) && Mirrors(ss, es, ps, ls)
    ensures A.IsRun(LimitsOf(ss[0]), ps, ls)
  {
    forall k | 0 <= k < |es|
      ensures A.StepAt(LimitsOf(ss[0]), ps, ls, k)
    {
      RunKeepsInv(exact, ss, es, k);
      assert StepAt(exact, ss, es, k) && EventSeen(ss, es, ls, k);
      assert StateSeen(ss, ps, k) && StateSeen(ss, ps, k + 1);
      StepRefines(LimitsOf(ss[0]), exact, ss[k], es[k], ss[k + 1]);
    }
    assert StateSeen(ss, ps, 0);
    StartsEmpty(ss[0]);
  }

  lemma StartsEmpty(s: State)
    requires Init(s)
    ensures A.Start(Abs(s))
  {
    R.BlankIsEmpty(s.ring.capacity, s.ring.dataSize);
  }
}
