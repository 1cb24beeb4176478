/**
 The blocking driver as interleaved steps. Any number of threads run `kmsgpipe_write`,
 `kmsgpipe_read` and the cleanup worker over one ring buffer, one mutex and two wait queues; a
 thread's program counter says which statement it executes next.

 The kernel's part is taken from its interface: `wait_event_interruptible` evaluates its condition
 once before queueing, then repeatedly registers the task, evaluates the condition and sleeps
 unless the task was woken since it registered; `wake_up_interruptible` wakes and unregisters every
 task on the queue. The condition is evaluated without the mutex, one slot for each step.
 */
module Driver {
  import opened Messages
  import opened Calls
  import R = RingStore

  datatype Pc =
    | Start                                   // size check and scratch allocation
    | Lock                                    // mutex_lock_interruptible
    | Test                                    // guard of the while loop, mutex held
    | Release                                 // mutex_unlock inside the loop
    | Block                                   // O_NONBLOCK test, atomic_inc
    | Precheck(i: nat, seen: nat)             // wait_event: first evaluation, not queued
    | Enlist                                  // wait_event: register on the wait queue
    | Scan(sig: bool, i: nat, seen: nat)      // wait_event: evaluation while registered
    | Asleep                                  // wait_event: schedule()
    | Leave(interrupted: bool)                // atomic_dec, test of the return value
    | Stamp                                   // write: ktime_get
    | CopyIn(stamp: Time)                     // write: copy_from_user
    | Insert(stamp: Time)                     // write: kmsgpipe_push
    | WakeReaders(res: Result)                // write: wake_up_interruptible(reader_q)
    | Remove                                  // read: kmsgpipe_pop
    | WakeWriters(m: Msg, res: Result)        // read: wake_up_interruptible(writer_q)
    | CopyOut(m: Msg, res: Result)            // read: copy_to_user
    | Sweep(dropped: seq<Msg>)                // cleanup: one iteration of the loop
    | SweepWake(expired: nat)                 // cleanup: wake_up_interruptible(writer_q)
    | Unlock(res: Result)                     // final mutex_unlock
    | Finished(res: Result)                   // about to return

  /** A thread inside a call; `began` is the clock at its first statement. */
  datatype Thread = Thread(op: Op, began: Time, pc: Pc)

  /** `readerQ` and `writerQ` are the wait queues; `awake` holds the tasks woken since they registered. */
  datatype State = State(
    ring: R.Ring,
    clock: Time,
    owner: Option<Tid>,
    threads: map<Tid, Thread>,
    readerQ: set<Tid>,
    writerQ: set<Tid>,
    awake: set<Tid>,
    readerWaiting: int,
    writerWaiting: int)

  /** What the environment decides at a step. `Guess` overrides the unlocked scan. */
  datatype Choice = Go | NoMemory | Signal | Fault | Guess(verdict: bool)

  datatype Event =
    | Tick(to: Time)
    | Begin(t: Tid, op: Op)
    | Do(t: Tid, choice: Choice)
    | End(t: Tid)

  /** A call with a larger size than a slot's is refused. */
  predicate TooLarge(dataSize: nat, op: Op) {
    match op
    case Write(data, _, _, _) => |data| > dataSize
    case Read(count, _, _, _) => count > dataSize
    case Cleanup => false
  }

  function Goto(s: State, t: Tid, pc: Pc): State
    requires t in s.threads
  {
    s.(threads := s.threads[t := s.threads[t].(pc := pc)])
  }

  function When(enabled: bool, s: State): Option<State> {
    if enabled then Some(s) else None
  }

  /** The guard of the loop around the wait. */
  predicate MustWait(r: R.Ring, op: Op)
    requires R.Shaped(r)
  {
    if op.Write? then R.Count(r) == r.capacity else R.Count(r) == 0
  }

  /** The condition given to `wait_event_interruptible`, from the number of valid slots seen. */
  predicate MayProceed(r: R.Ring, op: Op, seen: nat) {
    if op.Write? then seen < r.capacity else seen > 0
  }

  function Unregister(s: State, t: Tid): State
    requires t in s.threads
  {
    if s.threads[t].op.Write? then s.(writerQ := s.writerQ - {t}) else s.(readerQ := s.readerQ - {t})
  }

  /** prepare_to_wait: queue the task and mark it as going to sleep. */
  function Register(s: State, t: Tid): State
    requires t in s.threads
  {
    var s1 := s.(awake := s.awake - {t});
    if s.threads[t].op.Write? then s1.(writerQ := s1.writerQ + {t}) else s1.(readerQ := s1.readerQ + {t})
  }

  /** wake_up_interruptible on one queue: every task on it becomes runnable and leaves the queue. */
  function WakeAllReaders(s: State): State {
    s.(readerQ := {}, awake := s.awake + s.readerQ)
  }

  function WakeAllWriters(s: State): State {
    s.(writerQ := {}, awake := s.awake + s.writerQ)
  }

  predicate Registered(s: State, t: Tid)
    requires t in s.threads
  {
    if s.threads[t].op.Write? then t in s.writerQ else t in s.readerQ
  }

  function AddWaiting(s: State, op: Op, d: int): State {
    if op.Write? then s.(writerWaiting := s.writerWaiting + d) else s.(readerWaiting := s.readerWaiting + d)
  }

  function ValidBit(r: R.Ring, i: nat): nat
    requires i < |r.records|
  {
    if r.records[i].valid then 1 else 0
  }

  /** Where `wait_event_interruptible` goes once its condition has been evaluated. */
  function AfterPrecheck(s: State, t: Tid, verdict: bool): State
    requires t in s.threads
  {
    Goto(s, t, if verdict then Leave(false) else Enlist)
  }

  function AfterScan(s: State, t: Tid, sig: bool, verdict: bool): State
    requires t in s.threads
  {
    if verdict then Goto(Unregister(s, t), t, Leave(false))
    else if sig then Goto(s, t, Leave(true))
    else Goto(s, t, Asleep)
  }

  /** Between taking and giving up the mutex. */
  predicate Owns(pc: Pc) {
    pc.Test? || pc.Release? || pc.Unlock? || Writing(pc) || Reading(pc) || Sweeping(pc)
  }

  predicate Writing(pc: Pc) {
    pc.Stamp? || pc.CopyIn? || pc.Insert? || pc.WakeReaders?
  }

  predicate Reading(pc: Pc) {
    pc.Remove? || pc.WakeWriters? || pc.CopyOut?
  }

  predicate Sweeping(pc: Pc) {
    pc.Sweep? || pc.SweepWake?
  }

  /** Between the increment and the decrement of a waiting counter. */
  predicate Waits(pc: Pc) {
    pc.Precheck? || pc.Enlist? || pc.Scan? || pc.Asleep? || pc.Leave?
  }

  /** Outside the critical section and the wait. */
  function ExecOutside(s: State, t: Tid, c: Choice): Option<State>
    requires R.Shaped(s.ring) && t in s.threads
  {
    var op := s.threads[t].op;
    match s.threads[t].pc
    case Start =>
      if TooLarge(s.ring.dataSize, op) then When(c.Go?, Goto(s, t, Finished(Failed(EINVAL))))
      else if c.NoMemory? && !op.Cleanup? then Some(Goto(s, t, Finished(Failed(ENOMEM))))
      else When(c.Go?, Goto(s, t, Lock))
    case Lock =>
      if c.Signal? then Some(Goto(s, t, Finished(Failed(ERESTARTSYS))))
      else When(c.Go? && s.owner.None?,
                Goto(s.(owner := Some(t)), t, if op.Cleanup? then Sweep([]) else Test))
    case Block =>
      if op.Cleanup? then None
      else if op.nonblock then When(c.Go?, Goto(s, t, Finished(Failed(EAGAIN))))
      else When(c.Go?, Goto(AddWaiting(s, op, 1), t, Precheck(0, 0)))
    case _ => None
  }

  /** Inside the wait: counted, not holding the mutex. */
  function ExecWait(exact: bool, s: State, t: Tid, c: Choice): Option<State>
    requires R.Shaped(s.ring) && t in s.threads
  {
    var op := s.threads[t].op;
    match s.threads[t].pc
    case Precheck(i, seen) =>
      if c.Guess? then When(!exact, AfterPrecheck(s, t, c.verdict))
      else if i < s.ring.capacity then
        When(c.Go?, Goto(s, t, Precheck(i + 1, seen + ValidBit(s.ring, i))))
      else When(c.Go?, AfterPrecheck(s, t, MayProceed(s.ring, op, seen)))
    case Enlist =>
      if c.Signal? then Some(Goto(Unregister(s, t), t, Scan(true, 0, 0)))
      else When(c.Go?, Goto(Register(s, t), t, Scan(false, 0, 0)))
    case Scan(sig, i, seen) =>
      if c.Guess? then When(!exact, AfterScan(s, t, sig, c.verdict))
      else if i < s.ring.capacity then
        When(c.Go?, Goto(s, t, Scan(sig, i + 1, seen + ValidBit(s.ring, i))))
      else When(c.Go?, AfterScan(s, t, sig, MayProceed(s.ring, op, seen)))
    case Asleep =>
      if c.Signal? then Some(Goto(Unregister(s, t), t, Scan(true, 0, 0)))
      else When(c.Go? && t in s.awake, Goto(s, t, Enlist))
    case Leave(interrupted) =>
      When(c.Go?, Goto(AddWaiting(s, op, -1), t, if interrupted then Finished(Failed(ERESTARTSYS)) else Lock))
    case _ => None
  }

  /** The loop guard and the two unlocks. */
  function ExecLoop(s: State, t: Tid, c: Choice): Option<State>
    requires R.Shaped(s.ring) && t in s.threads
  {
    var op := s.threads[t].op;
    match s.threads[t].pc
    case Test =>
      When(c.Go?, Goto(s, t, if MustWait(s.ring, op) then Release else if op.Write? then Stamp else Remove))
    case Release =>
      When(c.Go?, Goto(s.(owner := None), t, Block))
    case Unlock(res) =>
      When(c.Go?, Goto(s.(owner := None), t, Finished(res)))
    case _ => None
  }

  /** The rest of `kmsgpipe_write`, mutex held. */
  function ExecWrite(s: State, t: Tid, c: Choice): Option<State>
    requires R.Shaped(s.ring) && t in s.threads
  {
    var op := s.threads[t].op;
    match s.threads[t].pc
    case Stamp =>
      When(c.Go?, Goto(s, t, CopyIn(s.clock)))
    case CopyIn(stamp) =>
      if c.Fault? then Some(Goto(s, t, Unlock(Failed(EFAULT))))
      else When(c.Go?, Goto(s, t, Insert(stamp)))
    case Insert(stamp) =>
      if !op.Write? then None
      else
        var o := R.Push(s.ring, op.data, op.uid, op.gid, stamp);
        When(c.Go?, Goto(s.(ring := o.ring), t,
                         if o.status.Fail? then Unlock(Result(o.status, []))
                         else WakeReaders(Result(o.status, []))))
    case WakeReaders(res) =>
      When(c.Go?, Goto(WakeAllReaders(s), t, Unlock(res)))
    case _ => None
  }

  /**
   The pop would copy a longer message than the read's scratch buffer of `count` bytes can take. What
   happens then is undefined, and the model has no step for it.
   */
  predicate Overruns(s: State, t: Tid)
    requires R.Shaped(s.ring) && t in s.threads
  {
    var th := s.threads[t];
    th.pc.Remove? && th.op.Read? && |R.Pop(s.ring, th.op.uid, th.op.gid).bytes| > th.op.count
  }

  /** The rest of `kmsgpipe_read`, mutex held. */
  function ExecRead(s: State, t: Tid, c: Choice): Option<State>
    requires R.Shaped(s.ring) && t in s.threads
  {
    var op := s.threads[t].op;
    match s.threads[t].pc
    case Remove =>
      if !op.Read? then None
      else
        var o := R.Pop(s.ring, op.uid, op.gid);
        if |o.bytes| > op.count then None
        else When(c.Go?, Goto(s.(ring := o.ring), t,
                              if o.status.Fail? then Unlock(Result(o.status, []))
                              else WakeWriters(R.MsgAt(s.ring, s.ring.tail),
                                               Result(o.status, Padded(o.bytes, op.count)))))
    case WakeWriters(m, res) =>
      When(c.Go?, Goto(WakeAllWriters(s), t, CopyOut(m, res)))
    case CopyOut(m, res) =>
      if c.Fault? then Some(Goto(s, t, Unlock(Failed(EFAULT))))
      else When(c.Go?, Goto(s, t, Unlock(res)))
    case _ => None
  }

  /** The body of `kmsgpipe_cleanup_worker`, mutex held. */
  function ExecSweep(s: State, t: Tid, c: Choice): Option<State>
    requires R.Shaped(s.ring) && t in s.threads
  {
    match s.threads[t].pc
    case Sweep(dropped) =>
      When(c.Go?,
           if R.Expirable(s.ring, s.threads[t].began) then
             Goto(s.(ring := R.DropOldest(s.ring)), t, Sweep(dropped + [R.MsgAt(s.ring, s.ring.tail)]))
           else Goto(s, t, SweepWake(|dropped|)))
    case SweepWake(_) =>
      When(c.Go?, Goto(WakeAllWriters(s), t, Unlock(Result(Ok(0), []))))
    case _ => None
  }

  /** Thread `t` executes its next statement; `None` when it cannot with this choice. */
  function Exec(exact: bool, s: State, t: Tid, c: Choice): Option<State>
    requires R.Shaped(s.ring) && t in s.threads
  {
    var pc := s.threads[t].pc;
    if Waits(pc) then ExecWait(exact, s, t, c)
    else if Writing(pc) then ExecWrite(s, t, c)
    else if Reading(pc) then ExecRead(s, t, c)
    else if Sweeping(pc) then ExecSweep(s, t, c)
    else if Owns(pc) then ExecLoop(s, t, c)
    else ExecOutside(s, t, c)
  }

  /** One step of the whole system. With `exact` false the unlocked scans may conclude anything. */
  predicate Next(exact: bool, s: State, e: Event, s': State) {
    && R.Shaped(s.ring)
    && match e
       case Tick(to) => s.clock <= to && s' == s.(clock := to)
       case Begin(t, op) =>
         t !in s.threads && s' == s.(threads := s.threads[t := Thread(op, s.clock, Start)])
       case Do(t, c) => t in s.threads && Exec(exact, s, t, c) == Some(s')
       case End(t) =>
         t in s.threads && s.threads[t].pc.Finished? && s' == s.(threads := s.threads - {t})
  }

  /** The state after module initialisation, for any clock. */
  predicate Init(s: State) {
    && 0 < s.ring.capacity
    && s.ring == R.Blank(s.ring.capacity, s.ring.dataSize)
    && s.owner == None && s.threads == map[]
    && s.readerQ == {} && s.writerQ == {} && s.awake == {}
    && s.readerWaiting == 0 && s.writerWaiting == 0
  }

  predicate StepAt(exact: bool, ss: seq<State>, es: seq<Event>, i: nat)
    requires i < |es| < |ss|
  {
    Next(exact, ss[i], es[i], ss[i + 1])
  }

  /** A finite run from the initial state, of any number of threads in any interleaving. */
  ghost predicate IsRun(exact: bool, ss: seq<State>, es: seq<Event>) {
    && |ss| == |es| + 1
    && Init(ss[0])
    && forall i {:trigger StepAt(exact, ss, es, i)} | 0 <= i < |es| :: StepAt(exact, ss, es, i)
  }
}
