/** Why calls fail: every error has its cause, and every cause its error. */
module DriverErrors {
  import opened Messages
  import opened Calls
  import opened Driver
  import opened DriverInvariants
  import R = RingStore
  import Fifo

  /** A request for more bytes than a slot holds. */
  predicate Oversized(dataSize: nat, op: Op) {
    (op.Write? && |op.data| > dataSize) || (op.Read? && op.count > dataSize)
  }

  // ---------------------------------------------------------------- every error has its cause

  /** What must have been so at a statement that sets a call on its way to the error `e`. */
  ghost predicate Causes(s: State, t: Tid, c: Choice, e: Errno)
    requires R.Shaped(s.ring) && t in s.threads
  {
    var op, q := s.threads[t].op, R.QueueOf(s.ring);
    match e
    case EINVAL => Oversized(s.ring.dataSize, op)
    case ENOMEM => c.NoMemory? && !op.Cleanup?
    case ERESTARTSYS => c.Signal?
    case EFAULT => c.Fault? && !op.Cleanup?
    case EAGAIN => !op.Cleanup? && op.nonblock && (if op.Write? then |q| == s.ring.capacity else q == [])
    case EACCES => op.Read? && q != [] && op.uid != 0 && op.uid != q[0].uid && op.gid != q[0].gid
    case _ => false
  }

  /** The call fails with `e`, or will if its condition does not come true first. */
  predicate Faces(th: Thread, e: Errno) {
    match th.pc
    case Finished(res) => res.status == Fail(e)
    case Unlock(res) => res.status == Fail(e)
    case Scan(sig, _, _) => sig && e == ERESTARTSYS
    case Leave(interrupted) => interrupted && e == ERESTARTSYS
    case Release => !th.op.Cleanup? && th.op.nonblock && e == EAGAIN
    case Block => !th.op.Cleanup? && th.op.nonblock && e == EAGAIN
    case _ => false
  }

  lemma OutsideCauses(lim: Fifo.Limits, s: State, t: Tid, c: Choice, s': State, e: Errno)
    requires ActorOk(lim, s, t) && ExecOutside(s, t, c) == Some(s') && Faces(s'.threads[t], e)
    ensures Faces(s.threads[t], e) || Causes(s, t, c, e)
  {
  }

  lemma WaitCauses(exact: bool, s: State, t: Tid, c: Choice, s': State, e: Errno)
    requires R.Shaped(s.ring) && t in s.threads && ExecWait(exact, s, t, c) == Some(s')
    requires t in s'.threads && Faces(s'.threads[t], e)
    ensures Faces(s.threads[t], e) || Causes(s, t, c, e)
  {
  }

  lemma LoopCauses(lim: Fifo.Limits, s: State, t: Tid, c: Choice, s': State, e: Errno)
    requires ActorOk(lim, s, t) && ExecLoop(s, t, c) == Some(s') && Faces(s'.threads[t], e)
    ensures Faces(s.threads[t], e) || Causes(s, t, c, e)
  {
    TestStep(lim, s, s.threads[t].op);
  }

  lemma WriteCauses(lim: Fifo.Limits, s: State, t: Tid, c: Choice, s': State, e: Errno)
    requires ActorOk(lim, s, t) && Writing(s.threads[t].pc)
    requires ExecWrite(s, t, c) == Some(s') && t in s'.threads && Faces(s'.threads[t], e)
    ensures Faces(s.threads[t], e) || Causes(s, t, c, e)
  {
    if s.threads[t].pc.Insert? {
      InsertEffect(lim, s, t, c, s');
    }
  }

  lemma ReadCauses(lim: Fifo.Limits, s: State, t: Tid, c: Choice, s': State, e: Errno)
    requires ActorOk(lim, s, t) && Reading(s.threads[t].pc) && Guarded(R.QueueOf(s.ring), s.threads[t])
    requires ExecRead(s, t, c) == Some(s') && t in s'.threads && Faces(s'.threads[t], e)
    ensures Faces(s.threads[t], e) || Causes(s, t, c, e)
  {
    if s.threads[t].pc.Remove? {
      RemoveExec(s, t, c, s');
      RemoveEffect(lim, s, t, s');
    }
  }

  lemma SweepCauses(s: State, t: Tid, c: Choice, s': State, e: Errno)
    requires R.Shaped(s.ring) && t in s.threads && Sweeping(s.threads[t].pc)
    requires ExecSweep(s, t, c) == Some(s') && t in s'.threads
    ensures !Faces(s'.threads[t], e)
  {
  }

  lemma ExecCauses(lim: Fifo.Limits, exact: bool, s: State, t: Tid, c: Choice, s': State, e: Errno)
    requires ActorOk(lim, s, t) && Guarded(R.QueueOf(s.ring), s.threads[t])
    requires Exec(exact, s, t, c) == Some(s') && t in s'.threads && Faces(s'.threads[t], e)
    ensures Faces(s.threads[t], e) || Causes(s, t, c, e)
  {
    var pc := s.threads[t].pc;
    if Waits(pc) { WaitCauses(exact, s, t, c, s', e); }
    else if Writing(pc) { WriteCauses(lim, s, t, c, s', e); }
    else if Reading(pc) { ReadCauses(lim, s, t, c, s', e); }
    else if Sweeping(pc) { SweepCauses(s, t, c, s', e); }
    else if Owns(pc) { LoopCauses(lim, s, t, c, s', e); }
    else { OutsideCauses(lim, s, t, c, s', e); }
  }

  lemma StepCauses(lim: Fifo.Limits, exact: bool, s: State, e: Event, s': State, t: Tid, err: Errno)
    requires Inv(lim, s) && Next(exact, s, e, s') && t in s'.threads && Faces(s'.threads[t], err)
    ensures t in s.threads && e != End(t) && s.threads[t].op == s'.threads[t].op
    ensures Faces(s.threads[t], err) || (e.Do? && e.t == t && Causes(s, t, e.choice, err))
  {
    if e.Do? {
      ExecShape(exact, s, e.t, e.choice, s');
      if e.t == t {
        assert ThreadOk(lim, R.QueueOf(s.ring), s.clock, s.threads[t]) && Guarded(R.QueueOf(s.ring), s.threads[t]);
        ExecCauses(lim, exact, s, t, e.choice, s', err);
      }
    }
  }

  lemma StepOfRunCauses(exact: bool, ss: seq<State>, es: seq<Event>, k: nat, t: Tid, err: Errno)
    requires IsRun(exact, ss, es) && k < |es| && t in ss[k + 1].threads && Faces(ss[k + 1].threads[t], err)
    ensures t in ss[k].threads && es[k] != End(t) && ss[k].threads[t].op == ss[k + 1].threads[t].op
    ensures R.Shaped(ss[k].ring)
    ensures Faces(ss[k].threads[t], err) || (es[k].Do? && es[k].t == t && Causes(ss[k], t, es[k].choice, err))
  {
    RunKeepsInv(exact, ss, es, k);
    assert StepAt(exact, ss, es, k);
    StepCauses(LimitsOf(ss[0]), exact, ss[k], es[k], ss[k + 1], t, err);
  }

  /**
   Every call that fails, in any run, met the cause of its error at one of its own statements `j`:
   -EINVAL an oversized request, -ENOMEM and -EFAULT a failed allocation and copy, -ERESTARTSYS a
   signal, -EAGAIN a full or empty ring and O_NONBLOCK, -EACCES an oldest message of other owners.
   */
  lemma {:induction false} EveryErrorHasItsCause(exact: bool, ss: seq<State>, es: seq<Event>, n: nat, t: Tid,
                                                 err: Errno)
    returns (j: nat, c: Choice)
    requires IsRun(exact, ss, es) && n <= |es| && t in ss[n].threads && Faces(ss[n].threads[t], err)
    ensures j < n && es[j] == Do(t, c) && forall k | j <= k < n :: es[k] != End(t)
    ensures R.Shaped(ss[j].ring) && t in ss[j].threads && ss[j].threads[t].op == ss[n].threads[t].op
    ensures Causes(ss[j], t, c, err)
  {
    StepOfRunCauses(exact, ss, es, n - 1, t, err);
    if Faces(ss[n - 1].threads[t], err) {
      j, c := EveryErrorHasItsCause(exact, ss, es, n - 1, t, err);
    } else {
      j, c := n - 1, es[n - 1].choice;
    }
  }

  /** In every run a thread is interrupted, or returns -ERESTARTSYS, only after a signal in that call. */
  lemma OnlySignalsInterrupt(exact: bool, ss: seq<State>, es: seq<Event>, n: nat, t: Tid) returns (j: nat)
    requires IsRun(exact, ss, es) && n <= |es| && t in ss[n].threads
    requires var pc := ss[n].threads[t].pc;
      || (pc.Scan? && pc.sig) || pc == Leave(true)
      || ((pc.Unlock? || pc.Finished?) && pc.res.status == Fail(ERESTARTSYS))
    ensures j < n && es[j] == Do(t, Signal) && forall k | j <= k < n :: es[k] != End(t)
  {
    var c;
    j, c := EveryErrorHasItsCause(exact, ss, es, n, t, ERESTARTSYS);
  }

  // ---------------------------------------------------------------- every cause its error

  lemma OversizedStep(exact: bool, s: State, e: Event, s': State, t: Tid)
    requires Next(exact, s, e, s') && t in s'.threads && Oversized(s.ring.dataSize, s'.threads[t].op)
    requires t in s.threads && e != End(t) ==>
               s.threads[t].pc == Start || s.threads[t].pc == Finished(Failed(EINVAL))
    ensures s'.threads[t].pc == Start || s'.threads[t].pc == Finished(Failed(EINVAL))
  {
    if e.Do? {
      ExecShape(exact, s, e.t, e.choice, s');
    }
  }

  /** In every run an oversized request gets no further than its size check. */
  lemma {:induction false} OversizedIsRefused(exact: bool, ss: seq<State>, es: seq<Event>, n: nat, t: Tid)
    requires IsRun(exact, ss, es) && n <= |es| && t in ss[n].threads
    requires var op, dataSize := ss[n].threads[t].op, ss[0].ring.dataSize;
      (op.Write? && |op.data| > dataSize) || (op.Read? && op.count > dataSize)
    ensures ss[n].threads[t].pc == Start || ss[n].threads[t].pc == Finished(Result(Fail(EINVAL), []))
  {
    if n > 0 {
      RunKeepsInv(exact, ss, es, n - 1);
      assert StepAt(exact, ss, es, n - 1);
      if t in ss[n - 1].threads && es[n - 1] != End(t) {
        SameCall(exact, ss[n - 1], es[n - 1], ss[n], t);
        OversizedIsRefused(exact, ss, es, n - 1, t);
      }
      OversizedStep(exact, ss[n - 1], es[n - 1], ss[n], t);
    }
  }

  lemma SameCall(exact: bool, s: State, e: Event, s': State, t: Tid)
    requires Next(exact, s, e, s') && t in s.threads && t in s'.threads
    ensures s'.threads[t].op == s.threads[t].op
  {
    if e.Do? {
      ExecShape(exact, s, e.t, e.choice, s');
    }
  }

  /**
   Where an allocation, a copy or an interruptible statement can fail, and what becomes of the call: it
   fails with that error at once, or, interrupted in its wait, looks once more off the queue. Nothing
   else changes.
   */
  lemma FailuresAreReported(exact: bool, s: State, t: Tid, c: Choice)
    requires R.Shaped(s.ring) && t in s.threads && !c.Go? && !c.Guess?
    ensures var pc, op, next := s.threads[t].pc, s.threads[t].op, Exec(exact, s, t, c);
      && (next.Some? <==>
            || (c.NoMemory? && pc.Start? && !op.Cleanup? && !Oversized(s.ring.dataSize, op))
            || (c.Signal? && (pc.Lock? || pc.Enlist? || pc.Asleep?))
            || (c.Fault? && (pc.CopyIn? || pc.CopyOut?)))
      && (next.Some? ==>
            if c.NoMemory? then next.value == Goto(s, t, Finished(Result(Fail(ENOMEM), [])))
            else if c.Fault? then next.value == Goto(s, t, Unlock(Result(Fail(EFAULT), [])))
            else if pc.Lock? then next.value == Goto(s, t, Finished(Result(Fail(ERESTARTSYS), [])))
            else
              var off := if op.Write? then s.(writerQ := s.writerQ - {t}) else s.(readerQ := s.readerQ - {t});
              next.value == Goto(off, t, Scan(true, 0, 0)))
  {
  }
}
