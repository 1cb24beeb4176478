/**
 The clear of the ioctl, which empties the ring without the mutex and wakes nobody, taken as one step
 between two statements of the other threads. Everything in `Stable`, and the wakeups of the readers,
 survive it at any moment. The recheck before a pop and the wakeups of the writers do not: here is
 exactly when they fail, and reachable states in which they do.
 */
module DriverClear {
  import opened Messages
  import opened Calls
  import opened Driver
  import opened DriverInvariants
  import opened DriverReach
  import opened DriverRefinement
  import opened DriverWakeups
  import A = AtomicPipe
  import R = RingStore
  import Fifo

  function Cleared(s: State): (s': State)
    requires R.Shaped(s.ring)
    ensures R.Shaped(s'.ring)
  {
    s.(ring := R.Clear(s.ring).ring)
  }

  lemma ClearedRing(lim: Fifo.Limits, s: State)
    requires RingInv(lim, s)
    ensures RingInv(lim, Cleared(s)) && R.QueueOf(Cleared(s).ring) == []
    ensures forall i | 0 <= i < s.ring.capacity :: !Cleared(s).ring.records[i].valid
  {
    R.ClearRefines(s.ring);
  }

  // ---------------------------------------------------------------- runs with clears

  /** A step of the driver, or a clear. */
  ghost predicate NextOrClear(exact: bool, s: State, e: Option<Event>, s': State) {
    match e
    case None => R.Shaped(s.ring) && s' == Cleared(s)
    case Some(event) => Next(exact, s, event, s')
  }

  ghost predicate ClearStepAt(exact: bool, ss: seq<State>, es: seq<Option<Event>>, i: nat)
    requires i < |es| < |ss|
  {
    NextOrClear(exact, ss[i], es[i], ss[i + 1])
  }

  ghost predicate IsRunWithClears(exact: bool, ss: seq<State>, es: seq<Option<Event>>) {
    && |ss| == |es| + 1
    && Init(ss[0])
    && forall i {:trigger ClearStepAt(exact, ss, es, i)} | 0 <= i < |es| :: ClearStepAt(exact, ss, es, i)
  }

  /** The steps of the driver from any state on, without a clear. */
  ghost predicate IsContinuation(exact: bool, s: State, ss: seq<State>, es: seq<Event>) {
    && |ss| == |es| + 1
    && ss[0] == s
    && forall i {:trigger StepAt(exact, ss, es, i)} | 0 <= i < |es| :: StepAt(exact, ss, es, i)
  }

  // ---------------------------------------------------------------- what survives every clear

  lemma ClearedThread(lim: Fifo.Limits, q: seq<Msg>, clock: Time, th: Thread)
    requires ThreadOk(lim, q, clock, th) && 0 < lim.capacity
    ensures ThreadOk(lim, [], clock, th)
  {
    if Held(th.pc) != [] {
      assert Fifo.Sorted(Held(th.pc) + []) by {
        assert forall i | 0 <= i < |Held(th.pc)| :: (Held(th.pc) + q)[i] == (Held(th.pc) + [])[i];
      }
    }
  }

  lemma ClearKeepsStable(lim: Fifo.Limits, s: State)
    requires Stable(lim, s)
    ensures Stable(lim, Cleared(s))
  {
    var s' := Cleared(s);
    ClearedRing(lim, s);
    assert Waiting(s', false) == Waiting(s, false) && Waiting(s', true) == Waiting(s, true);
    forall t | t in s'.threads
      ensures ThreadOk(lim, [], s.clock, s'.threads[t])
    {
      ClearedThread(lim, R.QueueOf(s.ring), s.clock, s.threads[t]);
    }
  }

  lemma {:induction false} ClearsKeepStable(exact: bool, ss: seq<State>, es: seq<Option<Event>>, n: nat)
    requires IsRunWithClears(exact, ss, es) && n <= |es|
    ensures Stable(LimitsOf(ss[0]), ss[n])
  {
    if n == 0 {
      InitInv(ss[0]);
    } else {
      ClearsKeepStable(exact, ss, es, n - 1);
      assert ClearStepAt(exact, ss, es, n - 1);
      if es[n - 1].None? {
        ClearKeepsStable(LimitsOf(ss[0]), ss[n - 1]);
      } else {
        StepKeepsStable(LimitsOf(ss[0]), exact, ss[n - 1], es[n - 1].value, ss[n]);
      }
    }
  }

  /**
   Whenever and however often the ring is cleared: it stays well formed and in the order of its time
   stamps, one thread at most is in a critical section, every checked push succeeds, and no call
   returns -ENOSPC or -EMSGSIZE.
   */
  lemma ClearsSpareTheRest(exact: bool, ss: seq<State>, es: seq<Option<Event>>, n: nat, t: Tid)
    requires IsRunWithClears(exact, ss, es) && n <= |es| && t in ss[n].threads
    ensures R.WellFormed(ss[n].ring) && Fifo.Sorted(R.QueueOf(ss[n].ring))
    ensures forall m | m in R.QueueOf(ss[n].ring) :: m.stamp <= ss[n].clock
    ensures Owns(ss[n].threads[t].pc) ==> ss[n].owner == Some(t)
    ensures var th := ss[n].threads[t];
      && (th.pc.Insert? ==>
            th.op.Write?
            && R.Push(ss[n].ring, th.op.data, th.op.uid, th.op.gid, th.pc.stamp).status == Ok(|th.op.data|))
      && (th.pc.Finished? ==> th.pc.res.status.Fail? ==> th.pc.res.status.error !in {ENOSPC, EMSGSIZE})
  {
    var lim, th := LimitsOf(ss[0]), ss[n].threads[t];
    ClearsKeepStable(exact, ss, es, n);
    assert ThreadOk(lim, R.QueueOf(ss[n].ring), ss[n].clock, th);
    if th.pc.Insert? {
      InsertStep(lim, ss[n], th, th.pc.stamp);
    }
  }

  lemma ClearKeepsReaders(lim: Fifo.Limits, s: State)
    requires Stable(lim, s) && ReadersInv(s)
    ensures ReadersInv(Cleared(s))
  {
    ClearedRing(lim, s);
  }

  lemma {:induction false} ClearsKeepReaders(ss: seq<State>, es: seq<Option<Event>>, n: nat)
    requires IsRunWithClears(true, ss, es) && n <= |es|
    ensures ReadersInv(ss[n])
  {
    if n > 0 {
      ClearsKeepReaders(ss, es, n - 1);
      ClearsKeepStable(true, ss, es, n - 1);
      assert ClearStepAt(true, ss, es, n - 1);
      if es[n - 1].None? {
        ClearKeepsReaders(LimitsOf(ss[0]), ss[n - 1]);
      } else {
        StepKeepsWakeInv(LimitsOf(ss[0]), ss[n - 1], es[n - 1].value, ss[n]);
      }
    }
  }

  /** Whenever and however often the ring is cleared, no reader's wakeup is lost. */
  lemma ClearsStrandNoReader(ss: seq<State>, es: seq<Option<Event>>, n: nat, t: Tid)
    requires IsRunWithClears(true, ss, es) && n <= |es|
    requires SleepsUnwoken(ss[n], t) && !ss[n].threads[t].op.Write?
    ensures R.Shaped(ss[n].ring) && HasReason(ss[n], t)
  {
    ClearsKeepStable(true, ss, es, n);
    ClearsKeepReaders(ss, es, n);
    SleeperHasReason(LimitsOf(ss[0]), ss[n], t);
  }

  // ---------------------------------------------------------------- the recheck

  /** A read has passed its guard and not yet popped. */
  predicate PopIsNext(s: State, t: Tid) {
    t in s.threads && s.threads[t].pc.Remove?
  }

  ghost predicate AllRechecked(s: State) {
    && R.Shaped(s.ring)
    && forall t | t in s.threads :: Rechecked(s.ring, s.threads[t])
  }

  /** The whole invariant survives a clear if and only if no read is between its guard and its pop. */
  lemma ClearKeepsInvIff(lim: Fifo.Limits, s: State)
    requires Inv(lim, s)
    ensures Inv(lim, Cleared(s)) <==> !exists t :: PopIsNext(s, t)
  {
    ClearKeepsStable(lim, s);
    ClearedRing(lim, s);
    forall t | t in s.threads
      ensures Guarded([], s.threads[t]) <==> !PopIsNext(s, t)
    {
      assert Guarded(R.QueueOf(s.ring), s.threads[t]);
    }
    assert forall t | t in s.threads :: Cleared(s).threads[t] == s.threads[t];
  }

  /**
   A read that has passed its guard when the ring is cleared fails with -ENODATA, which the driver
   never returns otherwise (`DriverTheorems.RecheckSuffices`).
   */
  lemma ClearFailsThePop(lim: Fifo.Limits, exact: bool, s: State, t: Tid)
    requires Stable(lim, s) && PopIsNext(s, t)
    ensures var op := s.threads[t].op;
      op.Read? && R.Pop(Cleared(s).ring, op.uid, op.gid) == R.Outcome(Cleared(s).ring, Fail(ENODATA), [])
    ensures Exec(exact, Cleared(s), t, Go) == Some(Goto(Cleared(s), t, Unlock(Failed(ENODATA))))
  {
    ClearedRing(lim, s);
    assert ThreadOk(lim, R.QueueOf(s.ring), s.clock, s.threads[t]);
  }

  lemma {:induction false} ClearsKeepInv(exact: bool, ss: seq<State>, es: seq<Option<Event>>, n: nat)
    requires IsRunWithClears(exact, ss, es) && n <= |es|
    requires forall k | 0 <= k < n && es[k].None? :: !exists t :: PopIsNext(ss[k], t)
    ensures Inv(LimitsOf(ss[0]), ss[n])
  {
    if n == 0 {
      InitInv(ss[0]);
    } else {
      ClearsKeepInv(exact, ss, es, n - 1);
      assert ClearStepAt(exact, ss, es, n - 1);
      if es[n - 1].None? {
        ClearKeepsInvIff(LimitsOf(ss[0]), ss[n - 1]);
      } else {
        StepKeepsInv(LimitsOf(ss[0]), exact, ss[n - 1], es[n - 1].value, ss[n]);
      }
    }
  }

  lemma InvIsRechecked(lim: Fifo.Limits, s: State)
    requires Inv(lim, s)
    ensures AllRechecked(s)
  {
    forall t | t in s.threads
      ensures Rechecked(s.ring, s.threads[t])
    {
      assert ThreadOk(lim, R.QueueOf(s.ring), s.clock, s.threads[t]) && Guarded(R.QueueOf(s.ring), s.threads[t]);
      RecheckedThread(lim, s, s.threads[t]);
    }
  }

  lemma ClearBreaksRecheck(lim: Fifo.Limits, s: State, t: Tid)
    requires Stable(lim, s) && PopIsNext(s, t)
    ensures !AllRechecked(Cleared(s))
  {
    ClearFailsThePop(lim, true, s, t);
    assert !Rechecked(Cleared(s).ring, Cleared(s).threads[t]);
  }

  /**
   In a run with clears, what `DriverTheorems.RecheckSuffices` says holds in every state up to `n` if
   and only if no clear before `n` comes between the guard and the pop of a read.
   */
  lemma RecheckWithClearsIff(exact: bool, ss: seq<State>, es: seq<Option<Event>>, n: nat)
    requires IsRunWithClears(exact, ss, es) && n <= |es|
    ensures (forall k | 0 <= k <= n :: AllRechecked(ss[k]))
       <==> (forall k | 0 <= k < n && es[k].None? :: !exists t :: PopIsNext(ss[k], t))
  {
    if forall k | 0 <= k < n && es[k].None? :: !exists t :: PopIsNext(ss[k], t) {
      forall k | 0 <= k <= n
        ensures AllRechecked(ss[k])
      {
        ClearsKeepInv(exact, ss, es, k);
        InvIsRechecked(LimitsOf(ss[0]), ss[k]);
      }
    } else {
      var k :| 0 <= k < n && es[k].None? && exists t :: PopIsNext(ss[k], t);
      var t :| PopIsNext(ss[k], t);
      ClearsKeepStable(exact, ss, es, k);
      assert ClearStepAt(exact, ss, es, k);
      ClearBreaksRecheck(LimitsOf(ss[0]), ss[k], t);
      assert !AllRechecked(ss[k + 1]);
    }
  }

  /** The clear empties the queue as seen from outside, but for the messages in the holder's hands. */
  lemma ClearIsAtomic(lim: Fifo.Limits, s: State)
    requires Stable(lim, s)
    ensures Abs(Cleared(s)) == Abs(s).(queue := Limbo(s)) && Limbo(s) <= Abs(s).queue
  {
    ClearedRing(lim, s);
    assert Limbo(Cleared(s)) == Limbo(s);
  }

  /**
   As long as no clear comes between the guard and the pop of a read, a run with clears is a run of the
   atomic pipe with clears, each of them one atomic step.
   */
  lemma RunWithClearsIsAtomic(exact: bool, ss: seq<State>, es: seq<Option<Event>>, n: nat)
    requires IsRunWithClears(exact, ss, es) && n < |es|
    requires forall k | 0 <= k <= n && es[k].None? :: !exists t :: PopIsNext(ss[k], t)
    ensures R.Shaped(ss[n].ring) && R.Shaped(ss[n + 1].ring)
    ensures match es[n]
      case None => Abs(ss[n + 1]) == Abs(ss[n]).(queue := Limbo(ss[n]))
      case Some(event) => A.Step(LimitsOf(ss[0]), Abs(ss[n]), LabelOf(ss[n], event), Abs(ss[n + 1]))
  {
    ClearsKeepInv(exact, ss, es, n);
    assert ClearStepAt(exact, ss, es, n);
    if es[n].None? {
      ClearIsAtomic(LimitsOf(ss[0]), ss[n]);
    } else {
      StepRefines(LimitsOf(ss[0]), exact, ss[n], es[n].value, ss[n + 1]);
    }
  }

  /** Some call is about to return -ENODATA. */
  predicate ReturnsNoData(s: State) {
    exists t | t in s.threads :: s.threads[t].pc == Finished(Failed(ENODATA))
  }

  lemma {:induction false} ContinuationKeepsInv(lim: Fifo.Limits, exact: bool, s: State, ss: seq<State>,
                                                es: seq<Event>, n: nat)
    requires Inv(lim, s) && IsContinuation(exact, s, ss, es) && n <= |es|
    ensures Inv(lim, ss[n])
  {
    if n > 0 {
      ContinuationKeepsInv(lim, exact, s, ss, es, n - 1);
      assert StepAt(exact, ss, es, n - 1);
      StepKeepsInv(lim, exact, ss[n - 1], es[n - 1], ss[n]);
    }
  }

  lemma UnlockReturns(exact: bool, s: State, t: Tid)
    requires R.Shaped(s.ring) && t in s.threads && s.threads[t].pc.Unlock?
    ensures Exec(exact, s, t, Go) == Some(Goto(s.(owner := None), t, Finished(s.threads[t].pc.res)))
  {
  }

  lemma TwoStatements(exact: bool, s0: State, s1: State, s2: State, t: Tid)
    returns (ss: seq<State>, es: seq<Event>)
    requires R.Shaped(s0.ring) && t in s0.threads && Exec(exact, s0, t, Go) == Some(s1)
    requires R.Shaped(s1.ring) && t in s1.threads && Exec(exact, s1, t, Go) == Some(s2)
    ensures IsContinuation(exact, s0, ss, es) && ss[|es|] == s2
  {
    ss, es := [s0, s1, s2], [Do(t, Go), Do(t, Go)];
    assert StepAt(exact, ss, es, 0) && StepAt(exact, ss, es, 1);
  }

  /** The two statements by which a read whose pop finds nothing comes to return -ENODATA. */
  lemma PopReturnsNoData(lim: Fifo.Limits, exact: bool, s: State, t: Tid) returns (ss: seq<State>, es: seq<Event>)
    requires Stable(lim, s) && PopIsNext(s, t)
    ensures IsContinuation(exact, Cleared(s), ss, es) && ReturnsNoData(ss[|es|])
  {
    ClearFailsThePop(lim, exact, s, t);
    var s1 := Goto(Cleared(s), t, Unlock(Failed(ENODATA)));
    var s2 := Goto(s1.(owner := None), t, Finished(Failed(ENODATA)));
    UnlockReturns(exact, s1, t);
    ss, es := TwoStatements(exact, Cleared(s), s1, s2, t);
    assert s2.threads[t].pc == Finished(Failed(ENODATA));
  }

  /** After a clear a call can come to return -ENODATA if and only if a read was about to pop. */
  lemma NoDataAfterClearIff(lim: Fifo.Limits, exact: bool, s: State)
    requires Inv(lim, s)
    ensures (exists ss, es :: IsContinuation(exact, Cleared(s), ss, es) && ReturnsNoData(ss[|es|]))
       <==> exists t :: PopIsNext(s, t)
  {
    if exists t :: PopIsNext(s, t) {
      var t :| PopIsNext(s, t);
      var ss, es := PopReturnsNoData(lim, exact, s, t);
    } else {
      ClearKeepsInvIff(lim, s);
      forall ss: seq<State>, es: seq<Event> | IsContinuation(exact, Cleared(s), ss, es)
        ensures !ReturnsNoData(ss[|es|])
      {
        ContinuationKeepsInv(lim, exact, Cleared(s), ss, es, |es|);
        assert forall t | t in ss[|es|].threads :: Guarded(R.QueueOf(ss[|es|].ring), ss[|es|].threads[t]);
      }
    }
  }

  // ---------------------------------------------------------------- the wakeups of the writers

  /** A registered writer that sleeps, or will without looking again. */
  predicate PastLooking(s: State, t: Tid) {
    && t in s.writerQ && t in s.threads
    && var pc := s.threads[t].pc;
    && (pc.Asleep? || (pc.Scan? && pc.seen == pc.i == s.ring.capacity))
  }

  /** A clear that leaves no writer asleep for nothing. */
  ghost predicate Harmless(s: State) {
    DropPending(s) || !exists t :: PastLooking(s, t)
  }

  lemma ClearedWriter(s: State, s': State, t: Tid)
    requires t in s.writerQ && t in s.threads && WriterOk(s, s.threads[t].pc)
    requires R.Shaped(s.ring) && R.Shaped(s'.ring) && s'.ring.capacity == s.ring.capacity
    requires s'.ring.head == s'.ring.tail == 0 && DropPending(s') == DropPending(s)
    requires forall i | 0 <= i < s'.ring.capacity :: !s'.ring.records[i].valid
    ensures WriterOk(s', s.threads[t].pc) <==> DropPending(s) || !PastLooking(s, t)
  {
    if PastLooking(s, t) {
      assert !s'.ring.records[0].valid;
    }
  }

  /** The wakeup invariant survives a clear if and only if the clear is harmless. */
  lemma ClearKeepsWakeInvIff(lim: Fifo.Limits, s: State)
    requires Stable(lim, s) && WakeInv(s)
    ensures WakeInv(Cleared(s)) <==> Harmless(s)
  {
    var s' := Cleared(s);
    ClearedRing(lim, s);
    ClearKeepsReaders(lim, s);
    forall t | t in s.writerQ && t in s.threads
      ensures WriterOk(s', s.threads[t].pc) <==> DropPending(s) || !PastLooking(s, t)
    {
      ClearedWriter(s, s', t);
    }
    assert forall t | t in s.threads :: s'.threads[t] == s.threads[t];
  }

  /** Every unwoken sleeper has its reason: what `DriverWakeups.NoLostWakeup` says of a state. */
  ghost predicate AllHaveReason(s: State) {
    R.Shaped(s.ring) && forall t | SleepsUnwoken(s, t) :: HasReason(s, t)
  }

  /** No wakeup is lost from `s` on, whatever the threads do. */
  ghost predicate LosesNoWakeup(s: State) {
    forall ss, es | IsContinuation(true, s, ss, es) :: AllHaveReason(ss[|es|])
  }

  lemma {:induction false} ContinuationKeepsWakeInv(lim: Fifo.Limits, s: State, ss: seq<State>,
                                                    es: seq<Event>, n: nat)
    requires Stable(lim, s) && WakeInv(s) && IsContinuation(true, s, ss, es) && n <= |es|
    ensures Stable(lim, ss[n]) && WakeInv(ss[n])
  {
    if n > 0 {
      ContinuationKeepsWakeInv(lim, s, ss, es, n - 1);
      assert StepAt(true, ss, es, n - 1);
      StepKeepsWakeInv(lim, ss[n - 1], es[n - 1], ss[n]);
    }
  }

  lemma WakeInvLosesNone(lim: Fifo.Limits, s: State)
    requires Stable(lim, s) && WakeInv(s)
    ensures LosesNoWakeup(s)
  {
    forall ss, es | IsContinuation(true, s, ss, es)
      ensures AllHaveReason(ss[|es|])
    {
      ContinuationKeepsWakeInv(lim, s, ss, es, |es|);
      forall t | SleepsUnwoken(ss[|es|], t)
        ensures HasReason(ss[|es|], t)
      {
        SleeperHasReason(lim, ss[|es|], t);
      }
    }
  }

  /** At most one statement after the clear, such a writer is asleep on the empty ring. */
  lemma PastLookingIsStranded(lim: Fifo.Limits, s: State, t: Tid) returns (ss: seq<State>, es: seq<Event>)
    requires Stable(lim, s) && PastLooking(s, t) && !DropPending(s)
    ensures IsContinuation(true, Cleared(s), ss, es) && !AllHaveReason(ss[|es|])
  {
    var s' := Cleared(s);
    ClearedRing(lim, s);
    assert s.threads[t].op.Write? && t !in s.awake;
    if s.threads[t].pc.Asleep? {
      ss, es := [s'], [];
      assert SleepsUnwoken(s', t) && !HasReason(s', t);
    } else {
      var asleep := Goto(s', t, Asleep);
      ss, es := [s', asleep], [Do(t, Go)];
      assert Exec(true, s', t, Go) == Some(asleep);
      assert StepAt(true, ss, es, 0);
      assert SleepsUnwoken(asleep, t) && !HasReason(asleep, t);
    }
  }

  /**
   After a clear at any moment, whoever holds the mutex, no wakeup is lost in any continuation if and
   only if the holder owes the writers a wakeup anyway, or no registered writer is asleep or has
   finished its scan with every slot taken.
   */
  lemma ClearStrandsWriters(lim: Fifo.Limits, s: State)
    requires Stable(lim, s) && WakeInv(s)
    ensures LosesNoWakeup(Cleared(s)) <==> DropPending(s) || !exists t :: PastLooking(s, t)
  {
    if Harmless(s) {
      ClearKeepsStable(lim, s);
      ClearKeepsWakeInvIff(lim, s);
      WakeInvLosesNone(lim, Cleared(s));
    } else {
      var t :| PastLooking(s, t);
      var ss, es := PastLookingIsStranded(lim, s, t);
    }
  }

  /** In the state right after the clear, only the writers already asleep count. */
  lemma ClearStrandsSleepers(lim: Fifo.Limits, s: State)
    requires Stable(lim, s) && WakeInv(s)
    ensures AllHaveReason(Cleared(s))
       <==> DropPending(s) || !exists t :: SleepsUnwoken(s, t) && s.threads[t].op.Write?
  {
    ClearedRing(lim, s);
    assert forall t :: SleepsUnwoken(s, t) <==> SleepsUnwoken(Cleared(s), t);
  }

  lemma {:induction false} HarmlessClearsKeepWakeInv(ss: seq<State>, es: seq<Option<Event>>, n: nat)
    requires IsRunWithClears(true, ss, es) && n <= |es|
    requires forall k | 0 <= k < n && es[k].None? :: Harmless(ss[k])
    ensures Stable(LimitsOf(ss[0]), ss[n]) && WakeInv(ss[n])
  {
    ClearsKeepStable(true, ss, es, n);
    if n > 0 {
      HarmlessClearsKeepWakeInv(ss, es, n - 1);
      assert ClearStepAt(true, ss, es, n - 1);
      if es[n - 1].None? {
        ClearKeepsWakeInvIff(LimitsOf(ss[0]), ss[n - 1]);
      } else {
        StepKeepsWakeInv(LimitsOf(ss[0]), ss[n - 1], es[n - 1].value, ss[n]);
      }
    }
  }

  /** The first harmful clear of a run leads to a state from which a wakeup can be lost. */
  lemma {:induction false} HarmfulClearLosesWakeup(ss: seq<State>, es: seq<Option<Event>>, k: nat) returns (j: nat)
    requires IsRunWithClears(true, ss, es) && k < |es| && es[k].None? && !Harmless(ss[k])
    ensures j <= k && !LosesNoWakeup(ss[j + 1])
  {
    if i :| 0 <= i < k && es[i].None? && !Harmless(ss[i]) {
      j := HarmfulClearLosesWakeup(ss, es, i);
    } else {
      j := k;
      HarmlessClearsKeepWakeInv(ss, es, k);
      assert ClearStepAt(true, ss, es, k);
      ClearStrandsWriters(LimitsOf(ss[0]), ss[k]);
    }
  }

  /**
   In a run with clears, no wakeup can be lost from any state up to `n` on if and only if every clear
   before `n` is harmless.
   */
  lemma WakeupsWithClearsIff(ss: seq<State>, es: seq<Option<Event>>, n: nat)
    requires IsRunWithClears(true, ss, es) && n <= |es|
    ensures (forall k | 0 <= k <= n :: LosesNoWakeup(ss[k]))
       <==> (forall k | 0 <= k < n && es[k].None? :: Harmless(ss[k]))
  {
    if k :| 0 <= k < n && es[k].None? && !Harmless(ss[k]) {
      var j := HarmfulClearLosesWakeup(ss, es, k);
    } else {
      forall k | 0 <= k <= n
        ensures LosesNoWakeup(ss[k])
      {
        HarmlessClearsKeepWakeInv(ss, es, k);
        WakeInvLosesNone(LimitsOf(ss[0]), ss[k]);
      }
    }
  }

  /** As long as every clear is harmless, the system rests only when it should. */
  lemma RestWithClears(ss: seq<State>, es: seq<Option<Event>>, n: nat)
    requires IsRunWithClears(true, ss, es) && n <= |es|
    requires forall k | 0 <= k < n && es[k].None? :: Harmless(ss[k])
    requires R.Shaped(ss[n].ring) && Quiet(ss[n])
    ensures Rested(ss[n])
  {
    HarmlessClearsKeepWakeInv(ss, es, n);
    RestHasReason(LimitsOf(ss[0]), ss[n]);
  }

  // ---------------------------------------------------------------- reachable failures

  /**
   For every capacity there is a reachable state whose clear leaves the system at rest with a writer
   asleep on an empty ring, the mutex free and nobody to wake it: what `DriverWakeups.RestIsJustified`
   excludes without the ioctl.
   */
  lemma ClearLeavesWriterAsleep(capacity: nat, dataSize: nat, clock: Time, op: Op) returns (s: State)
    requires 0 < capacity && op.Write? && !op.nonblock && |op.data| <= dataSize
    ensures Reachable(true, s) && R.Shaped(s.ring)
    ensures s.ring.capacity == capacity && |R.QueueOf(s.ring)| == capacity
    ensures s.threads == map[1 := Thread(op, clock, Asleep)] && s.writerQ == {1} && s.owner == None
    ensures Quiet(Cleared(s)) && SleepsUnwoken(Cleared(s), 1) && R.QueueOf(Cleared(s).ring) == []
  {
    var full := QueuedReaches(true, capacity, dataSize, clock, op, capacity);
    s := WriterFallsAsleep(true, full, 1, op);
    R.ClearRefines(full.ring);
  }

  /** For every capacity there is a reachable state whose clear makes a running read return -ENODATA. */
  lemma ClearFailsARead(capacity: nat, dataSize: nat, clock: Time, write: Op, read: Op) returns (s: State)
    requires 0 < capacity && write.Write? && |write.data| <= dataSize && read.Read? && read.count <= dataSize
    ensures Reachable(true, s) && R.Shaped(s.ring) && s.ring.capacity == capacity
    ensures s.threads == map[1 := Thread(read, clock, Remove)] && |R.QueueOf(s.ring)| == 1
    ensures Exec(true, Cleared(s), 1, Go) == Some(Goto(Cleared(s), 1, Unlock(Failed(ENODATA))))
  {
    var one := QueuedReaches(true, capacity, dataSize, clock, write, 1);
    ReaderReachesPop(true, one, 1, read);
    s := Only(one.(owner := Some(1)), 1, Thread(read, clock, Remove));
    R.ClearRefines(one.ring);
  }
}
