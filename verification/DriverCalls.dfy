/**
 What a call does when nothing disturbs it: from any state with the mutex free, whatever other threads
 wait or sleep, a thread that executes its own statements to the end returns what the device promises,
 or goes to sleep for the right reason.
 */
module DriverCalls {
  import opened Messages
  import opened Calls
  import opened Driver
  import R = RingStore
  import Fifo

  /** Thread `t` executes its next statement. */
  ghost predicate Statement(exact: bool, s: State, t: Tid, s': State) {
    R.Shaped(s.ring) && t in s.threads && Exec(exact, s, t, Go) == Some(s')
  }

  ghost predicate StatementAt(exact: bool, t: Tid, ss: seq<State>, i: nat)
    requires i + 1 < |ss|
  {
    Statement(exact, ss[i], t, ss[i + 1])
  }

  /** States that follow each other by statements of thread `t` alone. */
  ghost predicate IsAlone(exact: bool, t: Tid, ss: seq<State>) {
    && ss != []
    && forall i {:trigger StatementAt(exact, t, ss, i)} | 0 <= i < |ss| - 1 :: StatementAt(exact, t, ss, i)
  }

  /** Thread `t`, executing alone, gets from `s` to `s'`; there is only one way it can go. */
  ghost predicate ComesTo(exact: bool, s: State, t: Tid, s': State) {
    exists ss :: IsAlone(exact, t, ss) && ss[0] == s && ss[|ss| - 1] == s'
  }

  lemma StartsHere(exact: bool, s: State, t: Tid)
    requires t in s.threads
    ensures ComesTo(exact, s, t, Goto(s, t, s.threads[t].pc))
  {
    assert Goto(s, t, s.threads[t].pc) == s;
    assert IsAlone(exact, t, [s]);
  }

  lemma OneMore(exact: bool, s0: State, t: Tid, s: State, s': State)
    requires ComesTo(exact, s0, t, s) && Statement(exact, s, t, s')
    ensures ComesTo(exact, s0, t, s')
  {
    var ss :| IsAlone(exact, t, ss) && ss[0] == s0 && ss[|ss| - 1] == s;
    var longer := ss + [s'];
    forall i | 0 <= i < |longer| - 1
      ensures StatementAt(exact, t, longer, i)
    {
      assert i < |ss| - 1 ==> StatementAt(exact, t, ss, i);
    }
    assert IsAlone(exact, t, longer);
  }

  /** One more statement, which takes the rest of the state from `s` to `s'`. */
  lemma Advance(exact: bool, s0: State, t: Tid, s: State, pc: Pc, s': State, pc': Pc)
    requires R.Shaped(s.ring) && t in s.threads && s'.threads == s.threads
    requires ComesTo(exact, s0, t, Goto(s, t, pc))
    requires Exec(exact, Goto(s, t, pc), t, Go) == Some(Goto(Goto(s', t, pc), t, pc'))
    ensures ComesTo(exact, s0, t, Goto(s', t, pc'))
  {
    assert Goto(Goto(s', t, pc), t, pc') == Goto(s', t, pc');
    OneMore(exact, s0, t, Goto(s, t, pc), Goto(s', t, pc'));
  }

  // ---------------------------------------------------------------- the way to the guard

  lemma GetsToLock(exact: bool, s: State, t: Tid)
    requires R.Shaped(s.ring) && t in s.threads && s.threads[t].pc.Start?
    requires !TooLarge(s.ring.dataSize, s.threads[t].op)
    ensures ComesTo(exact, s, t, Goto(s, t, Lock))
  {
    StartsHere(exact, s, t);
    Advance(exact, s, t, s, Start, s, Lock);
  }

  lemma TakesTheLock(exact: bool, s: State, t: Tid)
    requires R.Shaped(s.ring) && t in s.threads && s.threads[t].pc.Start? && s.owner == None
    requires !TooLarge(s.ring.dataSize, s.threads[t].op)
    ensures ComesTo(exact, s, t, Goto(s.(owner := Some(t)), t, if s.threads[t].op.Cleanup? then Sweep([]) else Test))
  {
    GetsToLock(exact, s, t);
    Advance(exact, s, t, s, Lock, s.(owner := Some(t)), if s.threads[t].op.Cleanup? then Sweep([]) else Test);
  }

  lemma IsRefused(exact: bool, s: State, t: Tid)
    requires R.Shaped(s.ring) && t in s.threads && s.threads[t].pc.Start?
    requires TooLarge(s.ring.dataSize, s.threads[t].op)
    ensures ComesTo(exact, s, t, Goto(s, t, Finished(Failed(EINVAL))))
  {
    StartsHere(exact, s, t);
    Advance(exact, s, t, s, Start, s, Finished(Failed(EINVAL)));
  }

  /** The final unlock. */
  lemma Returns(exact: bool, s0: State, t: Tid, s: State, res: Result)
    requires R.Shaped(s.ring) && t in s.threads && ComesTo(exact, s0, t, Goto(s, t, Unlock(res)))
    ensures ComesTo(exact, s0, t, Goto(s.(owner := None), t, Finished(res)))
  {
    Advance(exact, s0, t, s, Unlock(res), s.(owner := None), Finished(res));
  }

  // ---------------------------------------------------------------- the wait

  lemma GivesWay(exact: bool, s0: State, t: Tid, s: State)
    requires R.Shaped(s.ring) && t in s.threads && s.owner == None
    requires ComesTo(exact, s0, t, Goto(s.(owner := Some(t)), t, Test))
    requires !s.threads[t].op.Cleanup? && MustWait(s.ring, s.threads[t].op)
    ensures ComesTo(exact, s0, t, Goto(s, t, Block))
  {
    var held := s.(owner := Some(t));
    Advance(exact, s0, t, held, Test, held, Release);
    Releases(exact, s0, t, held);
    assert held.(owner := None) == s;
  }

  lemma Releases(exact: bool, s0: State, t: Tid, s: State)
    requires R.Shaped(s.ring) && t in s.threads && ComesTo(exact, s0, t, Goto(s, t, Release))
    ensures ComesTo(exact, s0, t, Goto(s.(owner := None), t, Block))
  {
    Advance(exact, s0, t, s, Release, s.(owner := None), Block);
  }

  lemma BeginsToWait(exact: bool, s0: State, t: Tid, s: State)
    requires R.Shaped(s.ring) && t in s.threads && ComesTo(exact, s0, t, Goto(s, t, Block))
    requires !s.threads[t].op.Cleanup? && !s.threads[t].op.nonblock
    ensures ComesTo(exact, s0, t, Goto(AddWaiting(s, s.threads[t].op, 1), t, Precheck(0, 0)))
  {
    Advance(exact, s0, t, s, Block, AddWaiting(s, s.threads[t].op, 1), Precheck(0, 0));
  }

  /** The number of valid slots among the first `i`. */
  function Seen(s: State, i: nat): nat
    requires i <= |s.ring.records|
  {
    R.ValidUpTo(s.ring.records, i)
  }

  lemma PrecheckMore(exact: bool, s0: State, t: Tid, s: State, i: nat)
    requires R.Shaped(s.ring) && t in s.threads && i < s.ring.capacity
    requires ComesTo(exact, s0, t, Goto(s, t, Precheck(i, Seen(s, i))))
    ensures ComesTo(exact, s0, t, Goto(s, t, Precheck(i + 1, Seen(s, i + 1))))
  {
    Advance(exact, s0, t, s, Precheck(i, Seen(s, i)), s, Precheck(i + 1, Seen(s, i + 1)));
  }

  lemma ScanMore(exact: bool, s0: State, t: Tid, s: State, sig: bool, i: nat)
    requires R.Shaped(s.ring) && t in s.threads && i < s.ring.capacity
    requires ComesTo(exact, s0, t, Goto(s, t, Scan(sig, i, Seen(s, i))))
    ensures ComesTo(exact, s0, t, Goto(s, t, Scan(sig, i + 1, Seen(s, i + 1))))
  {
    Advance(exact, s0, t, s, Scan(sig, i, Seen(s, i)), s, Scan(sig, i + 1, Seen(s, i + 1)));
  }

  lemma {:induction false} PrecheckCounts(exact: bool, s0: State, t: Tid, s: State, i: nat)
    requires R.Shaped(s.ring) && t in s.threads && i <= s.ring.capacity
    requires ComesTo(exact, s0, t, Goto(s, t, Precheck(0, 0)))
    ensures ComesTo(exact, s0, t, Goto(s, t, Precheck(i, Seen(s, i))))
  {
    if i > 0 {
      PrecheckCounts(exact, s0, t, s, i - 1);
      PrecheckMore(exact, s0, t, s, i - 1);
    }
  }

  lemma {:induction false} ScanCounts(exact: bool, s0: State, t: Tid, s: State, sig: bool, i: nat)
    requires R.Shaped(s.ring) && t in s.threads && i <= s.ring.capacity
    requires ComesTo(exact, s0, t, Goto(s, t, Scan(sig, 0, 0)))
    ensures ComesTo(exact, s0, t, Goto(s, t, Scan(sig, i, Seen(s, i))))
  {
    if i > 0 {
      ScanCounts(exact, s0, t, s, sig, i - 1);
      ScanMore(exact, s0, t, s, sig, i - 1);
    }
  }

  /** On the queue of its side, counted, and not woken. */
  function Enqueued(s: State, t: Tid): State
    requires t in s.threads
  {
    if s.threads[t].op.Write? then
      s.(writerQ := s.writerQ + {t}, awake := s.awake - {t}, writerWaiting := s.writerWaiting + 1)
    else
      s.(readerQ := s.readerQ + {t}, awake := s.awake - {t}, readerWaiting := s.readerWaiting + 1)
  }

  /** The first look, before the thread is on a queue. */
  lemma PrecheckDecides(exact: bool, s0: State, t: Tid, s: State)
    requires R.Shaped(s.ring) && t in s.threads && ComesTo(exact, s0, t, Goto(s, t, Precheck(0, 0)))
    ensures ComesTo(exact, s0, t, Goto(s, t, if MustWait(s.ring, s.threads[t].op) then Enlist else Leave(false)))
  {
    var n, k := s.ring.capacity, R.Count(s.ring);
    PrecheckCounts(exact, s0, t, s, n);
    Advance(exact, s0, t, s, Precheck(n, k),
            s, if MustWait(s.ring, s.threads[t].op) then Enlist else Leave(false));
  }

  /** The look of a thread whose condition is false: it sleeps, or, interrupted, gives up. */
  lemma ScanFails(exact: bool, s0: State, t: Tid, s: State, sig: bool)
    requires R.Shaped(s.ring) && t in s.threads && ComesTo(exact, s0, t, Goto(s, t, Scan(sig, 0, 0)))
    requires MustWait(s.ring, s.threads[t].op)
    ensures ComesTo(exact, s0, t, Goto(s, t, if sig then Leave(true) else Asleep))
  {
    var n, k := s.ring.capacity, R.Count(s.ring);
    ScanCounts(exact, s0, t, s, sig, n);
    Advance(exact, s0, t, s, Scan(sig, n, k), s, if sig then Leave(true) else Asleep);
  }

  /** The look of a thread whose condition has come true: it leaves the queue and goes on, interrupted or not. */
  lemma ScanSucceeds(exact: bool, s0: State, t: Tid, s: State, sig: bool)
    requires R.Shaped(s.ring) && t in s.threads && ComesTo(exact, s0, t, Goto(s, t, Scan(sig, 0, 0)))
    requires !MustWait(s.ring, s.threads[t].op)
    ensures ComesTo(exact, s0, t, Goto(Unregister(s, t), t, Leave(false)))
  {
    var n, k := s.ring.capacity, R.Count(s.ring);
    ScanCounts(exact, s0, t, s, sig, n);
    Advance(exact, s0, t, s, Scan(sig, n, k), Unregister(s, t), Leave(false));
  }

  lemma FallsAsleep(exact: bool, s0: State, t: Tid, s: State)
    requires R.Shaped(s.ring) && t in s.threads
    requires ComesTo(exact, s0, t, Goto(s, t, Block))
    requires !s.threads[t].op.Cleanup? && !s.threads[t].op.nonblock && MustWait(s.ring, s.threads[t].op)
    ensures ComesTo(exact, s0, t, Goto(Enqueued(s, t), t, Asleep))
  {
    var waiting := AddWaiting(s, s.threads[t].op, 1);
    BeginsToWait(exact, s0, t, s);
    PrecheckDecides(exact, s0, t, waiting);
    Registers(exact, s0, t, waiting);
    assert Register(waiting, t) == Enqueued(s, t);
    ScanFails(exact, s0, t, Enqueued(s, t), false);
  }

  lemma Registers(exact: bool, s0: State, t: Tid, s: State)
    requires R.Shaped(s.ring) && t in s.threads && ComesTo(exact, s0, t, Goto(s, t, Enlist))
    ensures ComesTo(exact, s0, t, Goto(Register(s, t), t, Scan(false, 0, 0)))
  {
    Advance(exact, s0, t, s, Enlist, Register(s, t), Scan(false, 0, 0));
  }

  // ---------------------------------------------------------------- undisturbed calls

  /** Apart from the program counter of `t` and the ring's contents, `s'` differs only in its waiters. */
  ghost predicate OnlyMoves(s: State, t: Tid, s': State)
    requires t in s.threads
  {
    && t in s'.threads && s'.threads == s.threads[t := s.threads[t].(pc := s'.threads[t].pc)]
    && s'.owner == None && s'.clock == s.clock
    && R.WellFormed(s'.ring)
    && s'.ring.capacity == s.ring.capacity && s'.ring.dataSize == s.ring.dataSize
  }

  ghost predicate SameWaiters(s: State, s': State) {
    && s'.readerQ == s.readerQ && s'.writerQ == s.writerQ && s'.awake == s.awake
    && s'.readerWaiting == s.readerWaiting && s'.writerWaiting == s.writerWaiting
  }

  /** The call has its result, with the queue as it was. */
  ghost predicate Fails(s: State, t: Tid, s': State, e: Errno)
    requires t in s.threads && R.Shaped(s.ring)
  {
    && OnlyMoves(s, t, s') && SameWaiters(s, s')
    && s'.threads[t].pc == Finished(Result(Fail(e), [])) && s'.ring == s.ring
  }

  lemma WriteIsStamped(exact: bool, s0: State, t: Tid, s: State)
    requires R.Shaped(s.ring) && t in s.threads && s.threads[t].op.Write?
    requires ComesTo(exact, s0, t, Goto(s, t, Test)) && !MustWait(s.ring, s.threads[t].op)
    ensures ComesTo(exact, s0, t, Goto(s, t, CopyIn(s.clock)))
  {
    Advance(exact, s0, t, s, Test, s, Stamp);
    Advance(exact, s0, t, s, Stamp, s, CopyIn(s.clock));
  }

  lemma WriteIsCopied(exact: bool, s0: State, t: Tid, s: State, stamp: Time)
    requires R.Shaped(s.ring) && t in s.threads && ComesTo(exact, s0, t, Goto(s, t, CopyIn(stamp)))
    ensures ComesTo(exact, s0, t, Goto(s, t, Insert(stamp)))
  {
    Advance(exact, s0, t, s, CopyIn(stamp), s, Insert(stamp));
  }

  lemma WriteGoesIn(exact: bool, s0: State, t: Tid, s: State, stamp: Time, ring: R.Ring, status: Status)
    requires R.Shaped(s.ring) && t in s.threads && s.threads[t].op.Write?
    requires ComesTo(exact, s0, t, Goto(s, t, Insert(stamp)))
    requires var op := s.threads[t].op;
      R.Push(s.ring, op.data, op.uid, op.gid, stamp) == R.Outcome(ring, status, [])
    requires status.Ok?
    ensures ComesTo(exact, s0, t, Goto(s.(ring := ring), t, WakeReaders(Result(status, []))))
  {
    Advance(exact, s0, t, s, Insert(stamp), s.(ring := ring), WakeReaders(Result(status, [])));
  }

  lemma WakesReaders(exact: bool, s0: State, t: Tid, s: State, res: Result)
    requires R.Shaped(s.ring) && t in s.threads
    requires ComesTo(exact, s0, t, Goto(s, t, WakeReaders(res)))
    ensures var free := s.(readerQ := {}, awake := s.awake + s.readerQ, owner := None);
      ComesTo(exact, s0, t, Goto(free, t, Finished(res)))
  {
    var woken := s.(readerQ := {}, awake := s.awake + s.readerQ);
    Advance(exact, s0, t, s, WakeReaders(res), woken, Unlock(res));
    Returns(exact, s0, t, woken, res);
  }

  /** A call that finds the guard true returns -EAGAIN, or sleeps on the queue of its side. */
  ghost predicate Stays(s: State, t: Tid, s': State)
    requires t in s.threads && R.Shaped(s.ring) && !s.threads[t].op.Cleanup?
  {
    if s.threads[t].op.nonblock then Fails(s, t, s', EAGAIN)
    else
      && OnlyMoves(s, t, s') && s'.ring == s.ring
      && s'.threads[t].pc == Asleep && s'.awake == s.awake - {t}
      && (if s.threads[t].op.Write? then
            && s'.writerQ == s.writerQ + {t} && s'.writerWaiting == s.writerWaiting + 1
            && s'.readerQ == s.readerQ && s'.readerWaiting == s.readerWaiting
          else
            && s'.readerQ == s.readerQ + {t} && s'.readerWaiting == s.readerWaiting + 1
            && s'.writerQ == s.writerQ && s'.writerWaiting == s.writerWaiting)
  }

  lemma GuardedCallStays(exact: bool, s: State, t: Tid) returns (s': State)
    requires R.WellFormed(s.ring) && t in s.threads && s.threads[t].pc.Start? && s.owner == None
    requires !TooLarge(s.ring.dataSize, s.threads[t].op)
    requires !s.threads[t].op.Cleanup? && MustWait(s.ring, s.threads[t].op)
    ensures ComesTo(exact, s, t, s') && Stays(s, t, s')
  {
    TakesTheLock(exact, s, t);
    GivesWay(exact, s, t, s);
    if s.threads[t].op.nonblock {
      s' := Goto(s, t, Finished(Failed(EAGAIN)));
      Advance(exact, s, t, s, Block, s, Finished(Failed(EAGAIN)));
    } else {
      s' := Goto(Enqueued(s, t), t, Asleep);
      FallsAsleep(exact, s, t, s);
    }
  }

  /**
   An undisturbed write: too long, it is refused; on a full ring it returns -EAGAIN or sleeps; else its
   message, stamped with the clock, is queued last, the readers are woken, and it returns its length.
   */
  lemma UndisturbedWrite(exact: bool, s: State, t: Tid) returns (s': State)
    requires R.WellFormed(s.ring) && s.owner == None
    requires t in s.threads && s.threads[t].pc.Start? && s.threads[t].op.Write?
    ensures ComesTo(exact, s, t, s')
    ensures var op, q := s.threads[t].op, R.QueueOf(s.ring);
      if |op.data| > s.ring.dataSize then Fails(s, t, s', EINVAL)
      else if |q| == s.ring.capacity then Stays(s, t, s')
      else
        && OnlyMoves(s, t, s')
        && s'.threads[t].pc == Finished(Result(Ok(|op.data|), []))
        && R.QueueOf(s'.ring) == q + [Msg(Stored(op.data), op.uid, op.gid, s.clock)]
        && s'.readerQ == {} && s'.awake == s.awake + s.readerQ && s'.writerQ == s.writerQ
        && s'.readerWaiting == s.readerWaiting && s'.writerWaiting == s.writerWaiting
  {
    var op := s.threads[t].op;
    if TooLarge(s.ring.dataSize, op) {
      s' := Goto(s, t, Finished(Failed(EINVAL)));
      IsRefused(exact, s, t);
    } else if MustWait(s.ring, op) {
      s' := GuardedCallStays(exact, s, t);
    } else {
      var held, o := s.(owner := Some(t)), R.Push(s.ring, op.data, op.uid, op.gid, s.clock);
      R.PushRefines(s.ring, op.data, op.uid, op.gid, s.clock);
      TakesTheLock(exact, s, t);
      WriteIsStamped(exact, s, t, held);
      WriteIsCopied(exact, s, t, held, s.clock);
      WriteGoesIn(exact, s, t, held, s.clock, o.ring, o.status);
      WakesReaders(exact, s, t, held.(ring := o.ring), Result(o.status, []));
      s' := Goto(s.(ring := o.ring, readerQ := {}, awake := s.awake + s.readerQ), t, Finished(Result(o.status, [])));
    }
  }

  lemma GetsToPop(exact: bool, s: State, t: Tid)
    requires R.Shaped(s.ring) && s.owner == None && R.QueueOf(s.ring) != []
    requires t in s.threads && s.threads[t].pc.Start? && s.threads[t].op.Read?
    requires s.threads[t].op.count <= s.ring.dataSize
    ensures ComesTo(exact, s, t, Goto(s.(owner := Some(t)), t, Remove))
  {
    TakesTheLock(exact, s, t);
    Advance(exact, s, t, s.(owner := Some(t)), Test, s.(owner := Some(t)), Remove);
  }

  lemma ReadTakesOut(exact: bool, s0: State, t: Tid, s: State, o: R.Outcome, res: Result)
    requires R.Shaped(s.ring) && t in s.threads && s.threads[t].op.Read?
    requires ComesTo(exact, s0, t, Goto(s, t, Remove))
    requires o == R.Pop(s.ring, s.threads[t].op.uid, s.threads[t].op.gid)
    requires o.status.Ok? && R.Shaped(o.ring) && |o.bytes| <= s.threads[t].op.count
    requires res == Result(o.status, Padded(o.bytes, s.threads[t].op.count))
    ensures ComesTo(exact, s0, t, Goto(s.(ring := o.ring), t, WakeWriters(R.MsgAt(s.ring, s.ring.tail), res)))
  {
    Advance(exact, s0, t, s, Remove, s.(ring := o.ring), WakeWriters(R.MsgAt(s.ring, s.ring.tail), res));
  }

  lemma WakesWriters(exact: bool, s0: State, t: Tid, s: State, m: Msg, res: Result)
    requires R.Shaped(s.ring) && t in s.threads
    requires ComesTo(exact, s0, t, Goto(s, t, WakeWriters(m, res)))
    ensures var free := s.(writerQ := {}, awake := s.awake + s.writerQ, owner := None);
      ComesTo(exact, s0, t, Goto(free, t, Finished(res)))
  {
    var woken := s.(writerQ := {}, awake := s.awake + s.writerQ);
    Advance(exact, s0, t, s, WakeWriters(m, res), woken, CopyOut(m, res));
    Advance(exact, s0, t, woken, CopyOut(m, res), woken, Unlock(res));
    Returns(exact, s0, t, woken, res);
  }

  lemma ReadIsDenied(exact: bool, s0: State, t: Tid, s: State, e: Errno)
    requires R.Shaped(s.ring) && t in s.threads && s.threads[t].op.Read?
    requires ComesTo(exact, s0, t, Goto(s, t, Remove))
    requires R.Pop(s.ring, s.threads[t].op.uid, s.threads[t].op.gid) == R.Outcome(s.ring, Fail(e), [])
    ensures ComesTo(exact, s0, t, Goto(s.(owner := None), t, Finished(Failed(e))))
  {
    Advance(exact, s0, t, s, Remove, s, Unlock(Failed(e)));
    Returns(exact, s0, t, s, Failed(e));
  }

  /**
   An undisturbed read: of too many bytes, it is refused; on an empty ring it returns -EAGAIN or sleeps;
   for an oldest message of other owners it returns -EACCES; else it returns the oldest message, zeros
   behind it, takes it off the queue and wakes the writers. A message that does not fit stops it there.
   */
  lemma UndisturbedRead(exact: bool, s: State, t: Tid) returns (s': State)
    requires R.WellFormed(s.ring) && s.owner == None
    requires t in s.threads && s.threads[t].pc.Start? && s.threads[t].op.Read?
    ensures ComesTo(exact, s, t, s')
    ensures var op, q := s.threads[t].op, R.QueueOf(s.ring);
      if op.count > s.ring.dataSize then Fails(s, t, s', EINVAL)
      else if q == [] then Stays(s, t, s')
      else if op.uid != 0 && op.uid != q[0].uid && op.gid != q[0].gid then Fails(s, t, s', EACCES)
      else if |q[0].payload| > op.count then
        t in s'.threads && s'.threads[t].pc == Remove && s'.owner == Some(t) && s'.ring == s.ring
      else Delivered(s, t, s', q[0], q[1..])
  {
    var op := s.threads[t].op;
    if TooLarge(s.ring.dataSize, op) {
      s' := Goto(s, t, Finished(Failed(EINVAL)));
      IsRefused(exact, s, t);
    } else if MustWait(s.ring, op) {
      s' := GuardedCallStays(exact, s, t);
    } else {
      s' := UndisturbedPop(exact, s, t);
    }
  }

  /** The state in which a read leaves things once it has been given the message. */
  ghost predicate Delivered(s: State, t: Tid, s': State, m: Msg, rest: seq<Msg>)
    requires t in s.threads && s.threads[t].op.Read? && |m.payload| <= s.threads[t].op.count
  {
    && OnlyMoves(s, t, s')
    && s'.threads[t].pc
       == Finished(Result(Ok(|m.payload|), m.payload + Zeros(s.threads[t].op.count - |m.payload|)))
    && R.QueueOf(s'.ring) == rest
    && s'.writerQ == {} && s'.awake == s.awake + s.writerQ && s'.readerQ == s.readerQ
    && s'.readerWaiting == s.readerWaiting && s'.writerWaiting == s.writerWaiting
  }

  lemma PopDelivers(exact: bool, s: State, t: Tid, o: R.Outcome, m: Msg) returns (s': State)
    requires R.WellFormed(s.ring) && t in s.threads && s.threads[t].op.Read? && s.owner == None
    requires ComesTo(exact, s, t, Goto(s.(owner := Some(t)), t, Remove))
    requires o == R.Pop(s.ring, s.threads[t].op.uid, s.threads[t].op.gid)
    requires o.status == Ok(|m.payload|) && o.bytes == m.payload && |m.payload| <= s.threads[t].op.count
    requires R.WellFormed(o.ring) && o.ring.capacity == s.ring.capacity && o.ring.dataSize == s.ring.dataSize
    ensures ComesTo(exact, s, t, s') && Delivered(s, t, s', m, R.QueueOf(o.ring))
  {
    var op, held := s.threads[t].op, s.(owner := Some(t));
    var res := Result(o.status, Padded(o.bytes, op.count));
    ReadTakesOut(exact, s, t, held, o, res);
    WakesWriters(exact, s, t, held.(ring := o.ring), R.MsgAt(s.ring, s.ring.tail), res);
    s' := Goto(s.(ring := o.ring, writerQ := {}, awake := s.awake + s.writerQ), t, Finished(res));
  }

  lemma UndisturbedPop(exact: bool, s: State, t: Tid) returns (s': State)
    requires R.WellFormed(s.ring) && s.owner == None && R.QueueOf(s.ring) != []
    requires t in s.threads && s.threads[t].pc.Start? && s.threads[t].op.Read?
    requires s.threads[t].op.count <= s.ring.dataSize
    ensures ComesTo(exact, s, t, s')
    ensures var op, q := s.threads[t].op, R.QueueOf(s.ring);
      if op.uid != 0 && op.uid != q[0].uid && op.gid != q[0].gid then Fails(s, t, s', EACCES)
      else if |q[0].payload| > op.count then
        t in s'.threads && s'.threads[t].pc == Remove && s'.owner == Some(t) && s'.ring == s.ring
      else Delivered(s, t, s', q[0], q[1..])
  {
    var op, held := s.threads[t].op, s.(owner := Some(t));
    var o := R.Pop(s.ring, op.uid, op.gid);
    R.PopRefines(s.ring, op.uid, op.gid);
    GetsToPop(exact, s, t);
    if o.status.Fail? {
      s' := Goto(s, t, Finished(Failed(EACCES)));
      ReadIsDenied(exact, s, t, held, EACCES);
    } else if |o.bytes| > op.count {
      s' := Goto(held, t, Remove);
    } else {
      s' := PopDelivers(exact, s, t, o, R.QueueOf(s.ring)[0]);
    }
  }

  lemma {:induction false} SweepsAll(exact: bool, s0: State, t: Tid, s: State, dropped: seq<Msg>)
    returns (expired: nat)
    requires R.Shaped(s.ring) && t in s.threads
    requires ComesTo(exact, s0, t, Goto(s, t, Sweep(dropped)))
    ensures var o := R.Expire(s.ring, s.threads[t].began);
      ComesTo(exact, s0, t, Goto(s.(ring := o.ring), t, SweepWake(expired)))
    decreases R.Count(s.ring)
  {
    if R.Expirable(s.ring, s.threads[t].began) {
      var s', more := s.(ring := R.DropOldest(s.ring)), dropped + [R.MsgAt(s.ring, s.ring.tail)];
      R.DropOldestCounts(s.ring);
      Advance(exact, s0, t, s, Sweep(dropped), s', Sweep(more));
      expired := SweepsAll(exact, s0, t, s', more);
    } else {
      expired := |dropped|;
      Advance(exact, s0, t, s, Sweep(dropped), s, SweepWake(|dropped|));
    }
  }

  lemma SweepReturns(exact: bool, s0: State, t: Tid, s: State, expired: nat)
    requires R.Shaped(s.ring) && t in s.threads && ComesTo(exact, s0, t, Goto(s, t, SweepWake(expired)))
    ensures var free := s.(writerQ := {}, awake := s.awake + s.writerQ, owner := None);
      ComesTo(exact, s0, t, Goto(free, t, Finished(Result(Ok(0), []))))
  {
    var woken := s.(writerQ := {}, awake := s.awake + s.writerQ);
    Advance(exact, s0, t, s, SweepWake(expired), woken, Unlock(Result(Ok(0), [])));
    Returns(exact, s0, t, woken, Result(Ok(0), []));
  }

  /**
   An undisturbed cleanup drops the messages at the front that are stamped before its first statement,
   up to the first that is not, and wakes the writers.
   */
  lemma UndisturbedCleanup(exact: bool, s: State, t: Tid) returns (s': State, k: nat)
    requires R.WellFormed(s.ring) && s.owner == None
    requires t in s.threads && s.threads[t].pc.Start? && s.threads[t].op.Cleanup?
    ensures ComesTo(exact, s, t, s') && OnlyMoves(s, t, s')
    ensures s'.threads[t].pc == Finished(Result(Ok(0), []))
    ensures var q, began := R.QueueOf(s.ring), s.threads[t].began;
      && k <= |q| && R.QueueOf(s'.ring) == q[k..]
      && (forall i | 0 <= i < k :: q[i].stamp < began)
      && (k < |q| ==> began <= q[k].stamp)
    ensures s'.writerQ == {} && s'.awake == s.awake + s.writerQ && s'.readerQ == s.readerQ
    ensures s'.readerWaiting == s.readerWaiting && s'.writerWaiting == s.writerWaiting
  {
    var held, began := s.(owner := Some(t)), s.threads[t].began;
    var swept := held.(ring := R.Expire(s.ring, began).ring);
    k := Fifo.ExpiredPrefix(R.QueueOf(s.ring), began);
    R.ExpireRefines(s.ring, began);
    R.ExpireKeepsSize(s.ring, began);
    TakesTheLock(exact, s, t);
    var expired := SweepsAll(exact, s, t, held, []);
    SweepReturns(exact, s, t, swept, expired);
    s' := Goto(swept.(writerQ := {}, awake := s.awake + s.writerQ, owner := None), t, Finished(Result(Ok(0), [])));
  }

  // ---------------------------------------------------------------- how a wait goes on

  lemma LeavesWait(exact: bool, s0: State, t: Tid, s: State, interrupted: bool) returns (s': State)
    requires R.Shaped(s.ring) && t in s.threads && ComesTo(exact, s0, t, Goto(s, t, Leave(interrupted)))
    ensures ComesTo(exact, s0, t, s')
    ensures s' == Goto(AddWaiting(s, s.threads[t].op, -1), t,
                       if interrupted then Finished(Failed(ERESTARTSYS)) else Lock)
  {
    var out := AddWaiting(s, s.threads[t].op, -1);
    var pc := if interrupted then Finished(Failed(ERESTARTSYS)) else Lock;
    Advance(exact, s0, t, s, Leave(interrupted), out, pc);
    s' := Goto(out, t, pc);
  }

  /**
   A woken sleeper registers and looks again: it goes on to the lock if its condition has come true, and
   sleeps again, on its queue and counted as before, if not.
   */
  lemma WokenLooksAgain(exact: bool, s: State, t: Tid) returns (s': State)
    requires R.WellFormed(s.ring) && t in s.threads && s.threads[t].pc.Asleep? && t in s.awake
    ensures ComesTo(exact, s, t, s') && s'.ring == s.ring && t in s'.threads && s'.awake == s.awake - {t}
    ensures var op, q := s.threads[t].op, R.QueueOf(s.ring);
      if (if op.Write? then |q| == s.ring.capacity else q == []) then
        && s'.threads[t].pc == Asleep
        && s'.writerWaiting == s.writerWaiting && s'.readerWaiting == s.readerWaiting
        && (if op.Write? then t in s'.writerQ else t in s'.readerQ)
      else
        && s'.threads[t].pc == Lock
        && s'.writerWaiting + s'.readerWaiting == s.writerWaiting + s.readerWaiting - 1
        && (if op.Write? then t !in s'.writerQ else t !in s'.readerQ)
  {
    var queued := Register(s, t);
    StartsHere(exact, s, t);
    Advance(exact, s, t, s, Asleep, s, Enlist);
    Registers(exact, s, t, s);
    if MustWait(s.ring, s.threads[t].op) {
      ScanFails(exact, s, t, queued, false);
      s' := Goto(queued, t, Asleep);
    } else {
      ScanSucceeds(exact, s, t, queued, false);
      s' := LeavesWait(exact, s, t, Unregister(queued, t), false);
    }
  }

  /** The last look, off the queue, and what follows. */
  lemma InterruptedLook(exact: bool, s: State, t: Tid) returns (s': State)
    requires R.Shaped(s.ring) && t in s.threads && s.threads[t].pc == Scan(true, 0, 0)
    requires Unregister(s, t) == s
    ensures ComesTo(exact, s, t, s')
    ensures s' == Goto(AddWaiting(s, s.threads[t].op, -1), t,
                       if MustWait(s.ring, s.threads[t].op) then Finished(Failed(ERESTARTSYS)) else Lock)
  {
    StartsHere(exact, s, t);
    if MustWait(s.ring, s.threads[t].op) {
      ScanFails(exact, s, t, s, true);
      s' := LeavesWait(exact, s, t, s, true);
    } else {
      ScanSucceeds(exact, s, t, s, true);
      s' := LeavesWait(exact, s, t, s, false);
    }
  }

  /**
   A signal takes a waiting thread off its queue. It looks once more: if its condition has come true it
   goes on to the lock, and otherwise it returns -ERESTARTSYS; it does not sleep again.
   */
  lemma SignalEndsTheWait(exact: bool, s: State, t: Tid) returns (s1: State, s': State)
    requires R.WellFormed(s.ring) && t in s.threads && (s.threads[t].pc.Asleep? || s.threads[t].pc.Enlist?)
    ensures Exec(exact, s, t, Signal) == Some(s1) && ComesTo(exact, s1, t, s')
    ensures s'.ring == s.ring && t in s'.threads
    ensures var op, q := s.threads[t].op, R.QueueOf(s.ring);
      && s'.threads[t].pc
         == (if (if op.Write? then |q| == s.ring.capacity else q == [])
             then Finished(Result(Fail(ERESTARTSYS), [])) else Lock)
      && (if op.Write? then
            && s'.writerQ == s.writerQ - {t} && s'.readerQ == s.readerQ
            && s'.writerWaiting == s.writerWaiting - 1 && s'.readerWaiting == s.readerWaiting
          else
            && s'.readerQ == s.readerQ - {t} && s'.writerQ == s.writerQ
            && s'.readerWaiting == s.readerWaiting - 1 && s'.writerWaiting == s.writerWaiting)
  {
    s1 := Goto(Unregister(s, t), t, Scan(true, 0, 0));
    s' := InterruptedLook(exact, s1, t);
  }
}
