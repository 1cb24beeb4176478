/** What the invariants and the refinement say about every interleaved run of the driver. */
module DriverTheorems {
  import opened Messages
  import opened Calls
  import opened Driver
  import opened DriverInvariants
  import opened DriverReach
  import opened DriverRefinement
  import R = RingStore
  import A = AtomicPipe
  import AtomicRuns
  import Fifo

  /**
   At every moment of every run, the messages written so far are those delivered, expired or lost in
   a failed copy, then those in the hands of the mutex holder, then those on the ring: in order,
   none missing, none twice.
   */
  lemma NothingIsLost(exact: bool, ss: seq<State>, es: seq<Event>, ps: seq<A.Pipe>, ls: seq<A.Label>, n: nat)
    requires IsRun(exact, ss, es) && Mirrors(ss, es, ps, ls) && n <= |es|
    ensures R.Shaped(ss[n].ring)
    ensures AtomicRuns.Entered(ls, n)
         == AtomicRuns.MsgsOf(AtomicRuns.Removed(ls, n)) + (Limbo(ss[n]) + R.QueueOf(ss[n].ring))
  {
    RunIsAtomic(exact, ss, es, ps, ls);
    AtomicRuns.Conservation(LimitsOf(ss[0]), ps, ls, n);
    assert StateSeen(ss, ps, n);
  }

  /**
   The recheck under the mutex is enough. Even when the unlocked condition returns arbitrary
   values, the push always succeeds, the pop always finds a message, and no call ever returns
   -ENOSPC, -EMSGSIZE or -ENODATA.
   */
  lemma RecheckSuffices(exact: bool, ss: seq<State>, es: seq<Event>, n: nat, t: Tid)
    requires IsRun(exact, ss, es) && n <= |es| && t in ss[n].threads
    ensures R.Shaped(ss[n].ring)
    ensures Rechecked(ss[n].ring, ss[n].threads[t])
  {
    RunKeepsInv(exact, ss, es, n);
    var lim := LimitsOf(ss[0]);
    assert ThreadOk(lim, R.QueueOf(ss[n].ring), ss[n].clock, ss[n].threads[t]);
    assert Guarded(R.QueueOf(ss[n].ring), ss[n].threads[t]);
    RecheckedThread(lim, ss[n], ss[n].threads[t]);
  }

  /**
   When a read comes to its pop, the message fits its scratch buffer unless the read asked for fewer
   bytes than an oldest message it may read; a read that asks for a whole slot always has the room.
   */
  lemma ReadFitsIff(exact: bool, ss: seq<State>, es: seq<Event>, n: nat, t: Tid)
    requires IsRun(exact, ss, es) && n <= |es| && t in ss[n].threads && ss[n].threads[t].pc.Remove?
    ensures R.Shaped(ss[n].ring) && ss[n].threads[t].op.Read? && R.QueueOf(ss[n].ring) != []
    ensures var op, oldest := ss[n].threads[t].op, R.QueueOf(ss[n].ring)[0];
      && (Overruns(ss[n], t) <==> MayRead(op.uid, op.gid, oldest) && op.count < |oldest.payload|)
      && (op.count == ss[n].ring.dataSize ==> !Overruns(ss[n], t))
  {
    RunKeepsInv(exact, ss, es, n);
    assert ThreadOk(LimitsOf(ss[0]), R.QueueOf(ss[n].ring), ss[n].clock, ss[n].threads[t]);
    assert Guarded(R.QueueOf(ss[n].ring), ss[n].threads[t]);
    RemoveStep(LimitsOf(ss[0]), ss[n], ss[n].threads[t]);
  }

  /** The longest message a slot can hold and its record can describe. */
  function LongestMessage(dataSize: nat): nat {
    if dataSize < LEN_MODULUS then dataSize else LEN_MODULUS - 1
  }

  /** A read that asks for the longest message, or more, always has the room. */
  lemma LongReadFits(exact: bool, ss: seq<State>, es: seq<Event>, n: nat, t: Tid)
    requires IsRun(exact, ss, es) && n <= |es| && t in ss[n].threads && ss[n].threads[t].pc.Remove?
    requires ss[n].threads[t].op.Read? && LongestMessage(ss[0].ring.dataSize) <= ss[n].threads[t].op.count
    ensures R.Shaped(ss[n].ring) && !Overruns(ss[n], t)
  {
    var ps, ls := MirrorExists(exact, ss, es);
    RunIsAtomic(exact, ss, es, ps, ls);
    AtomicRuns.QueueIsShort(LimitsOf(ss[0]), ps, ls, n);
    ReadFitsIff(exact, ss, es, n, t);
    assert StateSeen(ss, ps, n);
    assert R.QueueOf(ss[n].ring)[0] in ps[n].queue;
  }

  /** A read that asks for less can find a message one byte longer than that. */
  lemma ShortReadOverruns(exact: bool, capacity: nat, dataSize: nat, clock: Time, read: Op) returns (s: State)
    requires 0 < capacity && read.Read? && read.count < LongestMessage(dataSize)
    ensures Reachable(exact, s) && s.ring.capacity == capacity && s.ring.dataSize == dataSize
    ensures s.threads == map[1 := Thread(read, clock, Remove)]
    ensures R.Shaped(s.ring) && Overruns(s, 1)
  {
    var write := Write(Zeros(read.count + 1), read.uid, read.gid, false);
    var blank := BlankReaches(exact, capacity, dataSize, clock);
    var one := WriteReaches(exact, blank, write);
    ReaderReachesPop(exact, one, 1, read);
    R.PopRefines(one.ring, read.uid, read.gid);
    s := Only(one.(owner := Some(1)), 1, Thread(read, clock, Remove));
  }

  /** `s` is a state, on such a ring, in which a thread is about to pop for the call `read`. */
  ghost predicate ComesToPop(exact: bool, capacity: nat, dataSize: nat, read: Op, s: State, t: Tid) {
    && Reachable(exact, s) && s.ring.capacity == capacity && s.ring.dataSize == dataSize
    && t in s.threads && s.threads[t].op == read && s.threads[t].pc.Remove?
  }

  /**
   In terms of the call alone: a read has room for its message in every run on a ring of any capacity
   if and only if it asks for `data_size` bytes, or for the 65535 that a record's length can say.
   */
  lemma ReadAlwaysFitsIff(exact: bool, capacity: nat, dataSize: nat, read: Op)
    requires 0 < capacity && read.Read?
    ensures (forall s, t | ComesToPop(exact, capacity, dataSize, read, s, t) :: R.Shaped(s.ring) && !Overruns(s, t))
       <==> (dataSize <= read.count || LEN_MODULUS - 1 <= read.count)
  {
    if read.count < LongestMessage(dataSize) {
      var s := ShortReadOverruns(exact, capacity, dataSize, 0, read);
      assert ComesToPop(exact, capacity, dataSize, read, s, 1);
    } else {
      forall s, t | ComesToPop(exact, capacity, dataSize, read, s, t)
        ensures R.Shaped(s.ring) && !Overruns(s, t)
      {
        var ss, es :| IsRun(exact, ss, es) && ss[|es|] == s;
        RunKeepsInv(exact, ss, es, |es|);
        LongReadFits(exact, ss, es, |es|, t);
      }
    }
  }

  /**
   At most one thread is in a critical section, a returning thread is in none, and an event that
   changes the ring is a statement of the thread that owns the mutex before and after it.
   */
  lemma MutexDiscipline(exact: bool, ss: seq<State>, es: seq<Event>, n: nat)
    requires IsRun(exact, ss, es) && n < |es|
    ensures forall t, u | t in ss[n].threads && u in ss[n].threads ::
              Owns(ss[n].threads[t].pc) && Owns(ss[n].threads[u].pc) ==> t == u
    ensures es[n].End? ==> ss[n].owner != Some(es[n].t)
    ensures ss[n + 1].ring != ss[n].ring ==>
              es[n].Do? && ss[n].owner == ss[n + 1].owner == Some(es[n].t)
  {
    RunKeepsInv(exact, ss, es, n);
    assert StepAt(exact, ss, es, n);
    if es[n].Do? {
      ExecShape(exact, ss[n], es[n].t, es[n].choice, ss[n + 1]);
    }
  }

  /** The waiting counters are the numbers of threads between increment and decrement. */
  lemma CountersCountWaiters(exact: bool, ss: seq<State>, es: seq<Event>, n: nat)
    requires IsRun(exact, ss, es) && n <= |es|
    ensures ss[n].readerWaiting == |set t | t in ss[n].threads
              && Waits(ss[n].threads[t].pc) && ss[n].threads[t].op.Read?| >= 0
    ensures ss[n].writerWaiting == |set t | t in ss[n].threads
              && Waits(ss[n].threads[t].pc) && ss[n].threads[t].op.Write?| >= 0
  {
    var lim, s := LimitsOf(ss[0]), ss[n];
    RunKeepsInv(exact, ss, es, n);
    forall t | t in s.threads && Waits(s.threads[t].pc)
      ensures !s.threads[t].op.Cleanup?
    {
      assert ThreadOk(lim, R.QueueOf(s.ring), s.clock, s.threads[t]);
    }
    assert Waiting(s, false) == set t | t in s.threads && Waits(s.threads[t].pc) && s.threads[t].op.Read?;
    assert Waiting(s, true) == set t | t in s.threads && Waits(s.threads[t].pc) && s.threads[t].op.Write?;
  }

  /** In every reachable state the ring is well formed, and sorted by time stamps of the past. */
  lemma RingAlwaysInOrder(exact: bool, ss: seq<State>, es: seq<Event>, n: nat)
    requires IsRun(exact, ss, es) && n <= |es|
    ensures R.WellFormed(ss[n].ring)
    ensures Fifo.Sorted(R.QueueOf(ss[n].ring))
    ensures forall m | m in R.QueueOf(ss[n].ring) :: m.stamp <= ss[n].clock
  {
    RunKeepsInv(exact, ss, es, n);
  }

  /**
   A `read` that returns a length returns, under any interleaving, the bytes of one write statement
   executed earlier by a thread whose messages it may read, followed by zeros. `Feeds` gives the two
   statements the same rank among the writes and among the removals, so no other read has them.
   */
  lemma ReadGetsOneWrite(exact: bool, ss: seq<State>, es: seq<Event>, ps: seq<A.Pipe>, ls: seq<A.Label>, r: nat)
    returns (i: nat, j: nat, w: Tid)
    requires IsRun(exact, ss, es) && Mirrors(ss, es, ps, ls) && r < |es| && es[r].End?
    requires es[r].t in ss[r].threads && ss[r].threads[es[r].t].op.Read?
    requires ss[r].threads[es[r].t].pc.Finished? && ss[r].threads[es[r].t].pc.res.status.Ok?
    ensures AtomicRuns.Feeds(ls, i, j)
    ensures i < j < r && es[i] == Do(w, Go) && es[j] == Do(es[r].t, Go)
    ensures w in ss[i].threads && ss[i].threads[w].pc.Insert? && ss[i].threads[w].op.Write?
    ensures es[r].t in ss[j].threads && ss[j].threads[es[r].t].pc.CopyOut?
    ensures var write, read := ss[i].threads[w].op, ss[r].threads[es[r].t].op;
      && |write.data| <= ss[0].ring.dataSize && |Stored(write.data)| <= read.count <= ss[0].ring.dataSize
      && ss[r].threads[es[r].t].pc.res
         == Result(Ok(|Stored(write.data)|), Padded(Stored(write.data), read.count))
      && (read.uid == 0 || read.uid == write.uid || read.gid == write.gid)
  {
    RunIsAtomic(exact, ss, es, ps, ls);
    ReturnSeen(ss, es, ps, ls, r);
    i, j := AtomicRuns.ReadReturnsOneWrite(LimitsOf(ss[0]), ps, ls, r);
    w := ls[i].t;
    EnqueueSeen(exact, ss, es, ps, ls, i);
    DequeueSeen(exact, ss, es, ps, ls, j);
  }

  /**
   Linearizability of the driver: every call that returns, whether with a length or an error, took
   effect in exactly one atomic step between its first and its last statement, and returns what
   that step fixed.
   */
  lemma EveryCallIsLinearized(exact: bool, ss: seq<State>, es: seq<Event>, ps: seq<A.Pipe>, ls: seq<A.Label>, r: nat)
    returns (a: nat, j: nat)
    requires IsRun(exact, ss, es) && Mirrors(ss, es, ps, ls) && r < |es| && es[r].End?
    requires es[r].t in ss[r].threads && ss[r].threads[es[r].t].pc.Finished?
    ensures a < j < r && es[a] == Begin(es[r].t, ss[r].threads[es[r].t].op)
    ensures es[r].t in ps[j + 1].calls
         && ps[j + 1].calls[es[r].t] == A.Done(ss[r].threads[es[r].t].op, ss[r].threads[es[r].t].pc.res)
    ensures forall k | a <= k < r :: AtomicRuns.CompletesCall(ls[k], es[r].t) <==> k == j
  {
    RunIsAtomic(exact, ss, es, ps, ls);
    ReturnSeen(ss, es, ps, ls, r);
    a, j := AtomicRuns.ReturnIsLinearized(LimitsOf(ss[0]), ps, ls, r);
    InvokeSeen(exact, ss, es, ps, ls, a);
  }

  /**
   A cleanup pass that ends at event `c` keeps exactly the messages stamped from the clock reading
   at its first statement `a` on, and a write that reads its own clock after `a` reads no less.
   `LaterStampSurvives` follows such a write to the queue.
   */
  lemma CleanupPass(exact: bool, ss: seq<State>, es: seq<Event>, ps: seq<A.Pipe>, ls: seq<A.Label>, c: nat)
    returns (a: nat)
    requires IsRun(exact, ss, es) && Mirrors(ss, es, ps, ls) && c < |es| && ls[c].Expire?
    ensures a < c && es[a] == Begin(ls[c].t, Cleanup)
    ensures ps[c + 1].queue == Fifo.Fresh(ps[c].queue, ss[a].clock)
    ensures forall b, w | a < b < c && es[b] == Do(w, Go)
                          && w in ss[b].threads && ss[b].threads[w].pc.Stamp? ::
              && w in ss[b + 1].threads && ss[b + 1].threads[w].pc.CopyIn?
              && ss[a].clock <= ss[b + 1].threads[w].pc.stamp
  {
    RunIsAtomic(exact, ss, es, ps, ls);
    assert A.StepAt(LimitsOf(ss[0]), ps, ls, c);
    a := AtomicRuns.PendingWasInvoked(LimitsOf(ss[0]), ps, ls, c, ls[c].t);
    InvokeSeen(exact, ss, es, ps, ls, a);
    forall b, w | a < b < c && es[b] == Do(w, Go) && w in ss[b].threads && ss[b].threads[w].pc.Stamp?
      ensures w in ss[b + 1].threads && ss[b + 1].threads[w].pc == CopyIn(ss[b].clock)
      ensures ss[a].clock <= ss[b].clock
    {
      StampSeen(exact, ss, es, b, w);
      AtomicRuns.ClockNeverGoesBack(LimitsOf(ss[0]), ps, ls, a, b);
      ClockSeen(ss, es, ps, ls, a);
      ClockSeen(ss, es, ps, ls, b);
    }
  }

  lemma StampSeen(exact: bool, ss: seq<State>, es: seq<Event>, b: nat, w: Tid)
    requires IsRun(exact, ss, es) && b < |es| && es[b] == Do(w, Go)
    requires w in ss[b].threads && ss[b].threads[w].pc.Stamp?
    ensures w in ss[b + 1].threads && ss[b + 1].threads[w].pc == CopyIn(ss[b].clock)
  {
    assert StepAt(exact, ss, es, b);
  }

  /** Thread `w` has stamped its write `x`: the stamp is in its hands until it has been used. */
  predicate Stamped(s: State, w: Tid, x: Time) {
    && w in s.threads
    && var pc := s.threads[w].pc;
    && (pc == CopyIn(x) || pc == Insert(x) || pc.WakeReaders? || pc.Unlock? || pc.Finished?)
  }

  lemma StampCarried(exact: bool, s: State, e: Event, s': State, w: Tid, x: Time)
    requires Next(exact, s, e, s') && Stamped(s, w, x) && e != End(w)
    ensures Stamped(s', w, x)
  {
    if e.Do? {
      ExecShape(exact, s, e.t, e.choice, s');
    }
  }

  lemma {:induction false} StampHeld(exact: bool, ss: seq<State>, es: seq<Event>, b: nat, k: nat, w: Tid)
    requires IsRun(exact, ss, es) && b < k <= |es| && es[b] == Do(w, Go)
    requires w in ss[b].threads && ss[b].threads[w].pc.Stamp?
    requires forall j | b < j < k :: es[j] != End(w)
    ensures Stamped(ss[k], w, ss[b].clock)
  {
    if k == b + 1 {
      StampSeen(exact, ss, es, b, w);
    } else {
      StampHeld(exact, ss, es, b, k - 1, w);
      assert StepAt(exact, ss, es, k - 1);
      StampCarried(exact, ss[k - 1], es[k - 1], ss[k], w, ss[b].clock);
    }
  }

  /**
   A write that reads its clock at `b` and enters the queue at `i`, in the same call, is stamped with
   that reading, and a pass that ends later keeps it if and only if the worker, at its first
   statement `a`, read no later time. If the worker began before `b`, the pass never drops it, even
   when the write was already running then.
   */
  lemma LaterStampSurvives(exact: bool, ss: seq<State>, es: seq<Event>, ps: seq<A.Pipe>, ls: seq<A.Label>,
                           b: nat, i: nat, c: nat)
    returns (a: nat)
    requires IsRun(exact, ss, es) && Mirrors(ss, es, ps, ls) && b < i < c < |es|
    requires ls[i].Enqueue? && ls[c].Expire? && es[b] == Do(ls[i].t, Go)
    requires ls[i].t in ss[b].threads && ss[b].threads[ls[i].t].pc.Stamp?
    requires forall k | b < k < i :: es[k] != End(ls[i].t)
    ensures ls[i].m.stamp == ss[b].clock
    ensures a < c && es[a] == Begin(ls[c].t, Cleanup)
    ensures ls[i].m in ps[c].queue ==> (ls[i].m in ps[c + 1].queue <==> ss[a].clock <= ss[b].clock)
    ensures ls[i].m in ls[c].dropped ==> ss[b].clock < ss[a].clock
    ensures a < b ==> ls[i].m !in ls[c].dropped && (ls[i].m in ps[c].queue ==> ls[i].m in ps[c + 1].queue)
  {
    var began;
    RunIsAtomic(exact, ss, es, ps, ls);
    StampHeld(exact, ss, es, b, i, ls[i].t);
    EnqueueSeen(exact, ss, es, ps, ls, i);
    a, began := AtomicRuns.LaterWriteSurvives(LimitsOf(ss[0]), ps, ls, i, c);
    InvokeSeen(exact, ss, es, ps, ls, a);
    if a < b {
      AtomicRuns.ClockNeverGoesBack(LimitsOf(ss[0]), ps, ls, a, b);
      ClockSeen(ss, es, ps, ls, b);
    }
  }

  lemma ClockSeen(ss: seq<State>, es: seq<Event>, ps: seq<A.Pipe>, ls: seq<A.Label>, k: nat)
    requires Mirrors(ss, es, ps, ls) && k < |ss|
    ensures ps[k].clock == ss[k].clock
  {
    assert StateSeen(ss, ps, k);
  }

  /** An invocation is the first event of a call, and the clock is read there. */
  lemma InvokeSeen(exact: bool, ss: seq<State>, es: seq<Event>, ps: seq<A.Pipe>, ls: seq<A.Label>, a: nat)
    requires IsRun(exact, ss, es) && Mirrors(ss, es, ps, ls) && a < |es| && ls[a].Invoke?
    ensures es[a] == Begin(ls[a].t, ls[a].op) && ps[a].clock == ss[a].clock
  {
    assert EventSeen(ss, es, ls, a) && StateSeen(ss, ps, a);
  }

  /** A returning thread, seen from outside. */
  lemma ReturnSeen(ss: seq<State>, es: seq<Event>, ps: seq<A.Pipe>, ls: seq<A.Label>, r: nat)
    requires Mirrors(ss, es, ps, ls) && r < |es| && es[r].End?
    requires es[r].t in ss[r].threads && ss[r].threads[es[r].t].pc.Finished?
    ensures var th := ss[r].threads[es[r].t];
      && ls[r] == A.Return(es[r].t, th.pc.res)
      && es[r].t in ps[r].calls && ps[r].calls[es[r].t] == A.Done(th.op, th.pc.res)
  {
    assert StateSeen(ss, ps, r) && EventSeen(ss, es, ls, r);
  }

  /** An atomic write is a push statement. */
  lemma EnqueueSeen(exact: bool, ss: seq<State>, es: seq<Event>, ps: seq<A.Pipe>, ls: seq<A.Label>, i: nat)
    requires IsRun(exact, ss, es) && Mirrors(ss, es, ps, ls) && i < |es| && ls[i].Enqueue?
    ensures var w := ls[i].t;
      && es[i] == Do(w, Go)
      && w in ss[i].threads && ss[i].threads[w].pc.Insert? && ss[i].threads[w].op.Write?
      && w in ps[i].calls && ps[i].calls[w].op == ss[i].threads[w].op
      && ls[i].m.stamp == ss[i].threads[w].pc.stamp
  {
    assert StepAt(exact, ss, es, i) && StateSeen(ss, ps, i) && EventSeen(ss, es, ls, i);
  }

  /** An atomic delivery is a copy to the user that succeeds. */
  lemma DequeueSeen(exact: bool, ss: seq<State>, es: seq<Event>, ps: seq<A.Pipe>, ls: seq<A.Label>, j: nat)
    requires IsRun(exact, ss, es) && Mirrors(ss, es, ps, ls) && j < |es|
    requires ls[j].Dequeue? && ls[j].copied
    ensures es[j] == Do(ls[j].t, Go) && ls[j].t in ss[j].threads && ss[j].threads[ls[j].t].pc.CopyOut?
  {
    assert StepAt(exact, ss, es, j) && EventSeen(ss, es, ls, j);
  }
}
