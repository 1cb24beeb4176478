/** Runs of the driver built step by step, to show that a state can be reached. */
module DriverReach {
  import opened Messages
  import opened Calls
  import opened Driver
  import opened DriverCalls
  import R = RingStore

  /** `s` is the last state of some run. */
  ghost predicate Reachable(exact: bool, s: State) {
    exists ss, es :: IsRun(exact, ss, es) && ss[|es|] == s
  }

  lemma InitIsReachable(exact: bool, s: State)
    requires Init(s)
    ensures Reachable(exact, s)
  {
    var ss, es: seq<Event> := [s], [];
    assert IsRun(exact, ss, es) && ss[|es|] == s;
  }

  lemma StepReaches(exact: bool, s: State, e: Event, s': State)
    requires Reachable(exact, s) && Next(exact, s, e, s')
    ensures Reachable(exact, s')
  {
    var ss, es :| IsRun(exact, ss, es) && ss[|es|] == s;
    var ss', es' := ss + [s'], es + [e];
    forall i | 0 <= i < |es'|
      ensures StepAt(exact, ss', es', i)
    {
      assert i < |es| ==> StepAt(exact, ss, es, i);
    }
    assert IsRun(exact, ss', es') && ss'[|es'|] == s';
  }

  /** No call is running. */
  ghost predicate Idle(s: State) {
    && s.owner == None && s.threads == map[]
    && s.readerQ == {} && s.writerQ == {} && s.awake == {}
    && s.readerWaiting == 0 && s.writerWaiting == 0
    && R.WellFormed(s.ring)
  }

  /** The state `s` with one call running. */
  function Only(s: State, t: Tid, th: Thread): State {
    s.(threads := map[t := th])
  }

  lemma {:induction false} AloneReaches(exact: bool, t: Tid, ss: seq<State>, n: nat)
    requires IsAlone(exact, t, ss) && Reachable(exact, ss[0]) && n < |ss|
    ensures Reachable(exact, ss[n])
  {
    if n > 0 {
      AloneReaches(exact, t, ss, n - 1);
      assert StatementAt(exact, t, ss, n - 1);
      StepReaches(exact, ss[n - 1], Do(t, Go), ss[n]);
    }
  }

  lemma ComingReaches(exact: bool, s: State, t: Tid, s': State)
    requires Reachable(exact, s) && ComesTo(exact, s, t, s')
    ensures Reachable(exact, s')
  {
    var ss :| IsAlone(exact, t, ss) && ss[0] == s && ss[|ss| - 1] == s';
    AloneReaches(exact, t, ss, |ss| - 1);
  }

  /** From a state of rest, thread `t` begins a call and gets to `s'`. */
  lemma CallReaches(exact: bool, s: State, t: Tid, op: Op, s': State)
    requires Reachable(exact, s) && Idle(s)
    requires ComesTo(exact, Only(s, t, Thread(op, s.clock, Start)), t, s')
    ensures Reachable(exact, s')
  {
    StepReaches(exact, s, Begin(t, op), Only(s, t, Thread(op, s.clock, Start)));
    ComingReaches(exact, Only(s, t, Thread(op, s.clock, Start)), t, s');
  }

  /** A whole write, alone on an idle ring with room. */
  lemma WriteReaches(exact: bool, s: State, op: Op) returns (s': State)
    requires Reachable(exact, s) && Idle(s) && op.Write? && |op.data| <= s.ring.dataSize
    requires |R.QueueOf(s.ring)| < s.ring.capacity
    ensures Reachable(exact, s') && Idle(s') && s'.clock == s.clock
    ensures s'.ring.capacity == s.ring.capacity && s'.ring.dataSize == s.ring.dataSize
    ensures R.QueueOf(s'.ring) == R.QueueOf(s.ring) + [Msg(Stored(op.data), op.uid, op.gid, s.clock)]
  {
    var done := UndisturbedWrite(exact, Only(s, 0, Thread(op, s.clock, Start)), 0);
    CallReaches(exact, s, 0, op, done);
    s' := done.(threads := done.threads - {0});
    StepReaches(exact, done, End(0), s');
  }

  /** Writes fill the ring, one at a time. */
  lemma {:induction false} FillReaches(exact: bool, s: State, op: Op, n: nat) returns (s': State)
    requires Reachable(exact, s) && Idle(s) && op.Write? && |op.data| <= s.ring.dataSize
    requires |R.QueueOf(s.ring)| <= n <= s.ring.capacity
    ensures Reachable(exact, s') && Idle(s') && s'.clock == s.clock
    ensures s'.ring.capacity == s.ring.capacity && s'.ring.dataSize == s.ring.dataSize
    ensures |R.QueueOf(s'.ring)| == n
    decreases n - |R.QueueOf(s.ring)|
  {
    s' := s;
    if |R.QueueOf(s.ring)| < n {
      s' := WriteReaches(exact, s, op);
      s' := FillReaches(exact, s', op, n);
    }
  }

  lemma BlankReaches(exact: bool, capacity: nat, dataSize: nat, clock: Time) returns (s: State)
    requires 0 < capacity
    ensures Reachable(exact, s) && Idle(s) && s.clock == clock
    ensures s.ring.capacity == capacity && s.ring.dataSize == dataSize && R.QueueOf(s.ring) == []
  {
    s := State(R.Blank(capacity, dataSize), clock, None, map[], {}, {}, {}, 0, 0);
    R.BlankIsEmpty(capacity, dataSize);
    InitIsReachable(exact, s);
  }

  /** Some state of rest with `n` messages queued. */
  lemma QueuedReaches(exact: bool, capacity: nat, dataSize: nat, clock: Time, op: Op, n: nat) returns (s: State)
    requires 0 < capacity && op.Write? && |op.data| <= dataSize && n <= capacity
    ensures Reachable(exact, s) && Idle(s) && s.clock == clock
    ensures s.ring.capacity == capacity && s.ring.dataSize == dataSize && |R.QueueOf(s.ring)| == n
  {
    s := BlankReaches(exact, capacity, dataSize, clock);
    s := FillReaches(exact, s, op, n);
  }

  lemma ReaderReachesPop(exact: bool, s: State, t: Tid, op: Op)
    requires Reachable(exact, s) && Idle(s) && op.Read? && op.count <= s.ring.dataSize
    requires R.QueueOf(s.ring) != []
    ensures Reachable(exact, Only(s.(owner := Some(t)), t, Thread(op, s.clock, Remove)))
  {
    var s0 := Only(s, t, Thread(op, s.clock, Start));
    GetsToPop(exact, s0, t);
    CallReaches(exact, s, t, op, Goto(s0.(owner := Some(t)), t, Remove));
    assert Goto(s0.(owner := Some(t)), t, Remove) == Only(s.(owner := Some(t)), t, Thread(op, s.clock, Remove));
  }

  /** A writer that finds the ring full goes to sleep. */
  lemma WriterFallsAsleep(exact: bool, s: State, t: Tid, op: Op) returns (s': State)
    requires Reachable(exact, s) && Idle(s) && op.Write? && !op.nonblock && |op.data| <= s.ring.dataSize
    requires |R.QueueOf(s.ring)| == s.ring.capacity
    ensures Reachable(exact, s') && s'.ring == s.ring && s'.owner == None
    ensures s'.threads == map[t := Thread(op, s.clock, Asleep)] && s'.writerQ == {t} && s'.awake == {}
  {
    s' := UndisturbedWrite(exact, Only(s, t, Thread(op, s.clock, Start)), t);
    CallReaches(exact, s, t, op, s');
  }
}
