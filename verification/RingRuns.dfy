/** Whole runs of ring operations: what a caller sees, where the positions end up, what is lost. */
module RingRuns {
  import opened Messages
  import opened Circular
  import opened RingStore
  import Fifo

  ghost function LimitsOf(r: Ring): Fifo.Limits {
    Fifo.Limits(r.capacity, r.dataSize)
  }

  ghost function Apply(r: Ring, cmd: Fifo.Cmd): Outcome
    requires Shaped(r)
  {
    match cmd
    case Push(data, uid, gid, stamp) => Push(r, data, uid, gid, stamp)
    case Pop(uid, gid) => Pop(r, uid, gid)
    case Count => Outcome(r, Ok(Count(r)), [])
    case Expire(now) => Expire(r, now)
    case Clear => Clear(r)
  }

  lemma {:induction false} ExpireMoves(r: Ring, now: Time)
    requires WellFormed(r)
    ensures var o := Expire(r, now);
      && o.bytes == []
      && o.ring.capacity == r.capacity && o.ring.dataSize == r.dataSize && o.ring.head == r.head
      && o.status.count <= Count(r)
      && o.ring.tail == SlotOf(r.tail, o.status.count, r.capacity)
    decreases Count(r)
  {
    if Expirable(r, now) {
      ExpireIteration(r, now);
      NextIsSlotOf(r.tail, r.capacity);
      ExpireMoves(DropOldest(r), now);
    }
  }

  lemma ExpireMatches(r: Ring, now: Time)
    requires WellFormed(r)
    ensures var o := Expire(r, now); var f := Fifo.Apply(LimitsOf(r), QueueOf(r), Fifo.Expire(now));
      && WellFormed(o.ring) && QueueOf(o.ring) == f.0
      && Fifo.Reply(o.status, o.bytes) == f.1
  {
    ExpireRefines(r, now);
    ExpireMoves(r, now);
  }

  lemma ApplyKeepsLimits(r: Ring, cmd: Fifo.Cmd)
    requires WellFormed(r)
    ensures LimitsOf(Apply(r, cmd).ring) == LimitsOf(r)
  {
    if cmd.Expire? {
      ExpireMoves(r, cmd.now);
    }
  }

  /** One operation on the arrays is the operation of the same name on the queue. */
  lemma ApplyRefines(r: Ring, cmd: Fifo.Cmd)
    requires WellFormed(r)
    ensures var o := Apply(r, cmd); var f := Fifo.Apply(LimitsOf(r), QueueOf(r), cmd);
      && WellFormed(o.ring) && LimitsOf(o.ring) == LimitsOf(r)
      && QueueOf(o.ring) == f.0
      && Fifo.Reply(o.status, o.bytes) == f.1
  {
    ApplyKeepsLimits(r, cmd);
    match cmd
    case Push(data, uid, gid, stamp) => PushRefines(r, data, uid, gid, stamp);
    case Pop(uid, gid) => PopRefines(r, uid, gid);
    case Count =>
    case Expire(now) => ExpireMatches(r, now);
    case Clear => ClearRefines(r);
  }

  ghost function Run(r: Ring, cmds: seq<Fifo.Cmd>): (o: (Ring, seq<Fifo.Reply>))
    requires WellFormed(r)
    ensures WellFormed(o.0)
    decreases |cmds|
  {
    if cmds == [] then (r, [])
    else
      ApplyRefines(r, cmds[0]);
      var o := Apply(r, cmds[0]);
      var (last, replies) := Run(o.ring, cmds[1..]);
      (last, [Fifo.Reply(o.status, o.bytes)] + replies)
  }

  /** A run on the arrays gives the replies of the same run on the queue, and ends at its queue. */
  lemma {:induction false} RunRefines(r: Ring, cmds: seq<Fifo.Cmd>)
    requires WellFormed(r)
    ensures Run(r, cmds).1 == Fifo.Run(LimitsOf(r), QueueOf(r), cmds).1
    ensures QueueOf(Run(r, cmds).0) == Fifo.Run(LimitsOf(r), QueueOf(r), cmds).0
    ensures LimitsOf(Run(r, cmds).0) == LimitsOf(r)
    ensures |Run(r, cmds).1| == |cmds|
    decreases |cmds|
  {
    if cmds != [] {
      ApplyRefines(r, cmds[0]);
      RunRefines(Apply(r, cmds[0]).ring, cmds[1..]);
    }
  }

  /** Rotation, stale bytes and stale records never show: equal queues give equal replies for ever. */
  lemma RotationIsInvisible(r1: Ring, r2: Ring, cmds: seq<Fifo.Cmd>)
    requires WellFormed(r1) && WellFormed(r2)
    requires LimitsOf(r1) == LimitsOf(r2) && QueueOf(r1) == QueueOf(r2)
    ensures Run(r1, cmds).1 == Run(r2, cmds).1
    ensures QueueOf(Run(r1, cmds).0) == QueueOf(Run(r2, cmds).0)
  {
    RunRefines(r1, cmds);
    RunRefines(r2, cmds);
  }

  /** A ring emptied in any way answers every later run as a freshly initialised one does. */
  lemma EmptyIsAsGoodAsNew(r: Ring, cmds: seq<Fifo.Cmd>)
    requires WellFormed(r) && QueueOf(r) == []
    ensures WellFormed(Blank(r.capacity, r.dataSize))
    ensures Run(r, cmds).1 == Run(Blank(r.capacity, r.dataSize), cmds).1
  {
    BlankIsEmpty(r.capacity, r.dataSize);
    RotationIsInvisible(r, Blank(r.capacity, r.dataSize), cmds);
  }

  // ---------------------------------------------------------------- positions are totals

  /** Messages pushed, and popped or expired, since the ring was last blank. */
  datatype Tally = Tally(pushed: nat, removed: nat)

  ghost function TallyStep(t: Tally, r: Ring, cmd: Fifo.Cmd): Tally
    requires Shaped(r)
  {
    var o := Apply(r, cmd);
    if o.status.Fail? then t
    else match cmd
      case Push(_, _, _, _) => Tally(t.pushed + 1, t.removed)
      case Pop(_, _) => Tally(t.pushed, t.removed + 1)
      case Count => t
      case Expire(_) => Tally(t.pushed, t.removed + o.status.count)
      case Clear => Tally(0, 0)
  }

  ghost function TallyRun(t: Tally, r: Ring, cmds: seq<Fifo.Cmd>): Tally
    requires WellFormed(r)
    decreases |cmds|
  {
    if cmds == [] then t
    else
      ApplyRefines(r, cmds[0]);
      TallyRun(TallyStep(t, r, cmds[0]), Apply(r, cmds[0]).ring, cmds[1..])
  }

  ghost predicate Agrees(t: Tally, r: Ring)
    requires Shaped(r)
  {
    && r.head == After(t.pushed, r.capacity)
    && r.tail == After(t.removed, r.capacity)
    && t.pushed - t.removed == |QueueOf(r)|
  }

  /** How far an operation moves each position. */
  lemma ApplyMoves(r: Ring, cmd: Fifo.Cmd)
    requires WellFormed(r)
    ensures var o := Apply(r, cmd);
      if cmd.Clear? then o.ring.head == 0 && o.ring.tail == 0
      else
        && var popped := if cmd.Pop? && o.status.Ok? then 1 else if cmd.Expire? then o.status.count else 0;
        && popped <= r.capacity
        && o.ring.head == SlotOf(r.head, if cmd.Push? && o.status.Ok? then 1 else 0, r.capacity)
        && o.ring.tail == SlotOf(r.tail, popped, r.capacity)
  {
    match cmd
    case Push(data, uid, gid, stamp) => NextIsSlotOf(r.head, r.capacity);
    case Pop(uid, gid) => NextIsSlotOf(r.tail, r.capacity);
    case Count =>
    case Expire(now) => ExpireMoves(r, now);
    case Clear =>
  }

  lemma TallyStepCounts(t: Tally, r: Ring, cmd: Fifo.Cmd)
    requires WellFormed(r) && t.pushed - t.removed == |QueueOf(r)|
    ensures Shaped(Apply(r, cmd).ring)
    ensures var t' := TallyStep(t, r, cmd); t'.pushed - t'.removed == |QueueOf(Apply(r, cmd).ring)|
  {
    ApplyRefines(r, cmd);
  }

  lemma TallyStepMoves(t: Tally, r: Ring, cmd: Fifo.Cmd)
    requires WellFormed(r)
    requires r.head == After(t.pushed, r.capacity) && r.tail == After(t.removed, r.capacity)
    ensures var t', r' := TallyStep(t, r, cmd), Apply(r, cmd).ring;
      r'.head == After(t'.pushed, r.capacity) && r'.tail == After(t'.removed, r.capacity)
  {
    ApplyMoves(r, cmd);
    var t' := TallyStep(t, r, cmd);
    if !cmd.Clear? {
      AfterMore(t.pushed, t'.pushed - t.pushed, r.capacity);
      AfterMore(t.removed, t'.removed - t.removed, r.capacity);
    }
  }

  lemma TallyStepAgrees(t: Tally, r: Ring, cmd: Fifo.Cmd)
    requires WellFormed(r) && Agrees(t, r)
    ensures WellFormed(Apply(r, cmd).ring)
    ensures Agrees(TallyStep(t, r, cmd), Apply(r, cmd).ring)
  {
    ApplyRefines(r, cmd);
    TallyStepCounts(t, r, cmd);
    TallyStepMoves(t, r, cmd);
  }

  lemma {:induction false} TallyRunAgrees(t: Tally, r: Ring, cmds: seq<Fifo.Cmd>)
    requires WellFormed(r) && Agrees(t, r)
    ensures Agrees(TallyRun(t, r, cmds), Run(r, cmds).0)
    decreases |cmds|
  {
    if cmds != [] {
      TallyStepAgrees(t, r, cmds[0]);
      TallyRunAgrees(TallyStep(t, r, cmds[0]), Apply(r, cmds[0]).ring, cmds[1..]);
    }
  }

  /**
   From initialisation on, `head` and `tail` are the running totals of pushes and removals modulo
   the capacity, and the totals differ by the number of queued messages.
   */
  lemma PositionsAreTotals(capacity: nat, dataSize: nat, cmds: seq<Fifo.Cmd>)
    requires 0 < capacity
    ensures WellFormed(Blank(capacity, dataSize))
    ensures var r := Run(Blank(capacity, dataSize), cmds).0;
            var t := TallyRun(Tally(0, 0), Blank(capacity, dataSize), cmds);
      && r.head == t.pushed % capacity
      && r.tail == t.removed % capacity
      && 0 <= t.pushed - t.removed == |QueueOf(r)| <= capacity
  {
    BlankIsEmpty(capacity, dataSize);
    TallyRunAgrees(Tally(0, 0), Blank(capacity, dataSize), cmds);
    RunRefines(Blank(capacity, dataSize), cmds);
    var t := TallyRun(Tally(0, 0), Blank(capacity, dataSize), cmds);
    AfterIsMod(t.pushed, capacity);
    AfterIsMod(t.removed, capacity);
  }

  // ---------------------------------------------------------------- nothing lost or reordered

  function EnteredBy(lim: Fifo.Limits, q: seq<Msg>, cmd: Fifo.Cmd): seq<Msg> {
    if cmd.Push? && Fifo.Apply(lim, q, cmd).1.status.Ok? then
      [Msg(Stored(cmd.data), cmd.uid, cmd.gid, cmd.stamp)]
    else []
  }

  function LeftBy(lim: Fifo.Limits, q: seq<Msg>, cmd: Fifo.Cmd): seq<Msg> {
    match cmd
    case Push(_, _, _, _) => []
    case Pop(_, _) => if Fifo.Apply(lim, q, cmd).1.status.Ok? then q[..1] else []
    case Count => []
    case Expire(now) => q[..Fifo.ExpiredPrefix(q, now)]
    case Clear => q
  }

  function Entered(lim: Fifo.Limits, q: seq<Msg>, cmds: seq<Fifo.Cmd>): seq<Msg>
    decreases |cmds|
  {
    if cmds == [] then []
    else EnteredBy(lim, q, cmds[0]) + Entered(lim, Fifo.Apply(lim, q, cmds[0]).0, cmds[1..])
  }

  function Left(lim: Fifo.Limits, q: seq<Msg>, cmds: seq<Fifo.Cmd>): seq<Msg>
    decreases |cmds|
  {
    if cmds == [] then []
    else LeftBy(lim, q, cmds[0]) + Left(lim, Fifo.Apply(lim, q, cmds[0]).0, cmds[1..])
  }

  lemma ApplyConserves(lim: Fifo.Limits, q: seq<Msg>, cmd: Fifo.Cmd)
    ensures q + EnteredBy(lim, q, cmd) == LeftBy(lim, q, cmd) + Fifo.Apply(lim, q, cmd).0
  {
  }

  /** Conservation composes: two balanced stretches are one. */
  lemma Compose(q: seq<Msg>, i: seq<Msg>, o: seq<Msg>, q1: seq<Msg>,
                i': seq<Msg>, o': seq<Msg>, q': seq<Msg>)
    requires q + i == o + q1 && q1 + i' == o' + q'
    ensures q + (i + i') == (o + o') + q'
  {
    assert q + (i + i') == (q + i) + i';
    assert (o + q1) + i' == o + (q1 + i');
    assert o + (o' + q') == (o + o') + q';
  }

  /** What was queued, then what entered, is what left, in that order, then what is queued. */
  lemma {:induction false} RunConserves(lim: Fifo.Limits, q: seq<Msg>, cmds: seq<Fifo.Cmd>)
    ensures q + Entered(lim, q, cmds) == Left(lim, q, cmds) + Fifo.Run(lim, q, cmds).0
    decreases |cmds|
  {
    if cmds != [] {
      var q1 := Fifo.Apply(lim, q, cmds[0]).0;
      ApplyConserves(lim, q, cmds[0]);
      RunConserves(lim, q1, cmds[1..]);
      Compose(q, EnteredBy(lim, q, cmds[0]), LeftBy(lim, q, cmds[0]), q1,
              Entered(lim, q1, cmds[1..]), Left(lim, q1, cmds[1..]), Fifo.Run(lim, q1, cmds[1..]).0);
    }
  }

  /**
   Whatever happens between, once exactly the `k` messages ahead of it are gone, an authorised pop
   copies out the bytes of the message that was number `k` in the queue.
   */
  lemma QueuedBytesComeBack(r: Ring, k: nat, cmds: seq<Fifo.Cmd>, uid: Uid, gid: Gid)
    requires WellFormed(r) && k < |QueueOf(r)|
    requires |Left(LimitsOf(r), QueueOf(r), cmds)| == k
    requires MayRead(uid, gid, QueueOf(r)[k])
    ensures var o := Pop(Run(r, cmds).0, uid, gid);
      o.status == Ok(|QueueOf(r)[k].payload|) && o.bytes == QueueOf(r)[k].payload
  {
    var lim, q := LimitsOf(r), QueueOf(r);
    RunRefines(r, cmds);
    RunConserves(lim, q, cmds);
    var whole := q + Entered(lim, q, cmds);
    assert QueueOf(Run(r, cmds).0) == whole[k..];
    assert whole[k] == q[k];
    PopRefines(Run(r, cmds).0, uid, gid);
  }

  /** In particular, the bytes of a push come back after any operations that remove what was queued. */
  lemma PushedBytesComeBack(r: Ring, data: seq<byte>, uid: Uid, gid: Gid, stamp: Time, r1: Ring,
                            cmds: seq<Fifo.Cmd>, readerUid: Uid, readerGid: Gid)
    requires WellFormed(r) && WellFormed(r1)
    requires Push(r, data, uid, gid, stamp) == Outcome(r1, Ok(|data|), [])
    requires |Left(LimitsOf(r1), QueueOf(r1), cmds)| == |QueueOf(r)|
    requires readerUid == 0 || readerUid == uid || readerGid == gid
    ensures var o := Pop(Run(r1, cmds).0, readerUid, readerGid);
      o.status == Ok(StoredLen(|data|)) && o.bytes == Stored(data)
  {
    PushRefines(r, data, uid, gid, stamp);
    QueuedBytesComeBack(r1, |QueueOf(r)|, cmds, readerUid, readerGid);
  }

  /** Operations that cannot get past an oldest message `m`: pushes, counts, unauthorised pops. */
  ghost predicate Blocked(m: Msg, cmds: seq<Fifo.Cmd>) {
    forall c | c in cmds :: c.Push? || c.Count? || (c.Pop? && !MayRead(c.uid, c.gid, m))
  }

  /** One operation that cannot get past the oldest message. */
  lemma BlockedStep(r: Ring, cmd: Fifo.Cmd)
    requires WellFormed(r) && QueueOf(r) != [] && Blocked(QueueOf(r)[0], [cmd])
    ensures WellFormed(Apply(r, cmd).ring) && QueueOf(r) <= QueueOf(Apply(r, cmd).ring)
    ensures cmd.Pop? ==> Apply(r, cmd).status == Fail(EACCES) && Apply(r, cmd).bytes == []
  {
    assert cmd in [cmd];
    ApplyRefines(r, cmd);
  }

  /** An unreadable oldest message stays in front, and nothing behind it is handed out. */
  lemma {:induction false} OldestBlocksTheRest(r: Ring, cmds: seq<Fifo.Cmd>)
    requires WellFormed(r) && QueueOf(r) != [] && Blocked(QueueOf(r)[0], cmds)
    ensures |Run(r, cmds).1| == |cmds|
    ensures QueueOf(r) <= QueueOf(Run(r, cmds).0)
    ensures forall k | 0 <= k < |cmds| && cmds[k].Pop? ::
              Run(r, cmds).1[k] == Fifo.Reply(Fail(EACCES), [])
    decreases |cmds|
  {
    if cmds != [] {
      assert cmds[0] in cmds;
      BlockedStep(r, cmds[0]);
      var o := Apply(r, cmds[0]);
      OldestBlocksTheRest(o.ring, cmds[1..]);
      var later := Run(o.ring, cmds[1..]).1;
      assert Run(r, cmds).1 == [Fifo.Reply(o.status, o.bytes)] + later;
      forall k | 0 < k < |cmds| && cmds[k].Pop?
        ensures Run(r, cmds).1[k] == Fifo.Reply(Fail(EACCES), [])
      {
        assert cmds[1..][k - 1] == cmds[k] && Run(r, cmds).1[k] == later[k - 1];
      }
    }
  }

  /**
   The 16-bit record length keeps a message whole exactly below 65536 bytes: on any ring with room,
   after any operations that remove what was ahead, for any authorised reader.
   */
  lemma LengthSurvivesIff(r: Ring, data: seq<byte>, uid: Uid, gid: Gid, stamp: Time, r1: Ring,
                          cmds: seq<Fifo.Cmd>, readerUid: Uid, readerGid: Gid)
    requires WellFormed(r) && WellFormed(r1)
    requires Push(r, data, uid, gid, stamp) == Outcome(r1, Ok(|data|), [])
    requires |Left(LimitsOf(r1), QueueOf(r1), cmds)| == |QueueOf(r)|
    requires readerUid == 0 || readerUid == uid || readerGid == gid
    ensures var o := Pop(Run(r1, cmds).0, readerUid, readerGid);
      && (o.status == Ok(|data|) <==> |data| < 0x1_0000)
      && (o.bytes == data <==> |data| < 0x1_0000)
  {
    PushedBytesComeBack(r, data, uid, gid, stamp, r1, cmds, readerUid, readerGid);
  }

  lemma StoredWraps(data: seq<byte>, k: nat, n: nat)
    requires |data| == k * 0x1_0000 + n && n < 0x1_0000
    ensures StoredLen(|data|) == n && Stored(data) == data[..n]
  {
    StoredLenWraps(k, n);
  }

  /** What a record keeps of a longer block is its length modulo 65536, and that many bytes. */
  lemma LengthWraps(r: Ring, data: seq<byte>, k: nat, n: nat, uid: Uid, gid: Gid, stamp: Time, r1: Ring,
                    cmds: seq<Fifo.Cmd>, readerUid: Uid, readerGid: Gid)
    requires WellFormed(r) && WellFormed(r1)
    requires |data| == k * 0x1_0000 + n && n < 0x1_0000
    requires Push(r, data, uid, gid, stamp) == Outcome(r1, Ok(|data|), [])
    requires |Left(LimitsOf(r1), QueueOf(r1), cmds)| == |QueueOf(r)|
    requires readerUid == 0 || readerUid == uid || readerGid == gid
    ensures var o := Pop(Run(r1, cmds).0, readerUid, readerGid); o.status == Ok(n) && o.bytes == data[..n]
  {
    StoredWraps(data, k, n);
    PushedBytesComeBack(r, data, uid, gid, stamp, r1, cmds, readerUid, readerGid);
  }

  /** A block of exactly 65536 bytes is accepted whole and comes back empty. */
  lemma FullModulusIsLost(data: seq<byte>, uid: Uid, gid: Gid, stamp: Time)
    requires |data| == 0x1_0000
    ensures var o := Push(Blank(1, 0x1_0000), data, uid, gid, stamp);
      o.status == Ok(0x1_0000) && Shaped(o.ring) && Pop(o.ring, uid, gid).status == Ok(0)
  {
    BlankIsEmpty(1, 0x1_0000);
    PushRefines(Blank(1, 0x1_0000), data, uid, gid, stamp);
    PopRefines(Push(Blank(1, 0x1_0000), data, uid, gid, stamp).ring, uid, gid);
  }
}
