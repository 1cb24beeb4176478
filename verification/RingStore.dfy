/**
 The contents of a `kmsgpipe_buffer_t`: two positions, one metadata record for each slot, and the
 payload bytes of slot `i` at `i * dataSize`. No count is stored; a slot is live when its
 record's `valid` flag is set.
 */
module RingStore {
  import opened Messages
  import opened Circular
  import Fifo

  datatype Record = Record(stamp: Time, uid: Uid, gid: Gid, len: nat, valid: bool)

  datatype Ring = Ring(capacity: nat, dataSize: nat, head: nat, tail: nat,
                       records: seq<Record>, base: seq<byte>)

  /** A ring after an operation, with the operation's result and the bytes it copied out. */
  datatype Outcome = Outcome(ring: Ring, status: Status, bytes: seq<byte>)

  predicate Shaped(r: Ring) {
    && 0 < r.capacity == |r.records|
    && |r.base| == Offset(r.capacity, r.dataSize)
    && r.head < r.capacity && r.tail < r.capacity
    && forall i | 0 <= i < r.capacity :: r.records[i].len <= r.dataSize
  }

  // ---------------------------------------------------------------- operations

  const NO_RECORD := Record(0, 0, 0, 0, false)

  function Blank(capacity: nat, dataSize: nat): (r: Ring)
    ensures Shaped(r) <==> 0 < capacity
  {
    Ring(capacity, dataSize, 0, 0, seq(capacity, _ => NO_RECORD), Zeros(Offset(capacity, dataSize)))
  }

  function Overwrite(base: seq<byte>, at: nat, data: seq<byte>): (b: seq<byte>)
    requires at + |data| <= |base|
    ensures |b| == |base|
    ensures b[at..at + |data|] == data
    ensures forall i | 0 <= i < |base| && !(at <= i < at + |data|) :: b[i] == base[i]
  {
    base[..at] + data + base[at + |data|..]
  }

  function Payload(r: Ring, i: nat): (p: seq<byte>)
    requires Shaped(r) && i < r.capacity
    ensures |p| == r.records[i].len
  {
    SlotInBuffer(i, r.capacity, r.dataSize);
    r.base[Offset(i, r.dataSize)..Offset(i, r.dataSize) + r.records[i].len]
  }

  function MsgAt(r: Ring, i: nat): Msg
    requires Shaped(r) && i < r.capacity
  {
    var rec := r.records[i];
    Msg(Payload(r, i), rec.uid, rec.gid, rec.stamp)
  }

  function Push(r: Ring, data: seq<byte>, uid: Uid, gid: Gid, stamp: Time): Outcome
    requires Shaped(r)
  {
    if |data| > r.dataSize then Outcome(r, Fail(EMSGSIZE), [])
    else if r.records[r.head].valid then Outcome(r, Fail(ENOSPC), [])
    else
      SlotInBuffer(r.head, r.capacity, r.dataSize);
      Outcome(
        r.(base := Overwrite(r.base, Offset(r.head, r.dataSize), data),
           records := r.records[r.head := Record(stamp, uid, gid, StoredLen(|data|), true)],
           head := (r.head + 1) % r.capacity),
        Ok(|data|), [])
  }

  /** Invalidate the slot at `tail` and step past it. */
  function DropOldest(r: Ring): (r': Ring)
    requires Shaped(r)
    ensures Shaped(r')
  {
    r.(records := r.records[r.tail := r.records[r.tail].(valid := false)],
       tail := (r.tail + 1) % r.capacity)
  }

  function Pop(r: Ring, uid: Uid, gid: Gid): Outcome
    requires Shaped(r)
  {
    var rec := r.records[r.tail];
    if !rec.valid then Outcome(r, Fail(ENODATA), [])
    else if !IsValidAccess(uid, gid, rec.uid, rec.gid) then Outcome(r, Fail(EACCES), [])
    else Outcome(DropOldest(r), Ok(rec.len), Payload(r, r.tail))
  }

  /** The scan of `kmsgpipe_get_message_count`, after its first `n` slots. */
  function ValidUpTo(records: seq<Record>, n: nat): (count: nat)
    requires n <= |records|
    ensures count <= n
  {
    if n == 0 then 0
    else ValidUpTo(records, n - 1) + (if records[n - 1].valid then 1 else 0)
  }

  function Count(r: Ring): (count: nat)
    requires Shaped(r)
    ensures count <= r.capacity
  {
    ValidUpTo(r.records, r.capacity)
  }

  /** The guard of the cleanup loop. */
  predicate Expirable(r: Ring, now: Time)
    requires Shaped(r)
  {
    r.records[r.tail].valid && r.records[r.tail].stamp < now
  }

  lemma {:induction false} ValidUpToDrop(records: seq<Record>, i: nat, n: nat)
    requires i < |records| && n <= |records| && records[i].valid
    ensures ValidUpTo(records[i := records[i].(valid := false)], n)
         == ValidUpTo(records, n) - (if i < n then 1 else 0)
  {
    if n > 0 {
      ValidUpToDrop(records, i, n - 1);
    }
  }

  /** Every iteration leaves one valid record fewer, on any ring whatever. */
  lemma DropOldestCounts(r: Ring)
    requires Shaped(r) && r.records[r.tail].valid
    ensures Count(DropOldest(r)) == Count(r) - 1
  {
    ValidUpToDrop(r.records, r.tail, r.capacity);
  }

  function Expire(r: Ring, now: Time): (o: Outcome)
    requires Shaped(r)
    ensures Shaped(o.ring) && o.status.Ok?
    ensures !Expirable(o.ring, now)
    decreases Count(r)
  {
    if Expirable(r, now) then
      DropOldestCounts(r);
      var o := Expire(DropOldest(r), now);
      Outcome(o.ring, Ok(o.status.count + 1), [])
    else
      Outcome(r, Ok(0), [])
  }

  function Clear(r: Ring): Outcome
    requires Shaped(r)
  {
    Outcome(Blank(r.capacity, r.dataSize), Ok(Count(r)), [])
  }

  // ---------------------------------------------------------------- the queue a ring holds

  /** The live slots are the `|q|` slots from `tail` on, and they hold `q` in order. */
  ghost predicate Represents(r: Ring, q: seq<Msg>) {
    && Shaped(r)
    && |q| <= r.capacity
    && r.head == SlotOf(r.tail, |q|, r.capacity)
    && (forall i | 0 <= i < r.capacity :: r.records[i].valid <==> Dist(r.tail, i, r.capacity) < |q|)
    && (forall k | 0 <= k < |q| :: MsgAt(r, SlotOf(r.tail, k, r.capacity)) == q[k])
  }

  ghost function QueueOf(r: Ring): (q: seq<Msg>)
    requires Shaped(r)
    ensures |q| == Count(r)
  {
    seq(Count(r), k requires 0 <= k < Count(r) => MsgAt(r, SlotOf(r.tail, k, r.capacity)))
  }

  ghost predicate WellFormed(r: Ring) {
    Shaped(r) && Represents(r, QueueOf(r))
  }

  /** How many of the slots before `i` lie in the circular interval of `n` slots from `tail`. */
  function Covered(tail: nat, n: nat, cap: nat, i: nat): int {
    if tail + n <= cap then
      if i <= tail then 0 else if i <= tail + n then i - tail else n
    else
      (if i <= tail + n - cap then i else tail + n - cap) + (if i <= tail then 0 else i - tail)
  }

  lemma {:induction false} ValidUpToInterval(r: Ring, n: nat, i: nat)
    requires Shaped(r) && n <= r.capacity && i <= r.capacity
    requires forall j | 0 <= j < r.capacity :: r.records[j].valid <==> Dist(r.tail, j, r.capacity) < n
    ensures ValidUpTo(r.records, i) == Covered(r.tail, n, r.capacity, i)
  {
    if i > 0 {
      ValidUpToInterval(r, n, i - 1);
      assert r.records[i - 1].valid <==> Dist(r.tail, i - 1, r.capacity) < n;
    }
  }

  /** The linear scan counts the queue, for every rotation of `tail`. */
  lemma CountIsLength(r: Ring, q: seq<Msg>)
    requires Represents(r, q)
    ensures Count(r) == |q|
  {
    ValidUpToInterval(r, |q|, r.capacity);
  }

  lemma QueueIsUnique(r: Ring, q: seq<Msg>)
    requires Represents(r, q)
    ensures WellFormed(r) && QueueOf(r) == q
  {
    CountIsLength(r, q);
    assert QueueOf(r) == q;
  }

  /** With no stored count, the two flags at `head` and `tail` tell full, empty and in between. */
  lemma FlagsDecide(r: Ring)
    requires WellFormed(r)
    ensures r.records[r.head].valid <==> |QueueOf(r)| == r.capacity
    ensures r.records[r.tail].valid <==> |QueueOf(r)| > 0
    ensures r.head == r.tail <==> |QueueOf(r)| == 0 || |QueueOf(r)| == r.capacity
    ensures r.head == (r.tail + |QueueOf(r)|) % r.capacity
    ensures forall i | 0 <= i < r.capacity ::
              r.records[i].valid <==> (i - r.tail) % r.capacity < |QueueOf(r)|
  {
    SlotOfIsMod(r.tail, |QueueOf(r)|, r.capacity);
    forall i | 0 <= i < r.capacity
      ensures r.records[i].valid <==> (i - r.tail) % r.capacity < |QueueOf(r)|
    {
      DistIsMod(r.tail, i, r.capacity);
    }
    assert r.records[r.head].valid <==> Dist(r.tail, r.head, r.capacity) < |QueueOf(r)|;
    assert r.records[r.tail].valid <==> Dist(r.tail, r.tail, r.capacity) < |QueueOf(r)|;
  }

  // ---------------------------------------------------------------- refinement of the queue

  lemma BlankIsEmpty(capacity: nat, dataSize: nat)
    requires 0 < capacity
    ensures WellFormed(Blank(capacity, dataSize))
    ensures QueueOf(Blank(capacity, dataSize)) == []
  {
    QueueIsUnique(Blank(capacity, dataSize), []);
  }

  lemma OverwriteElsewhere(base: seq<byte>, at: nat, data: seq<byte>, lo: nat, n: nat)
    requires at + |data| <= |base| && lo + n <= |base|
    requires lo + n <= at || at + |data| <= lo
    ensures Overwrite(base, at, data)[lo..lo + n] == base[lo..lo + n]
  {
  }

  lemma PushKeepsSlot(r: Ring, data: seq<byte>, uid: Uid, gid: Gid, stamp: Time, i: nat)
    requires Shaped(r) && Push(r, data, uid, gid, stamp).status.Ok?
    requires Shaped(Push(r, data, uid, gid, stamp).ring) && i < r.capacity && i != r.head
    ensures MsgAt(Push(r, data, uid, gid, stamp).ring, i) == MsgAt(r, i)
  {
    SlotInBuffer(r.head, r.capacity, r.dataSize);
    SlotInBuffer(i, r.capacity, r.dataSize);
    SlotsDisjoint(i, r.head, r.dataSize);
    OverwriteElsewhere(r.base, Offset(r.head, r.dataSize), data, Offset(i, r.dataSize), r.records[i].len);
  }

  /** A successful push changes only the bytes of slot `head`, and stays inside the buffer. */
  lemma PushFrame(r: Ring, data: seq<byte>, uid: Uid, gid: Gid, stamp: Time)
    requires Shaped(r) && Push(r, data, uid, gid, stamp).status.Ok?
    ensures var r' := Push(r, data, uid, gid, stamp).ring;
      && Shaped(r')
      && var at := Offset(r.head, r.dataSize);
      && at + r.dataSize <= |r.base|
      && (forall b | 0 <= b < |r.base| && !(at <= b < at + r.dataSize) :: r'.base[b] == r.base[b])
      && Payload(r', r.head) == Stored(data)
      && r'.records == r.records[r.head := Record(stamp, uid, gid, StoredLen(|data|), true)]
      && r'.tail == r.tail && r'.head == (if r.head + 1 < r.capacity then r.head + 1 else 0)
      && (forall i | 0 <= i < r.capacity && i != r.head :: MsgAt(r', i) == MsgAt(r, i))
  {
    SlotInBuffer(r.head, r.capacity, r.dataSize);
    NextIsSlotOf(r.head, r.capacity);
    var r' := Push(r, data, uid, gid, stamp).ring;
    assert Shaped(r');
    forall i | 0 <= i < r.capacity && i != r.head
      ensures MsgAt(r', i) == MsgAt(r, i)
    {
      PushKeepsSlot(r, data, uid, gid, stamp, i);
    }
    var at := Offset(r.head, r.dataSize);
    assert Payload(r', r.head) == r'.base[at..at + |data|][..StoredLen(|data|)];
  }

  lemma PushRefines(r: Ring, data: seq<byte>, uid: Uid, gid: Gid, stamp: Time)
    requires WellFormed(r)
    ensures var o := Push(r, data, uid, gid, stamp); var q := QueueOf(r);
      && WellFormed(o.ring)
      && o.status == (if |data| > r.dataSize then Fail(EMSGSIZE)
                      else if |q| == r.capacity then Fail(ENOSPC)
                      else Ok(|data|))
      && QueueOf(o.ring) == (if o.status.Ok? then q + [Msg(Stored(data), uid, gid, stamp)] else q)
  {
    FlagsDecide(r);
    var o := Push(r, data, uid, gid, stamp);
    if o.status.Ok? {
      PushFrame(r, data, uid, gid, stamp);
      PushRepresents(r, data, uid, gid, stamp);
      QueueIsUnique(o.ring, QueueOf(r) + [Msg(Stored(data), uid, gid, stamp)]);
    }
  }

  lemma PushRepresents(r: Ring, data: seq<byte>, uid: Uid, gid: Gid, stamp: Time)
    requires WellFormed(r) && |QueueOf(r)| < r.capacity
    requires Push(r, data, uid, gid, stamp).status.Ok?
    ensures Represents(Push(r, data, uid, gid, stamp).ring,
                       QueueOf(r) + [Msg(Stored(data), uid, gid, stamp)])
  {
    PushFrame(r, data, uid, gid, stamp);
    NextIsSlotOf(r.head, r.capacity);
    var r' := Push(r, data, uid, gid, stamp).ring;
    var q := QueueOf(r);
    var q' := q + [Msg(Stored(data), uid, gid, stamp)];
    forall i | 0 <= i < r.capacity
      ensures r'.records[i].valid <==> Dist(r.tail, i, r.capacity) < |q'|
    {
      assert r.records[i].valid <==> Dist(r.tail, i, r.capacity) < |q|;
    }
    forall k | 0 <= k < |q'|
      ensures MsgAt(r', SlotOf(r.tail, k, r.capacity)) == q'[k]
    {
      if k < |q| {
        assert SlotOf(r.tail, k, r.capacity) != r.head;
      }
    }
  }

  /** Dropping the oldest message leaves the contents of every slot alone. */
  lemma DropKeepsMessages(r: Ring, i: nat)
    requires Shaped(r) && i < r.capacity
    ensures MsgAt(DropOldest(r), i) == MsgAt(r, i)
  {
    assert Payload(DropOldest(r), i) == Payload(r, i);
  }

  /** A drop changes one flag and `tail`, and nothing else: stale bytes and fields stay. */
  lemma DropFrame(r: Ring)
    requires Shaped(r)
    ensures var r', rec := DropOldest(r), r.records[r.tail];
      && r'.base == r.base && r'.head == r.head
      && r'.tail == (if r.tail + 1 < r.capacity then r.tail + 1 else 0)
      && r'.records == r.records[r.tail := Record(rec.stamp, rec.uid, rec.gid, rec.len, false)]
  {
    NextIsSlotOf(r.tail, r.capacity);
  }

  /** The live slots after a drop are those one step further on. */
  lemma DropMovesLive(r: Ring, n: nat)
    requires Shaped(r) && 0 < n <= r.capacity
    requires forall i | 0 <= i < r.capacity :: r.records[i].valid <==> Dist(r.tail, i, r.capacity) < n
    ensures var r' := DropOldest(r);
      forall i | 0 <= i < r.capacity :: r'.records[i].valid <==> Dist(r'.tail, i, r.capacity) < n - 1
  {
    NextIsSlotOf(r.tail, r.capacity);
    var r' := DropOldest(r);
    forall i | 0 <= i < r.capacity
      ensures r'.records[i].valid <==> Dist(r'.tail, i, r.capacity) < n - 1
    {
      assert r.records[i].valid <==> Dist(r.tail, i, r.capacity) < n;
    }
  }

  lemma DropRepresents(r: Ring)
    requires WellFormed(r) && |QueueOf(r)| > 0
    ensures Represents(DropOldest(r), QueueOf(r)[1..])
  {
    NextIsSlotOf(r.tail, r.capacity);
    var r', q := DropOldest(r), QueueOf(r);
    DropMovesLive(r, |q|);
    forall k | 0 <= k < |q| - 1
      ensures MsgAt(r', SlotOf(r'.tail, k, r.capacity)) == q[k + 1]
    {
      var i := SlotOf(r.tail, k + 1, r.capacity);
      assert SlotOf(r'.tail, k, r.capacity) == i;
      DropKeepsMessages(r, i);
    }
  }

  lemma DropRefines(r: Ring)
    requires WellFormed(r) && r.records[r.tail].valid
    ensures QueueOf(r) != []
    ensures WellFormed(DropOldest(r)) && QueueOf(DropOldest(r)) == QueueOf(r)[1..]
    ensures MsgAt(r, r.tail) == QueueOf(r)[0]
  {
    FlagsDecide(r);
    assert MsgAt(r, SlotOf(r.tail, 0, r.capacity)) == QueueOf(r)[0];
    DropRepresents(r);
    QueueIsUnique(DropOldest(r), QueueOf(r)[1..]);
  }

  lemma PopRefines(r: Ring, uid: Uid, gid: Gid)
    requires WellFormed(r)
    ensures var o := Pop(r, uid, gid); var q := QueueOf(r);
      && WellFormed(o.ring)
      && o.status == (if q == [] then Fail(ENODATA)
                      else if uid != 0 && uid != q[0].uid && gid != q[0].gid then Fail(EACCES)
                      else Ok(|q[0].payload|))
      && QueueOf(o.ring) == (if o.status.Ok? then q[1..] else q)
      && o.bytes == (if o.status.Ok? then q[0].payload else [])
  {
    FlagsDecide(r);
    if r.records[r.tail].valid {
      DropRefines(r);
    }
  }

  lemma {:induction false} ExpireRefines(r: Ring, now: Time)
    requires WellFormed(r)
    ensures var o := Expire(r, now); var q := QueueOf(r);
      && WellFormed(o.ring)
      && o.status == Ok(Fifo.ExpiredPrefix(q, now))
      && QueueOf(o.ring) == q[Fifo.ExpiredPrefix(q, now)..]
    decreases Count(r)
  {
    FlagsDecide(r);
    var q := QueueOf(r);
    if r.records[r.tail].valid {
      DropRefines(r);
      if Expirable(r, now) {
        DropOldestCounts(r);
        ExpireRefines(DropOldest(r), now);
        assert q[1..][Fifo.ExpiredPrefix(q[1..], now)..] == q[Fifo.ExpiredPrefix(q, now)..];
      }
    }
  }

  lemma {:induction false} ExpireKeepsSize(r: Ring, now: Time)
    requires Shaped(r)
    ensures Expire(r, now).ring.capacity == r.capacity && Expire(r, now).ring.dataSize == r.dataSize
    decreases Count(r)
  {
    if Expirable(r, now) {
      DropOldestCounts(r);
      ExpireKeepsSize(DropOldest(r), now);
    }
  }

  /** What one iteration of the cleanup loop leaves to do. */
  lemma ExpireIteration(r: Ring, now: Time)
    requires WellFormed(r) && Expirable(r, now)
    ensures WellFormed(DropOldest(r)) && Count(DropOldest(r)) < Count(r)
    ensures Expire(r, now).ring == Expire(DropOldest(r), now).ring
    ensures Expire(r, now).status.count == Expire(DropOldest(r), now).status.count + 1
  {
    DropOldestCounts(r);
    DropRefines(r);
  }

  lemma ClearRefines(r: Ring)
    requires WellFormed(r)
    ensures WellFormed(Clear(r).ring) && QueueOf(Clear(r).ring) == []
    ensures Clear(r).status == Ok(|QueueOf(r)|)
    ensures Clear(r).ring.head == 0 && Clear(r).ring.tail == 0
    ensures forall b | 0 <= b < |r.base| :: Clear(r).ring.base[b] == 0
    ensures forall i | 0 <= i < r.capacity :: Clear(r).ring.records[i] == Record(0, 0, 0, 0, false)
  {
    BlankIsEmpty(r.capacity, r.dataSize);
  }

  // ---------------------------------------------------------------- consequences

  /** Two passes of the cleanup loop do what the later deadline alone does, and count the same. */
  lemma {:induction false} ExpireTwice(r: Ring, t1: Time, t2: Time)
    requires Shaped(r)
    ensures var o1 := Expire(r, t1); var o2 := Expire(o1.ring, t2);
      var o := Expire(r, if t1 <= t2 then t2 else t1);
      o2.ring == o.ring && o1.status.count + o2.status.count == o.status.count
    decreases Count(r)
  {
    if Expirable(r, t1) {
      DropOldestCounts(r);
      ExpireTwice(DropOldest(r), t1, t2);
    }
  }
}
