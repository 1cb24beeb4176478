/**
 The ring buffer as the C library updates it: two caller-supplied arrays and two positions,
 changed in place. Each method is proved to compute the operation of the same name in
 `RingStore` and, on the queue the buffer holds, the operation of a bounded FIFO.
 */
module RingBuffer {
  import opened Messages
  import opened Circular
  import opened Memory
  import RingStore
  import Fifo

  /** Overwriting inside a prefix of the caller's array overwrites the prefix and nothing behind it. */
  lemma OverwritePrefix(whole: seq<byte>, n: nat, at: nat, data: seq<byte>)
    requires at + |data| <= n <= |whole|
    ensures RingStore.Overwrite(whole, at, data)[..n] == RingStore.Overwrite(whole[..n], at, data)
    ensures RingStore.Overwrite(whole, at, data)[n..] == whole[n..]
  {
  }

  lemma UpdatePrefix<T>(whole: seq<T>, n: nat, i: nat, x: T)
    requires i < n <= |whole|
    ensures whole[i := x][..n] == whole[..n][i := x]
    ensures whole[i := x][n..] == whole[n..]
  {
  }

  /** A push, on arrays `whole` and `recs` of which the ring `r` uses the front. */
  lemma FilledSlot(r: RingStore.Ring, whole: seq<byte>, recs: seq<RingStore.Record>,
                   data: seq<byte>, uid: Uid, gid: Gid, stamp: Time)
    requires RingStore.Shaped(r) && r.base <= whole && r.records <= recs
    requires RingStore.Push(r, data, uid, gid, stamp).status.Ok?
    ensures RingStore.Shaped(RingStore.Push(r, data, uid, gid, stamp).ring)
    ensures var at, rec := Offset(r.head, r.dataSize), RingStore.Record(stamp, uid, gid, StoredLen(|data|), true);
      && at + |data| <= |r.base|
      && RingStore.Push(r, data, uid, gid, stamp).ring.base == RingStore.Overwrite(whole, at, data)[..|r.base|]
      && RingStore.Push(r, data, uid, gid, stamp).ring.records == recs[r.head := rec][..r.capacity]
      && RingStore.Overwrite(whole, at, data)[|r.base|..] == whole[|r.base|..]
      && recs[r.head := rec][r.capacity..] == recs[r.capacity..]
  {
    SlotInBuffer(r.head, r.capacity, r.dataSize);
    RingStore.PushFrame(r, data, uid, gid, stamp);
    assert r.base == whole[..|r.base|] && r.records == recs[..r.capacity];
    OverwritePrefix(whole, |r.base|, Offset(r.head, r.dataSize), data);
    UpdatePrefix(recs, r.capacity, r.head, RingStore.Record(stamp, uid, gid, StoredLen(|data|), true));
  }

  class KmsgPipeBuffer {
    var base: array<byte>
    var capacity: nat
    var dataSize: nat
    var head: nat
    var tail: nat
    var records: array<RingStore.Record>

    /** The caller's arrays may be longer than the ring needs. */
    ghost predicate HasRoom()
      reads this
    {
      Offset(capacity, dataSize) <= base.Length && capacity <= records.Length
    }

    /** The fields as one value. */
    ghost function Contents(): RingStore.Ring
      requires HasRoom()
      reads this, base, records
    {
      RingStore.Ring(capacity, dataSize, head, tail, records[..capacity], base[..Offset(capacity, dataSize)])
    }

    ghost predicate Valid()
      reads this, base, records
    {
      HasRoom() && RingStore.WellFormed(Contents())
    }

    ghost function Queue(): seq<Msg>
      requires Valid()
      reads this, base, records
    {
      RingStore.QueueOf(Contents())
    }

    ghost function Limits(): Fifo.Limits
      reads this
    {
      Fifo.Limits(capacity, dataSize)
    }

    constructor (base: array<byte>, records: array<RingStore.Record>, capacity: nat, dataSize: nat)
      requires Offset(capacity, dataSize) <= base.Length && capacity <= records.Length
      modifies base, records
      ensures HasRoom() && Limits() == Fifo.Limits(capacity, dataSize)
      ensures this.base == base && this.records == records && head == 0 && tail == 0
      ensures forall b | 0 <= b < Offset(capacity, dataSize) :: base[b] == 0
      ensures forall i | 0 <= i < capacity :: records[i] == RingStore.Record(0, 0, 0, 0, false)
      ensures Contents() == RingStore.Blank(capacity, dataSize)
      ensures if 0 < capacity then Valid() && Queue() == [] else !Valid()
      ensures base[Offset(capacity, dataSize)..] == old(base[Offset(capacity, dataSize)..])
      ensures records[capacity..] == old(records[capacity..])
    {
      this.base := base;
      this.records := records;
      this.head := 0;
      this.tail := 0;
      this.capacity := capacity;
      this.dataSize := dataSize;
      new;
      Erase();
    }

    /** The two memsets and the loop shared by `kmsgpipe_init` and `kmsgpipe_clear`. */
    method Erase()
      requires HasRoom() && head == 0 && tail == 0
      modifies base, records
      ensures forall b | 0 <= b < Offset(capacity, dataSize) :: base[b] == 0
      ensures forall i | 0 <= i < capacity :: records[i] == RingStore.Record(0, 0, 0, 0, false)
      ensures HasRoom() && Contents() == RingStore.Blank(capacity, dataSize)
      ensures 0 < capacity ==> Valid() && Queue() == []
      ensures base[Offset(capacity, dataSize)..] == old(base[Offset(capacity, dataSize)..])
      ensures records[capacity..] == old(records[capacity..])
    {
      var size := Offset(capacity, dataSize);
      MemSet(base, 0, size);
      MemSet(records, RingStore.NO_RECORD, capacity);
      ghost var zeroed, blank := base[..], records[..];
      assert base[..size] == Zeros(size);
      for i := 0 to capacity
        invariant base[..] == zeroed && records[..] == blank
      {
        records[i] := records[i].(valid := false);
      }
      assert Contents() == RingStore.Blank(capacity, dataSize);
      if 0 < capacity {
        RingStore.BlankIsEmpty(capacity, dataSize);
      }
    }

    /** The array bounds that every method relies on. */
    ghost predicate InBounds()
      reads this, base, records
    {
      HasRoom() && RingStore.Shaped(Contents())
    }

    /** The copy by which `kmsgpipe_push` fills the slot at `head`. */
    method StorePayload(data: array<byte>, len: nat)
      requires len <= data.Length && data != base
      requires Offset(head, dataSize) + len <= base.Length
      modifies base
      ensures base[..] == RingStore.Overwrite(old(base[..]), Offset(head, dataSize), data[..len])
    {
      MemCopy(base, Offset(head, dataSize), data, 0, len);
    }

    /** The statements by which `kmsgpipe_push` fills the slot at `head`. */
    method Fill(data: array<byte>, len: nat, uid: Uid, gid: Gid, stamp: Time)
      requires InBounds()
      requires len <= data.Length && data != base
      requires RingStore.Push(Contents(), data[..len], uid, gid, stamp).status.Ok?
      modifies this`head, base, records
      ensures InBounds() && head == (old(head) + 1) % capacity
      ensures Contents() == RingStore.Push(old(Contents()), data[..len], uid, gid, stamp).ring
      ensures base[Offset(capacity, dataSize)..] == old(base[Offset(capacity, dataSize)..])
      ensures records[capacity..] == old(records[capacity..])
    {
      ghost var before, bytes, recs := Contents(), base[..], records[..];
      FilledSlot(before, bytes, recs, data[..len], uid, gid, stamp);
      StorePayload(data, len);
      records[head] := RingStore.Record(stamp, uid, gid, StoredLen(len), true);
      assert records[..] == recs[head := RingStore.Record(stamp, uid, gid, StoredLen(len), true)];
      head := (head + 1) % capacity;
      assert Contents() == RingStore.Push(before, data[..len], uid, gid, stamp).ring;
    }

    /** The two statements by which `kmsgpipe_pop` and the cleanup loop give up the slot at `tail`. */
    method Retire()
      requires InBounds()
      modifies this`tail, records
      ensures InBounds() && tail == (old(tail) + 1) % capacity
      ensures Contents() == RingStore.DropOldest(old(Contents()))
      ensures records[capacity..] == old(records[capacity..])
    {
      ghost var before, recs := Contents(), records[..];
      UpdatePrefix(recs, capacity, tail, records[tail].(valid := false));
      records[tail] := records[tail].(valid := false);
      assert records[..] == recs[tail := records[tail]];
      tail := (tail + 1) % capacity;
      assert Contents() == RingStore.DropOldest(before);
    }

    /** The body of `kmsgpipe_push`: what it does to the arrays and to `head`. */
    method PushSlot(data: array<byte>, len: nat, uid: Uid, gid: Gid, stamp: Time) returns (r: Status)
      requires InBounds()
      requires len <= data.Length && data != base
      modifies this`head, base, records
      ensures InBounds() && (r.Ok? ==> head == (old(head) + 1) % capacity)
      ensures r == RingStore.Push(old(Contents()), data[..len], uid, gid, stamp).status
      ensures Contents() == RingStore.Push(old(Contents()), data[..len], uid, gid, stamp).ring
      ensures base[Offset(capacity, dataSize)..] == old(base[Offset(capacity, dataSize)..])
      ensures records[capacity..] == old(records[capacity..])
      ensures r.Fail? ==> base[..] == old(base[..]) && records[..] == old(records[..]) && head == old(head)
    {
      if len > dataSize {
        return Fail(EMSGSIZE);
      }
      if records[head].valid {
        return Fail(ENOSPC);
      }
      Fill(data, len, uid, gid, stamp);
      return Ok(len);
    }

    /** Append a message of `len` bytes, or refuse and change nothing. */
    method Push(data: array<byte>, len: nat, uid: Uid, gid: Gid, stamp: Time) returns (r: Status)
      requires Valid()
      requires len <= data.Length && data != base
      modifies this`head, base, records
      ensures Valid()
      ensures r.Ok? ==> head == (old(head) + 1) % capacity
      ensures r == (if len > dataSize then Fail(EMSGSIZE)
                    else if |old(Queue())| == capacity then Fail(ENOSPC)
                    else Ok(len))
      ensures Queue() == if r.Ok? then old(Queue()) + [Msg(Stored(data[..len]), uid, gid, stamp)]
                         else old(Queue())
      ensures Contents() == RingStore.Push(old(Contents()), data[..len], uid, gid, stamp).ring
      ensures base[Offset(capacity, dataSize)..] == old(base[Offset(capacity, dataSize)..])
      ensures records[capacity..] == old(records[capacity..])
      ensures r.Fail? ==> base[..] == old(base[..]) && records[..] == old(records[..]) && head == old(head)
    {
      ghost var o := RingStore.Push(Contents(), data[..len], uid, gid, stamp);
      RingStore.PushRefines(Contents(), data[..len], uid, gid, stamp);
      r := PushSlot(data, len, uid, gid, stamp);
      assert Contents() == o.ring && r == o.status;
    }

    /** The copy by which `kmsgpipe_pop` hands out the slot at `tail`. */
    method CopyPayload(outBuf: array<byte>)
      requires InBounds() && dataSize <= outBuf.Length && outBuf != base
      modifies outBuf
      ensures outBuf[..records[tail].len] == RingStore.Payload(Contents(), tail)
      ensures outBuf[records[tail].len..] == old(outBuf[records[tail].len..])
    {
      SlotInBuffer(tail, capacity, dataSize);
      var at, len := Offset(tail, dataSize), records[tail].len;
      MemCopy(outBuf, 0, base, at, len);
      assert base[at..at + len] == RingStore.Payload(Contents(), tail);
      assert outBuf[..len] == outBuf[0..0 + len];
    }

    /** The statements by which `kmsgpipe_pop` delivers the slot at `tail` and gives it up. */
    method Deliver(outBuf: array<byte>) returns (len: nat)
      requires InBounds() && dataSize <= outBuf.Length && outBuf != base
      modifies this`tail, records, outBuf
      ensures InBounds() && tail == (old(tail) + 1) % capacity
      ensures Contents() == RingStore.DropOldest(old(Contents()))
      ensures len <= dataSize && outBuf[..len] == RingStore.Payload(old(Contents()), old(tail))
      ensures outBuf[len..] == old(outBuf[..])[len..]
      ensures records[capacity..] == old(records[capacity..])
    {
      len := records[tail].len;
      CopyPayload(outBuf);
      Retire();
    }

    /** The body of `kmsgpipe_pop`: what it does to the caller's buffer, the records and `tail`. */
    method PopSlot(outBuf: array<byte>, uid: Uid, gid: Gid) returns (r: Status)
      requires InBounds() && dataSize <= outBuf.Length && outBuf != base
      modifies this`tail, records, outBuf
      ensures InBounds() && (r.Ok? ==> tail == (old(tail) + 1) % capacity)
      ensures r == RingStore.Pop(old(Contents()), uid, gid).status
      ensures Contents() == RingStore.Pop(old(Contents()), uid, gid).ring
      ensures r.Ok? ==> r.count <= dataSize && outBuf[..r.count] == RingStore.Pop(old(Contents()), uid, gid).bytes
      ensures r.Ok? ==> outBuf[r.count..] == old(outBuf[..])[r.count..]
      ensures records[capacity..] == old(records[capacity..])
      ensures r.Fail? ==> outBuf[..] == old(outBuf[..]) && records[..] == old(records[..]) && tail == old(tail)
    {
      if !records[tail].valid {
        return Fail(ENODATA);
      }
      if !IsValidAccess(uid, gid, records[tail].uid, records[tail].gid) {
        return Fail(EACCES);
      }
      var len := Deliver(outBuf);
      return Ok(len);
    }

    /** Hand the oldest message to an authorised caller, or refuse and change nothing. */
    method Pop(outBuf: array<byte>, uid: Uid, gid: Gid) returns (r: Status)
      requires Valid()
      requires dataSize <= outBuf.Length && outBuf != base
      modifies this`tail, records, outBuf
      ensures Valid()
      ensures r.Ok? ==> tail == (old(tail) + 1) % capacity
      ensures r == (if old(Queue()) == [] then Fail(ENODATA)
                    else if uid != 0 && uid != old(Queue())[0].uid && gid != old(Queue())[0].gid then Fail(EACCES)
                    else Ok(|old(Queue())[0].payload|))
      ensures Queue() == if r.Ok? then old(Queue())[1..] else old(Queue())
      ensures r.Ok? ==> r.count <= outBuf.Length
      ensures r.Ok? ==> outBuf[..r.count] == old(Queue())[0].payload
      ensures r.Ok? ==> outBuf[r.count..] == old(outBuf[..])[r.count..]
      ensures r.Fail? ==> outBuf[..] == old(outBuf[..])
      ensures Contents() == RingStore.Pop(old(Contents()), uid, gid).ring
      ensures records[capacity..] == old(records[capacity..])
      ensures r.Fail? ==> records[..] == old(records[..]) && tail == old(tail)
    {
      ghost var q, o := Queue(), RingStore.Pop(Contents(), uid, gid);
      RingStore.PopRefines(Contents(), uid, gid);
      r := PopSlot(outBuf, uid, gid);
      assert Contents() == o.ring && r == o.status;
      assert Queue() == if r.Ok? then q[1..] else q;
      assert r.Ok? ==> outBuf[..r.count] == q[0].payload;
    }

    /** Count the valid flags, whatever the state; in a valid one that is the length of the queue. */
    method GetMessageCount() returns (count: nat)
      requires HasRoom()
      ensures count == RingStore.ValidUpTo(records[..capacity], capacity) <= capacity
      ensures Valid() ==> count == |Queue()|
    {
      count := 0;
      for i := 0 to capacity
        invariant count == RingStore.ValidUpTo(records[..capacity], i)
      {
        if records[i].valid {
          count := count + 1;
        }
      }
    }

    /** Drop the longest prefix of messages stamped before `now`. */
    method CleanupExpired(now: Time) returns (expired: nat)
      requires Valid()
      modifies this`tail, records
      ensures Valid()
      ensures expired == Fifo.ExpiredPrefix(old(Queue()), now)
      ensures Queue() == old(Queue())[expired..]
      ensures Contents() == RingStore.Expire(old(Contents()), now).ring
      ensures records[capacity..] == old(records[capacity..])
    {
      ghost var before := Contents();
      RingStore.ExpireRefines(before, now);
      expired := 0;
      while records[tail].valid && records[tail].stamp < now
        invariant Valid()
        invariant records[capacity..] == old(records[capacity..])
        invariant RingStore.Expire(Contents(), now).ring == RingStore.Expire(before, now).ring
        invariant expired + RingStore.Expire(Contents(), now).status.count
               == RingStore.Expire(before, now).status.count
        decreases RingStore.Count(Contents())
      {
        RingStore.ExpireIteration(Contents(), now);
        Retire();
        expired := expired + 1;
      }
    }

    /**
     Forget every message and zero both arrays; whatever the state was, afterwards the ring is as
     `kmsgpipe_init` left it.
     */
    method Clear() returns (count: nat)
      requires HasRoom()
      modifies this`head, this`tail, base, records
      ensures head == 0 && tail == 0
      ensures forall b | 0 <= b < Offset(capacity, dataSize) :: base[b] == 0
      ensures forall i | 0 <= i < capacity :: records[i] == RingStore.Record(0, 0, 0, 0, false)
      ensures HasRoom() && Contents() == RingStore.Blank(capacity, dataSize)
      ensures if 0 < capacity then Valid() && Queue() == [] else !Valid()
      ensures old(Valid()) ==> count == |old(Queue())|
      ensures count == RingStore.ValidUpTo(old(records[..capacity]), capacity)
      ensures base[Offset(capacity, dataSize)..] == old(base[Offset(capacity, dataSize)..])
      ensures records[capacity..] == old(records[capacity..])
    {
      count := GetMessageCount();
      head := 0;
      tail := 0;
      Erase();
    }
  }
}
