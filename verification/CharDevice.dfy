/**
 The single-buffer character device: one stored message, replaced by every write and read in
 chunks through any number of independent cursors.
 */
module CharDevice {
  import opened Messages
  import opened Memory

  /** What one read of at most `count` bytes at `pos` copies out. */
  function Chunk(msg: seq<byte>, pos: nat, count: nat): (c: seq<byte>)
    ensures |c| <= count
    ensures c == [] <==> |msg| <= pos || count == 0
    ensures pos < |msg| ==> |c| == count || pos + |c| == |msg|
  {
    if |msg| <= pos then []
    else if count <= |msg| - pos then msg[pos..pos + count]
    else msg[pos..]
  }

  /** A chunk continues the message where its cursor stands. */
  lemma ChunkContinues(msg: seq<byte>, pos: nat, count: nat)
    requires pos <= |msg|
    ensures var c := Chunk(msg, pos, count); pos + |c| <= |msg| && msg[..pos] + c == msg[..pos + |c|]
  {
  }

  function Advance(pos: Option<nat>, n: nat): Option<nat> {
    match pos
    case None => None
    case Some(p) => Some(p + n)
  }

  /** A missing position reads from the start. */
  function PosOr0(pos: Option<nat>): nat {
    match pos
    case None => 0
    case Some(p) => p
  }

  lemma SameTail<T>(a: seq<T>, b: seq<T>, i: nat, j: nat)
    requires i <= j <= |a| == |b| && a[i..] == b[i..]
    ensures a[i..j] == b[i..j] && a[j..] == b[j..]
  {
    assert a[i..j] == a[i..][..j - i] && a[j..] == a[i..][j - i..];
    assert b[i..j] == b[i..][..j - i] && b[j..] == b[i..][j - i..];
  }

  class Device {
    var data: array?<byte>
    var size: nat
    var dataLen: nat

    ghost predicate Valid()
      reads this, data
    {
      data != null ==> dataLen <= size <= data.Length
    }

    ghost function Message(): seq<byte>
      requires Valid() && data != null
      reads this, data
    {
      data[..dataLen]
    }

    constructor (buffer: array?<byte>, size: nat)
      requires buffer != null ==> size <= buffer.Length
      ensures Valid() && data == buffer && this.size == size
      ensures data != null ==> Message() == []
    {
      data := buffer;
      this.size := size;
      dataLen := 0;
    }

    /** Replace the stored message; what the old one left behind is zeroed. */
    method Write(src: array<byte>, count: nat, pos: Option<nat>) returns (r: Status, pos': Option<nat>)
      requires Valid() && src != data && count <= src.Length
      modifies this`dataLen, data
      ensures Valid()
      ensures r == if data == null then Fail(ENODEV) else if count > size then Fail(EFAULT) else Ok(count)
      ensures r.Ok? ==> Message() == src[..count] && data[count..size] == Zeros(size - count)
      ensures r.Ok? ==> data[size..] == old(data[size..])
      ensures r.Fail? ==> dataLen == old(dataLen) && (data != null ==> data[..] == old(data[..]))
      ensures pos' == if r.Ok? && pos.Some? then Some(pos.value + count) else pos
    {
      if data == null {
        return Fail(ENODEV), pos;
      }
      if count > size {
        return Fail(EFAULT), pos;
      }
      MemSet(data, 0, size);
      ghost var zeroed := data[..];
      assert zeroed[..size] == Zeros(size) && zeroed[size..] == old(data[size..]);
      MemCopy(data, 0, src, 0, count);
      SameTail(data[..], zeroed, count, size);
      assert zeroed[count..size] == zeroed[..size][count..] == Zeros(size - count);
      dataLen := count;
      return Ok(count), Advance(pos, count);
    }

    /** Copy out the next chunk and move the caller's cursor; the message stays as it is. */
    method Read(dst: array<byte>, count: nat, pos: Option<nat>) returns (r: Status, pos': Option<nat>)
      requires Valid() && dst != data && count <= dst.Length
      modifies dst
      ensures data == null ==> r == Fail(ENODEV) && pos' == pos && dst[..] == old(dst[..])
      ensures data != null ==> r.Ok? && r.count <= count && dst[r.count..] == old(dst[..])[r.count..]
      ensures data != null ==>
                var p := if pos.Some? then pos.value else 0;
                if p < dataLen then
                  && r.count == (if count < dataLen - p then count else dataLen - p)
                  && dst[..r.count] == Message()[p..p + r.count]
                  && pos' == (if pos.Some? then Some(p + r.count) else None)
                else r.count == 0 && pos' == pos
      ensures data != null ==> dst[..r.count] == Chunk(Message(), PosOr0(pos), count)
    {
      if data == null {
        return Fail(ENODEV), pos;
      }
      if dataLen == 0 || (pos.Some? && pos.value >= dataLen) {
        return Ok(0), pos;
      }
      var start := PosOr0(pos);
      var avail := dataLen - start;
      var n := if count > avail then avail else count;
      assert data[start..start + n] == Chunk(Message(), start, count);
      MemCopy(dst, 0, data, start, n);
      return Ok(n), Advance(pos, n);
    }
  }

  // ---------------------------------------------------------------- chunked reading

  /** One read through cursor `id`. */
  datatype Request = Request(id: nat, count: nat)

  /** Where each cursor stands, and all it has received; an absent cursor stands at 0. */
  datatype Session = Session(pos: map<nat, nat>, got: map<nat, seq<byte>>)

  function At(s: Session, id: nat): nat {
    if id in s.pos then s.pos[id] else 0
  }

  function Got(s: Session, id: nat): seq<byte> {
    if id in s.got then s.got[id] else []
  }

  function Serve(msg: seq<byte>, s: Session, r: Request): Session {
    var c := Chunk(msg, At(s, r.id), r.count);
    Session(s.pos[r.id := At(s, r.id) + |c|], s.got[r.id := Got(s, r.id) + c])
  }

  /** Reads of one message, by any cursors in any order. */
  function ServeAll(msg: seq<byte>, reqs: seq<Request>): Session {
    if reqs == [] then Session(map[], map[])
    else Serve(msg, ServeAll(msg, reqs[..|reqs| - 1]), reqs[|reqs| - 1])
  }

  /** How many of the reads are through `id` and ask for something. */
  function Asked(reqs: seq<Request>, id: nat): nat {
    if reqs == [] then 0
    else Asked(reqs[..|reqs| - 1], id)
         + (if reqs[|reqs| - 1].id == id && reqs[|reqs| - 1].count > 0 then 1 else 0)
  }

  /** Each cursor has received exactly the prefix of the message up to its position. */
  lemma {:induction false} ChunksReassemble(msg: seq<byte>, reqs: seq<Request>, id: nat)
    ensures var s := ServeAll(msg, reqs); At(s, id) <= |msg| && Got(s, id) == msg[..At(s, id)]
  {
    if reqs != [] {
      ChunksReassemble(msg, reqs[..|reqs| - 1], id);
      ChunkContinues(msg, At(ServeAll(msg, reqs[..|reqs| - 1]), id), reqs[|reqs| - 1].count);
    }
  }

  /** How many bytes the reads through `id` have asked for. */
  function Wanted(reqs: seq<Request>, id: nat): nat {
    if reqs == [] then 0
    else Wanted(reqs[..|reqs| - 1], id) + (if reqs[|reqs| - 1].id == id then reqs[|reqs| - 1].count else 0)
  }

  /** A cursor has received as many bytes as it asked for, as far as the message goes. */
  lemma {:induction false} GetsWhatItWants(msg: seq<byte>, reqs: seq<Request>, id: nat)
    ensures var n := Wanted(reqs, id);
      Got(ServeAll(msg, reqs), id) == if n <= |msg| then msg[..n] else msg
  {
    ChunksReassemble(msg, reqs, id);
    if reqs != [] {
      GetsWhatItWants(msg, reqs[..|reqs| - 1], id);
      ChunksReassemble(msg, reqs[..|reqs| - 1], id);
    }
  }

  /** Every non-empty read brings a cursor closer, until it has the whole message. */
  lemma {:induction false} ProgressByAsking(msg: seq<byte>, reqs: seq<Request>, id: nat)
    ensures var p := At(ServeAll(msg, reqs), id); p == |msg| || Asked(reqs, id) <= p < |msg|
  {
    if reqs != [] {
      ChunksReassemble(msg, reqs[..|reqs| - 1], id);
      ProgressByAsking(msg, reqs[..|reqs| - 1], id);
    }
  }

  /**
   A cursor that has asked as often as the message has bytes has received all of it, and from then
   on every read through it returns nothing and leaves it there.
   */
  lemma WholeMessageThenNothing(msg: seq<byte>, reqs: seq<Request>, id: nat, count: nat)
    requires |msg| <= Asked(reqs, id)
    ensures var s := ServeAll(msg, reqs);
      && Got(s, id) == msg
      && Chunk(msg, At(s, id), count) == []
      && At(ServeAll(msg, reqs + [Request(id, count)]), id) == |msg|
      && Got(ServeAll(msg, reqs + [Request(id, count)]), id) == msg
  {
    ChunksReassemble(msg, reqs, id);
    ProgressByAsking(msg, reqs, id);
    assert (reqs + [Request(id, count)])[..|reqs|] == reqs;
  }
}
