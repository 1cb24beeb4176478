/**
 The specification of the driver: a bounded FIFO on which every call takes effect in one atomic
 step between its invocation and its return.
 */
module AtomicPipe {
  import opened Messages
  import opened Calls
  import Fifo

  /** A call is pending until its atomic step fixes its result; then it waits to return. */
  datatype Call =
    | Pending(op: Op, began: Time)
    | Done(op: Op, res: Result)

  datatype Pipe = Pipe(queue: seq<Msg>, calls: map<Tid, Call>, clock: Time)

  datatype Label =
    | Idle
    | Tick
    | Invoke(t: Tid, op: Op)
    | Enqueue(t: Tid, m: Msg)
    | Dequeue(t: Tid, m: Msg, copied: bool)
    | Expire(t: Tid, dropped: seq<Msg>)
    | Refuse(t: Tid)
    | WouldBlock(t: Tid)
    | Abort(t: Tid, e: Errno)
    | Return(t: Tid, res: Result)

  function Finish(p: Pipe, t: Tid, queue: seq<Msg>, res: Result): Pipe
    requires t in p.calls
  {
    p.(queue := queue, calls := p.calls[t := Done(p.calls[t].op, res)])
  }

  ghost predicate Step(lim: Fifo.Limits, p: Pipe, l: Label, p': Pipe) {
    match l
    case Idle => p' == p
    case Tick => p.clock <= p'.clock && p' == p.(clock := p'.clock)
    case Invoke(t, op) =>
      t !in p.calls && p' == p.(calls := p.calls[t := Pending(op, p.clock)])
    case Return(t, res) =>
      t in p.calls && p.calls[t].Done? && p.calls[t].res == res && p' == p.(calls := p.calls - {t})
    case Enqueue(t, m) =>
      t in p.calls && p.calls[t].Pending? && EnqueueStep(lim, p, t, m, p')
    case Dequeue(t, m, copied) =>
      t in p.calls && p.calls[t].Pending? && DequeueStep(lim, p, t, m, copied, p')
    case Expire(t, dropped) =>
      t in p.calls && p.calls[t].Pending? && ExpireStep(p, t, dropped, p')
    case Refuse(t) =>
      t in p.calls && p.calls[t].Pending? && RefuseStep(lim, p, t, p')
    case WouldBlock(t) =>
      t in p.calls && p.calls[t].Pending? && WouldBlockStep(lim, p, t, p')
    case Abort(t, e) =>
      t in p.calls && p.calls[t].Pending? && AbortStep(lim, p, t, e, p')
  }

  /** A write takes effect only below capacity, stamped during the call and not before the queue. */
  ghost predicate EnqueueStep(lim: Fifo.Limits, p: Pipe, t: Tid, m: Msg, p': Pipe)
    requires t in p.calls && p.calls[t].Pending?
  {
    var op := p.calls[t].op;
    && op.Write? && |op.data| <= lim.dataSize
    && |p.queue| < lim.capacity
    && m.payload == Stored(op.data) && m.uid == op.uid && m.gid == op.gid
    && p.calls[t].began <= m.stamp <= p.clock
    && (forall x | x in p.queue :: x.stamp <= m.stamp)
    && p' == Finish(p, t, p.queue + [m], Result(Ok(|op.data|), []))
  }

  /** A read removes the oldest message if it may; a failed copy to the user still consumes it. */
  ghost predicate DequeueStep(lim: Fifo.Limits, p: Pipe, t: Tid, m: Msg, copied: bool, p': Pipe)
    requires t in p.calls && p.calls[t].Pending?
  {
    var op := p.calls[t].op;
    && op.Read? && op.count <= lim.dataSize
    && p.queue != [] && m == p.queue[0]
    && (op.uid == 0 || op.uid == m.uid || op.gid == m.gid)
    && |m.payload| <= op.count
    && p' == Finish(p, t, p.queue[1..],
                    if copied then Result(Ok(|m.payload|), Padded(m.payload, op.count))
                    else Failed(EFAULT))
  }

  /** A cleanup removes exactly the messages stamped before the call began. */
  ghost predicate ExpireStep(p: Pipe, t: Tid, dropped: seq<Msg>, p': Pipe)
    requires t in p.calls && p.calls[t].Pending?
  {
    var now := p.calls[t].began;
    && p.calls[t].op.Cleanup?
    && dropped + Fifo.Fresh(p.queue, now) == p.queue
    && (forall m | m in dropped :: m.stamp < now)
    && p' == Finish(p, t, Fifo.Fresh(p.queue, now), Result(Ok(0), []))
  }

  /** A read is refused only for the sake of the oldest message's owner. */
  ghost predicate RefuseStep(lim: Fifo.Limits, p: Pipe, t: Tid, p': Pipe)
    requires t in p.calls && p.calls[t].Pending?
  {
    var op := p.calls[t].op;
    && op.Read? && op.count <= lim.dataSize
    && p.queue != [] && op.uid != 0 && op.uid != p.queue[0].uid && op.gid != p.queue[0].gid
    && p' == Finish(p, t, p.queue, Failed(EACCES))
  }

  ghost predicate WouldBlockStep(lim: Fifo.Limits, p: Pipe, t: Tid, p': Pipe)
    requires t in p.calls && p.calls[t].Pending?
  {
    var op := p.calls[t].op;
    && !op.Cleanup? && op.nonblock
    && (if op.Write? then |op.data| <= lim.dataSize && |p.queue| == lim.capacity
        else op.count <= lim.dataSize && p.queue == [])
    && p' == Finish(p, t, p.queue, Failed(EAGAIN))
  }

  /** Failures that leave the queue alone: oversized request, no memory, signal, unreadable user data. */
  ghost predicate AbortStep(lim: Fifo.Limits, p: Pipe, t: Tid, e: Errno, p': Pipe)
    requires t in p.calls && p.calls[t].Pending?
  {
    var op := p.calls[t].op;
    && (e == EINVAL || e == ENOMEM || e == ERESTARTSYS || e == EFAULT)
    && (e == EINVAL ==> (op.Write? && |op.data| > lim.dataSize) || (op.Read? && op.count > lim.dataSize))
    && (e == ENOMEM ==> !op.Cleanup?)
    && (e == EFAULT ==> op.Write? && |op.data| <= lim.dataSize && |p.queue| < lim.capacity)
    && p' == Finish(p, t, p.queue, Failed(e))
  }

  ghost predicate Start(p: Pipe) {
    p.queue == [] && p.calls == map[]
  }

  ghost predicate StepAt(lim: Fifo.Limits, ps: seq<Pipe>, ls: seq<Label>, i: nat)
    requires i < |ls| < |ps|
  {
    Step(lim, ps[i], ls[i], ps[i + 1])
  }

  ghost predicate IsRun(lim: Fifo.Limits, ps: seq<Pipe>, ls: seq<Label>) {
    && |ps| == |ls| + 1
    && Start(ps[0])
    && forall i {:trigger StepAt(lim, ps, ls, i)} | 0 <= i < |ls| :: StepAt(lim, ps, ls, i)
  }
}
