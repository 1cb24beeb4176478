/** Theorems about every run of the atomic pipe, and so about every interleaved run of the driver. */
module AtomicRuns {
  import opened Messages
  import opened Calls
  import opened AtomicPipe
  import Fifo

  // ---------------------------------------------------------------- conservation

  datatype Fate = Delivered | CopyFailed | Expired

  datatype Removal = Removal(m: Msg, fate: Fate)

  function EnteredBy(l: Label): seq<Msg> {
    if l.Enqueue? then [l.m] else []
  }

  function RemovedBy(l: Label): seq<Removal> {
    match l
    case Dequeue(_, m, copied) => [Removal(m, if copied then Delivered else CopyFailed)]
    case Expire(_, dropped) => seq(|dropped|, i requires 0 <= i < |dropped| => Removal(dropped[i], Expired))
    case _ => []
  }

  /** The messages written by the first `n` steps, in order. */
  function Entered(ls: seq<Label>, n: nat): seq<Msg>
    requires n <= |ls|
  {
    if n == 0 then [] else Entered(ls, n - 1) + EnteredBy(ls[n - 1])
  }

  /** The messages removed by the first `n` steps, in order, each with what became of it. */
  function Removed(ls: seq<Label>, n: nat): seq<Removal>
    requires n <= |ls|
  {
    if n == 0 then [] else Removed(ls, n - 1) + RemovedBy(ls[n - 1])
  }

  function MsgsOf(rs: seq<Removal>): (ms: seq<Msg>)
    ensures |ms| == |rs|
  {
    seq(|rs|, i requires 0 <= i < |rs| => rs[i].m)
  }

  lemma StepConserves(lim: Fifo.Limits, p: Pipe, l: Label, p': Pipe)
    requires Step(lim, p, l, p')
    ensures p.queue + EnteredBy(l) == MsgsOf(RemovedBy(l)) + p'.queue
  {
    if l.Dequeue? {
      assert p.queue == [p.queue[0]] + p.queue[1..];
    } else if l.Expire? {
      assert MsgsOf(RemovedBy(l)) == l.dropped;
    }
  }

  lemma MessagesOfSum(a: seq<Removal>, b: seq<Removal>)
    ensures MsgsOf(a + b) == MsgsOf(a) + MsgsOf(b)
  {
  }

  lemma Regroup(e: seq<Msg>, r: seq<Msg>, q: seq<Msg>, i: seq<Msg>, o: seq<Msg>, q': seq<Msg>)
    requires e == r + q && q + i == o + q'
    ensures e + i == (r + o) + q'
  {
    assert e + i == r + (q + i);
    assert r + (o + q') == (r + o) + q';
  }

  /** Everything written is what was removed, in order, followed by what is queued. */
  lemma {:induction false} Conservation(lim: Fifo.Limits, ps: seq<Pipe>, ls: seq<Label>, n: nat)
    requires IsRun(lim, ps, ls) && n <= |ls|
    ensures Entered(ls, n) == MsgsOf(Removed(ls, n)) + ps[n].queue
  {
    if n > 0 {
      Conservation(lim, ps, ls, n - 1);
      assert StepAt(lim, ps, ls, n - 1);
      StepConserves(lim, ps[n - 1], ls[n - 1], ps[n]);
      MessagesOfSum(Removed(ls, n - 1), RemovedBy(ls[n - 1]));
      Regroup(Entered(ls, n - 1), MsgsOf(Removed(ls, n - 1)), ps[n - 1].queue,
              EnteredBy(ls[n - 1]), MsgsOf(RemovedBy(ls[n - 1])), ps[n].queue);
    }
  }

  lemma {:induction false} EnteredGrows(ls: seq<Label>, i: nat, n: nat)
    requires i <= n <= |ls|
    ensures Entered(ls, i) <= Entered(ls, n)
  {
    if i < n {
      EnteredGrows(ls, i, n - 1);
    }
  }

  lemma {:induction false} RemovedGrows(ls: seq<Label>, i: nat, n: nat)
    requires i <= n <= |ls|
    ensures Removed(ls, i) <= Removed(ls, n)
  {
    if i < n {
      RemovedGrows(ls, i, n - 1);
    }
  }

  lemma SplitAt(whole: seq<Msg>, gone: seq<Removal>, rest: seq<Msg>, k: nat)
    requires whole == MsgsOf(gone) + rest && k < |whole|
    ensures if k < |gone| then gone[k].m == whole[k]
            else k - |gone| < |rest| && rest[k - |gone|] == whole[k]
  {
  }

  /** A message keeps the rank at which it was written. */
  lemma WriteKeepsRank(ls: seq<Label>, i: nat, n: nat)
    requires i < n <= |ls| && ls[i].Enqueue?
    ensures |Entered(ls, i)| < |Entered(ls, n)| && Entered(ls, n)[|Entered(ls, i)|] == ls[i].m
  {
    assert Entered(ls, i + 1) == Entered(ls, i) + [ls[i].m];
    EnteredGrows(ls, i + 1, n);
  }

  /** A written message is still queued in its place, or was removed in its turn. */
  lemma WriteIsAccountedFor(lim: Fifo.Limits, ps: seq<Pipe>, ls: seq<Label>, i: nat, n: nat)
    requires IsRun(lim, ps, ls) && i < n <= |ls| && ls[i].Enqueue?
    ensures var k, gone := |Entered(ls, i)|, Removed(ls, n);
      if k < |gone| then gone[k].m == ls[i].m
      else k - |gone| < |ps[n].queue| && ps[n].queue[k - |gone|] == ls[i].m
  {
    Conservation(lim, ps, ls, n);
    WriteKeepsRank(ls, i, n);
    SplitAt(Entered(ls, n), Removed(ls, n), ps[n].queue, |Entered(ls, i)|);
  }

  // ---------------------------------------------------------------- the queue in every state

  lemma {:induction false} QueueInOrder(lim: Fifo.Limits, ps: seq<Pipe>, ls: seq<Label>, n: nat)
    requires IsRun(lim, ps, ls) && n <= |ls|
    ensures Fifo.Sorted(ps[n].queue)
    ensures forall m | m in ps[n].queue :: m.stamp <= ps[n].clock
    ensures |ps[n].queue| <= lim.capacity
  {
    if n > 0 {
      QueueInOrder(lim, ps, ls, n - 1);
      assert StepAt(lim, ps, ls, n - 1);
      StepKeepsOrder(lim, ps[n - 1], ls[n - 1], ps[n]);
    }
  }

  lemma StepKeepsOrder(lim: Fifo.Limits, p: Pipe, l: Label, p': Pipe)
    requires Step(lim, p, l, p')
    requires Fifo.Sorted(p.queue) && |p.queue| <= lim.capacity
    requires forall m | m in p.queue :: m.stamp <= p.clock
    ensures Fifo.Sorted(p'.queue) && |p'.queue| <= lim.capacity
    ensures forall m | m in p'.queue :: m.stamp <= p'.clock
  {
    if l.Expire? {
      assert p'.queue == p.queue[|l.dropped|..];
    }
  }

  /** No queued message is longer than a slot, or than its 16-bit length can say. */
  ghost predicate Short(lim: Fifo.Limits, q: seq<Msg>) {
    forall m | m in q :: |m.payload| <= lim.dataSize && |m.payload| < LEN_MODULUS
  }

  lemma StepKeepsShort(lim: Fifo.Limits, p: Pipe, l: Label, p': Pipe)
    requires Step(lim, p, l, p') && Short(lim, p.queue)
    ensures Short(lim, p'.queue)
  {
    if l.Expire? {
      assert p'.queue == p.queue[|l.dropped|..];
    }
  }

  lemma {:induction false} QueueIsShort(lim: Fifo.Limits, ps: seq<Pipe>, ls: seq<Label>, n: nat)
    requires IsRun(lim, ps, ls) && n <= |ls|
    ensures Short(lim, ps[n].queue)
  {
    if n > 0 {
      QueueIsShort(lim, ps, ls, n - 1);
      assert StepAt(lim, ps, ls, n - 1);
      StepKeepsShort(lim, ps[n - 1], ls[n - 1], ps[n]);
    }
  }

  lemma {:induction false} ClockNeverGoesBack(lim: Fifo.Limits, ps: seq<Pipe>, ls: seq<Label>, i: nat, n: nat)
    requires IsRun(lim, ps, ls) && i <= n <= |ls|
    ensures ps[i].clock <= ps[n].clock
  {
    if i < n {
      ClockNeverGoesBack(lim, ps, ls, i, n - 1);
      assert StepAt(lim, ps, ls, n - 1);
    }
  }

  // ---------------------------------------------------------------- one atomic step for each call

  predicate CompletesCall(l: Label, t: Tid) {
    match l
    case Enqueue(u, _) => u == t
    case Dequeue(u, _, _) => u == t
    case Expire(u, _) => u == t
    case Refuse(u) => u == t
    case WouldBlock(u) => u == t
    case Abort(u, _) => u == t
    case _ => false
  }

  /** From step `i` on, up to and including state `n`, the call of `t` is `c`. */
  ghost predicate CallIs(ps: seq<Pipe>, t: Tid, c: Call, i: nat, n: nat) {
    n < |ps| && forall k | i < k <= n :: t in ps[k].calls && ps[k].calls[t] == c
  }

  lemma StepAndCall(lim: Fifo.Limits, p: Pipe, l: Label, p': Pipe, t: Tid)
    requires Step(lim, p, l, p') && t in p'.calls
    ensures (t in p.calls && p.calls[t] == p'.calls[t])
         || (l == Invoke(t, p'.calls[t].op) && p'.calls[t] == Pending(p'.calls[t].op, p.clock))
         || (CompletesCall(l, t) && t in p.calls && p.calls[t].Pending?
             && p'.calls[t].Done? && p'.calls[t].op == p.calls[t].op)
  {
  }

  /** A pending call began with an invocation, at which its starting time was read. */
  lemma {:induction false} PendingWasInvoked(lim: Fifo.Limits, ps: seq<Pipe>, ls: seq<Label>, n: nat, t: Tid)
    returns (a: nat)
    requires IsRun(lim, ps, ls) && n <= |ls|
    requires t in ps[n].calls && ps[n].calls[t].Pending?
    ensures a < n && ls[a] == Invoke(t, ps[n].calls[t].op)
    ensures ps[n].calls[t].began == ps[a].clock
    ensures CallIs(ps, t, ps[n].calls[t], a, n)
  {
    assert StepAt(lim, ps, ls, n - 1);
    StepAndCall(lim, ps[n - 1], ls[n - 1], ps[n], t);
    if t in ps[n - 1].calls && ps[n - 1].calls[t] == ps[n].calls[t] {
      a := PendingWasInvoked(lim, ps, ls, n - 1, t);
    } else {
      a := n - 1;
    }
  }

  /** A result was fixed by one atomic step of the same call, and has not changed since. */
  lemma {:induction false} ResultWasFixed(lim: Fifo.Limits, ps: seq<Pipe>, ls: seq<Label>, n: nat, t: Tid)
    returns (j: nat)
    requires IsRun(lim, ps, ls) && n <= |ls|
    requires t in ps[n].calls && ps[n].calls[t].Done?
    ensures j < n && CompletesCall(ls[j], t)
    ensures t in ps[j].calls && ps[j].calls[t].Pending? && ps[j].calls[t].op == ps[n].calls[t].op
    ensures CallIs(ps, t, ps[n].calls[t], j, n)
  {
    assert StepAt(lim, ps, ls, n - 1);
    StepAndCall(lim, ps[n - 1], ls[n - 1], ps[n], t);
    if t in ps[n - 1].calls && ps[n - 1].calls[t] == ps[n].calls[t] {
      j := ResultWasFixed(lim, ps, ls, n - 1, t);
    } else {
      j := n - 1;
    }
  }

  /**
   Linearizability: between its invocation `a` and its return `r`, a call has exactly one atomic
   step `j`, and returns the result that step fixed.
   */
  lemma ReturnIsLinearized(lim: Fifo.Limits, ps: seq<Pipe>, ls: seq<Label>, r: nat)
    returns (a: nat, j: nat)
    requires IsRun(lim, ps, ls) && r < |ls| && ls[r].Return?
    ensures ls[r].t in ps[r].calls && ps[r].calls[ls[r].t].Done?
    ensures a < j < r && ls[a] == Invoke(ls[r].t, ps[r].calls[ls[r].t].op)
    ensures ls[r].t in ps[j].calls
         && ps[j].calls[ls[r].t] == Pending(ps[r].calls[ls[r].t].op, ps[a].clock)
    ensures ls[r].t in ps[j + 1].calls
         && ps[j + 1].calls[ls[r].t] == Done(ps[r].calls[ls[r].t].op, ls[r].res)
    ensures forall k | a <= k < r :: CompletesCall(ls[k], ls[r].t) <==> k == j
  {
    var t := ls[r].t;
    assert StepAt(lim, ps, ls, r);
    j := ResultWasFixed(lim, ps, ls, r, t);
    a := PendingWasInvoked(lim, ps, ls, j, t);
    forall k | a <= k < r && k != j
      ensures !CompletesCall(ls[k], t)
    {
      assert StepAt(lim, ps, ls, k);
      assert t in ps[k + 1].calls;
    }
  }

  // ---------------------------------------------------------------- which write a read returns

  /** The removal at step `j` takes the message written at step `i`: they have the same rank. */
  ghost predicate Feeds(ls: seq<Label>, i: nat, j: nat) {
    && i < j < |ls|
    && ls[i].Enqueue? && ls[j].Dequeue?
    && ls[i].m == ls[j].m
    && |Entered(ls, i)| == |Removed(ls, j)|
  }

  lemma {:induction false} WriteOfRank(ls: seq<Label>, n: nat, k: nat) returns (i: nat)
    requires n <= |ls| && k < |Entered(ls, n)|
    ensures i < n && ls[i].Enqueue? && ls[i].m == Entered(ls, n)[k] && |Entered(ls, i)| == k
  {
    if k < |Entered(ls, n - 1)| {
      i := WriteOfRank(ls, n - 1, k);
    } else {
      i := n - 1;
    }
  }

  lemma EveryReadHasAWrite(lim: Fifo.Limits, ps: seq<Pipe>, ls: seq<Label>, j: nat) returns (i: nat)
    requires IsRun(lim, ps, ls) && j < |ls| && ls[j].Dequeue?
    ensures Feeds(ls, i, j)
  {
    assert StepAt(lim, ps, ls, j);
    Conservation(lim, ps, ls, j);
    var k := |Removed(ls, j)|;
    assert Entered(ls, j)[k] == ps[j].queue[0];
    i := WriteOfRank(ls, j, k);
  }

  /** Reads take writes in order, each write at most once. */
  lemma ReadsFollowWrites(ls: seq<Label>, i1: nat, j1: nat, i2: nat, j2: nat)
    requires Feeds(ls, i1, j1) && Feeds(ls, i2, j2)
    ensures i1 < i2 <==> j1 < j2
    ensures i1 == i2 <==> j1 == j2
  {
    if i1 < i2 { WritesRank(ls, i1, i2); } else if i2 < i1 { WritesRank(ls, i2, i1); }
    if j1 < j2 { ReadsRank(ls, j1, j2); } else if j2 < j1 { ReadsRank(ls, j2, j1); }
  }

  lemma WritesRank(ls: seq<Label>, i1: nat, i2: nat)
    requires i1 < i2 < |ls| && ls[i1].Enqueue?
    ensures |Entered(ls, i1)| < |Entered(ls, i2)|
  {
    EnteredGrows(ls, i1 + 1, i2);
  }

  lemma ReadsRank(ls: seq<Label>, j1: nat, j2: nat)
    requires j1 < j2 < |ls| && ls[j1].Dequeue?
    ensures |Removed(ls, j1)| < |Removed(ls, j2)|
  {
    RemovedGrows(ls, j1 + 1, j2);
  }

  /**
   End to end: a read that returns a length returns the bytes of one earlier write by an owner
   whose messages it may read, padded with zeros; `ReadsFollowWrites` says no other read took it.
   */
  lemma ReadReturnsOneWrite(lim: Fifo.Limits, ps: seq<Pipe>, ls: seq<Label>, r: nat)
    returns (i: nat, j: nat)
    requires IsRun(lim, ps, ls) && r < |ls| && ls[r].Return? && ls[r].res.status.Ok?
    requires ls[r].t in ps[r].calls && ps[r].calls[ls[r].t].op.Read?
    ensures Feeds(ls, i, j) && j < r && ls[j].t == ls[r].t && ls[j].copied
    ensures ls[i].t in ps[i].calls && ps[i].calls[ls[i].t].op.Write?
    ensures var w, op := ps[i].calls[ls[i].t].op, ps[r].calls[ls[r].t].op;
      && |w.data| <= lim.dataSize && |Stored(w.data)| <= op.count <= lim.dataSize
      && ls[r].res == Result(Ok(|Stored(w.data)|), Padded(Stored(w.data), op.count))
      && (op.uid == 0 || op.uid == w.uid || op.gid == w.gid)
  {
    var a;
    a, j := ReturnIsLinearized(lim, ps, ls, r);
    assert StepAt(lim, ps, ls, j);
    i := EveryReadHasAWrite(lim, ps, ls, j);
    assert StepAt(lim, ps, ls, i);
  }

  /** A write that returns a length returns its own, and its message entered the queue once. */
  lemma WriteReturnsItsLength(lim: Fifo.Limits, ps: seq<Pipe>, ls: seq<Label>, r: nat) returns (j: nat)
    requires IsRun(lim, ps, ls) && r < |ls| && ls[r].Return? && ls[r].res.status.Ok?
    requires ls[r].t in ps[r].calls && ps[r].calls[ls[r].t].op.Write?
    ensures j < r && ls[j].Enqueue? && ls[j].t == ls[r].t
    ensures var op := ps[r].calls[ls[r].t].op;
      ls[r].res == Result(Ok(|op.data|), []) && ls[j].m.payload == Stored(op.data)
  {
    var a;
    a, j := ReturnIsLinearized(lim, ps, ls, r);
    assert StepAt(lim, ps, ls, j);
  }

  // ---------------------------------------------------------------- cleanup

  /**
   A cleanup pass drops a message only if it was stamped before the worker read its clock, at step
   `a`, and keeps every other: a write that stamps its message later, however long before it was
   invoked, survives the pass. A write invoked later, at step `b`, stamps later.
   */
  lemma LaterWriteSurvives(lim: Fifo.Limits, ps: seq<Pipe>, ls: seq<Label>, i: nat, c: nat)
    returns (a: nat, b: nat)
    requires IsRun(lim, ps, ls) && i < c < |ls| && ls[i].Enqueue? && ls[c].Expire?
    ensures a < c && ls[a] == Invoke(ls[c].t, Cleanup)
    ensures ls[i].m in ls[c].dropped ==> ls[i].m.stamp < ps[a].clock
    ensures ls[i].m in ps[c].queue ==> (ls[i].m in ps[c + 1].queue <==> ps[a].clock <= ls[i].m.stamp)
    ensures ps[c + 1].queue == Fifo.Fresh(ps[c].queue, ps[a].clock)
    ensures b < i && ls[b].Invoke? && ls[b].t == ls[i].t
    ensures forall k | b < k < i :: !(ls[k].Invoke? && ls[k].t == ls[i].t)
    ensures a < b ==> ps[a].clock <= ls[i].m.stamp
  {
    assert StepAt(lim, ps, ls, c) && StepAt(lim, ps, ls, i);
    a := PendingWasInvoked(lim, ps, ls, c, ls[c].t);
    b := PendingWasInvoked(lim, ps, ls, i, ls[i].t);
    forall k | b < k < i
      ensures !(ls[k].Invoke? && ls[k].t == ls[i].t)
    {
      assert StepAt(lim, ps, ls, k);
    }
    Fifo.FreshKeepsExactly(ps[c].queue, ps[a].clock, ls[i].m);
    if a < b {
      ClockNeverGoesBack(lim, ps, ls, a, b);
    }
  }
}
