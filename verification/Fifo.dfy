/**
 The queue a pipe behaves as: a sequence of messages, oldest first, bounded in number and in
 the size of each message.
 */
module Fifo {
  import opened Messages

  datatype Limits = Limits(capacity: nat, dataSize: nat)

  datatype Cmd =
    | Push(data: seq<byte>, uid: Uid, gid: Gid, stamp: Time)
    | Pop(uid: Uid, gid: Gid)
    | Count
    | Expire(now: Time)
    | Clear

  /** What a caller of one operation sees. */
  datatype Reply = Reply(status: Status, bytes: seq<byte>)

  ghost predicate Sorted(q: seq<Msg>) {
    forall i, j | 0 <= i < j < |q| :: q[i].stamp <= q[j].stamp
  }

  /** The length of the longest prefix of messages stamped strictly before `now`. */
  function ExpiredPrefix(q: seq<Msg>, now: Time): (n: nat)
    ensures n <= |q|
    ensures forall k | 0 <= k < n :: q[k].stamp < now
    ensures n < |q| ==> now <= q[n].stamp
  {
    if q == [] || now <= q[0].stamp then 0 else 1 + ExpiredPrefix(q[1..], now)
  }

  /** The messages of `q` that satisfy `stamp >= now`, in order. */
  function Fresh(q: seq<Msg>, now: Time): seq<Msg> {
    if q == [] then []
    else if q[0].stamp < now then Fresh(q[1..], now)
    else [q[0]] + Fresh(q[1..], now)
  }

  /** `Fresh` keeps a message exactly when its stamp says so. */
  lemma {:induction false} FreshKeepsExactly(q: seq<Msg>, now: Time, m: Msg)
    ensures m in Fresh(q, now) <==> m in q && now <= m.stamp
  {
    if q != [] {
      FreshKeepsExactly(q[1..], now, m);
      assert m in q <==> m == q[0] || m in q[1..];
    }
  }

  lemma {:induction false} FreshOfAllFresh(q: seq<Msg>, now: Time)
    requires forall m | m in q :: now <= m.stamp
    ensures Fresh(q, now) == q
  {
    if q != [] {
      FreshOfAllFresh(q[1..], now);
    }
  }

  lemma {:induction false} FreshAfterExpired(d: seq<Msg>, q: seq<Msg>, now: Time)
    requires forall m | m in d :: m.stamp < now
    requires forall m | m in q :: now <= m.stamp
    ensures Fresh(d + q, now) == q
  {
    if d == [] {
      assert d + q == q;
      FreshOfAllFresh(q, now);
    } else {
      assert (d + q)[1..] == d[1..] + q;
      FreshAfterExpired(d[1..], q, now);
    }
  }

  /** On a queue sorted by time, dropping the expired prefix drops every expired message. */
  lemma {:induction false} PrefixDropIsFilter(q: seq<Msg>, now: Time)
    requires Sorted(q)
    ensures q[ExpiredPrefix(q, now)..] == Fresh(q, now)
  {
    if q != [] {
      if q[0].stamp < now {
        PrefixDropIsFilter(q[1..], now);
        assert q[1..][ExpiredPrefix(q[1..], now)..] == q[ExpiredPrefix(q, now)..];
      } else {
        FreshOfAllFresh(q, now);
      }
    }
  }

  /** The effect and the reply of one operation. */
  function Apply(lim: Limits, q: seq<Msg>, cmd: Cmd): (r: (seq<Msg>, Reply)) {
    match cmd
    case Push(data, uid, gid, stamp) =>
      if |data| > lim.dataSize then (q, Reply(Fail(EMSGSIZE), []))
      else if |q| >= lim.capacity then (q, Reply(Fail(ENOSPC), []))
      else (q + [Msg(Stored(data), uid, gid, stamp)], Reply(Ok(|data|), []))
    case Pop(uid, gid) =>
      if q == [] then (q, Reply(Fail(ENODATA), []))
      else if !MayRead(uid, gid, q[0]) then (q, Reply(Fail(EACCES), []))
      else (q[1..], Reply(Ok(|q[0].payload|), q[0].payload))
    case Count => (q, Reply(Ok(|q|), []))
    case Expire(now) =>
      var n := ExpiredPrefix(q, now);
      (q[n..], Reply(Ok(n), []))
    case Clear => ([], Reply(Ok(|q|), []))
  }

  function Run(lim: Limits, q: seq<Msg>, cmds: seq<Cmd>): (seq<Msg>, seq<Reply>)
    decreases |cmds|
  {
    if cmds == [] then (q, [])
    else
      var (q1, reply) := Apply(lim, q, cmds[0]);
      var (q2, replies) := Run(lim, q1, cmds[1..]);
      (q2, [reply] + replies)
  }
}
