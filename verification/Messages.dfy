/** Values shared by the ring buffer, the driver and the single-buffer device. */
module Messages {

  newtype byte = x: int | 0 <= x < 256

  datatype Option<+T> = None | Some(value: T)

  type Uid = nat
  type Gid = nat
  type Time = int

  datatype Errno =
    | EACCES | EAGAIN | EFAULT | EINVAL | EMSGSIZE
    | ENODATA | ENODEV | ENOMEM | ENOSPC | ERESTARTSYS

  /** An `ssize_t` result: a non-negative count or a negated error number. */
  datatype Status = Ok(count: nat) | Fail(error: Errno)

  /** A queued message: the bytes a reader will receive, and who wrote them when. */
  datatype Msg = Msg(payload: seq<byte>, uid: Uid, gid: Gid, stamp: Time)

  /** Root, the writing user and the writing group may read a message. */
  predicate IsValidAccess(uid: Uid, gid: Gid, ownerUid: Uid, ownerGid: Gid): (admitted: bool)
    ensures admitted <==> uid == 0 || uid == ownerUid || gid == ownerGid
  {
    if uid == 0 then true
    else if uid == ownerUid then true
    else if gid == ownerGid then true
    else false
  }

  predicate MayRead(uid: Uid, gid: Gid, m: Msg): (admitted: bool)
    ensures !admitted <==> uid != 0 && uid != m.uid && gid != m.gid
  {
    IsValidAccess(uid, gid, m.uid, m.gid)
  }

  /** A record keeps its length in 16 bits. */
  const LEN_MODULUS: nat := 0x1_0000

  function StoredLen(n: nat): (len: nat)
    ensures len <= n
    ensures len < LEN_MODULUS
    ensures len == n <==> n < LEN_MODULUS
  {
    n % LEN_MODULUS
  }

  /** The stored length forgets multiples of 65536, and nothing else. */
  lemma StoredLenWraps(k: nat, n: nat)
    requires n < 0x1_0000
    ensures StoredLen(k * 0x1_0000 + n) == n
  {
  }

  /** The part of a written block that its record's length still covers. */
  function Stored(data: seq<byte>): (kept: seq<byte>)
    ensures kept <= data
    ensures kept == data <==> |data| < LEN_MODULUS
  {
    data[..StoredLen(|data|)]
  }

  function Zeros(n: nat): (z: seq<byte>)
    ensures |z| == n
    ensures forall i | 0 <= i < n :: z[i] == 0
  {
    seq(n, _ => 0)
  }

  /** What a zeroed scratch buffer of `size` bytes holds after `payload` is copied to its front. */
  function Padded(payload: seq<byte>, size: nat): (b: seq<byte>)
    requires |payload| <= size
    ensures |b| == size
    ensures payload <= b
    ensures forall i | |payload| <= i < size :: b[i] == 0
  {
    payload + Zeros(size - |payload|)
  }
}
