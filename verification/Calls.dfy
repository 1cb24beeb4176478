/** The calls that processes and the work queue make on a pipe device. */
module Calls {
  import opened Messages

  type Tid = nat

  /** One `write`, one `read`, or one run of the periodic cleanup worker. */
  datatype Op =
    | Write(data: seq<byte>, uid: Uid, gid: Gid, nonblock: bool)
    | Read(count: nat, uid: Uid, gid: Gid, nonblock: bool)
    | Cleanup

  /** A return value, and for a read the contents of the user's buffer. */
  datatype Result = Result(status: Status, bytes: seq<byte>)

  function Failed(e: Errno): Result {
    Result(Fail(e), [])
  }
}
