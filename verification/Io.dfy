/**
  The environment of both event loops. Every operating-system call returns a result that the
  caller of the model supplies: a read or write loop consumes a finite script of such results,
  and a script that runs out behaves like a call that would block.
 */
module Io {
  import opened Bytes

  datatype Kind =
    | NotFound | ConnectionRefused | ConnectionAborted | ConnectionReset | BrokenPipe
    | UnexpectedEof | AlreadyExists | PermissionDenied | InvalidData | InvalidInput
    | WriteZero | WouldBlock | Other

  /** `Os` errors come from a system call, `Afk` errors are constructed by the program itself. */
  datatype IoError = Os(kind: Kind) | Afk(kind: Kind)

  type IoResult<T> = Result<T, IoError>
  datatype Status = Done | Failed(error: IoError)

  /**
    One `read` call. `Data(offered)` delivers as much of `offered` as the buffer takes, and
    delivering nothing is end of file. `Eio` is raw OS error 5, which a PTY master reports
    once its last slave is closed.
   */
  datatype ReadResult =
    | Data(offered: seq<Byte>)
    | ReadWouldBlock
    | ReadInterrupted
    | ReadEio
    | ReadFailed(kind: Kind)

  /**
    One `write` call on a deque that holds its bytes in two slices, the first `split` bytes
    long. `Accepted(n)` takes up to `n` bytes of the slice that is offered.
   */
  datatype WriteResult =
    | Accepted(count: nat, split: nat)
    | WriteWouldBlock
    | WriteInterrupted
    | WriteFailed(kind: Kind)
}
