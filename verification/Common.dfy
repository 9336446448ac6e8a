/** Bytes, options, buffer sizes and the outcome of a system call, as the other modules use them. */
module Common {

  type byte = x: int | 0 <= x < 256

  datatype Option<+T> = None | Some(value: T)

  function Min(a: nat, b: nat): (m: nat)
    ensures m <= a && m <= b && (m == a || m == b)
  {
    if a < b then a else b
  }

  /**
    What a non-blocking `write` does: it takes at most `n` bytes, or would
    block, or is interrupted, or fails for good.
   */
  datatype WriteResult = Wrote(n: nat) | WriteBlocked | WriteInterrupted | WriteFailed

  /** What a non-blocking `read` does; zero bytes can only mean end of file. */
  datatype ReadResult = Got(n: nat) | ReadBlocked | ReadInterrupted | ReadFailed

  const CR: byte := 13
  const LF: byte := 10
  const SLASH: byte := 47

  /** The sizes of a request's two buffers, for output and for what the client sends. */
  const BUFFER_SIZE: nat := 8192
  const CLIENT_STREAM_SIZE: nat := 8192

  lemma Regroup<T>(a: seq<T>, b: seq<T>, c: seq<T>)
    ensures a + (b + c) == (a + b) + c
  {}
}
