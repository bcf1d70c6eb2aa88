/** Types shared by every part of the file-store model: bytes, the
    Success/Failure wrapper that stands for Python's exceptions, and the
    operating-system errors the core raises or inspects. */
module Base {

  newtype byte = x: int | 0 <= x < 256

  type Bytes = seq<byte>

  datatype Option<+T> = None | Some(value: T)

  /** A call that either returns `value` or raises `error`. */
  datatype Result<+T, +E> = Success(value: T) | Failure(error: E)

  /** Python's `OSError`, identified by its `errno`. */
  datatype OSError = OSError(errno: nat)

  // Linux errno values used by the core and by the operating-system model.
  const EPERM: nat := 1
  const ENOENT: nat := 2
  const ESRCH: nat := 3
  const EEXIST: nat := 17
  const EISDIR: nat := 21

  /** Total number of bytes in a sequence of chunks. */
  function TotalLength(chunks: seq<Bytes>): nat
  {
    if chunks == [] then 0 else TotalLength(chunks[..|chunks| - 1]) + |chunks[|chunks| - 1]|
  }

  /** The chunks laid end to end, with nothing between them. */
  function Concat(chunks: seq<Bytes>): Bytes
  {
    if chunks == [] then [] else Concat(chunks[..|chunks| - 1]) + chunks[|chunks| - 1]
  }

  /** Counting the bytes chunk by chunk gives the length of the concatenation. */
  lemma {:induction false} LengthOfConcat(chunks: seq<Bytes>)
    ensures |Concat(chunks)| == TotalLength(chunks)
  {
    if chunks != [] {
      LengthOfConcat(chunks[..|chunks| - 1]);
    }
  }

  /** The byte count does not depend on how the bytes were cut into chunks. */
  lemma SizeIndependentOfChunking(a: seq<Bytes>, b: seq<Bytes>)
    requires Concat(a) == Concat(b)
    ensures TotalLength(a) == TotalLength(b)
  {
    LengthOfConcat(a);
    LengthOfConcat(b);
  }
}
