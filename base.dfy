/** Values shared by every module: Python's exceptions as an error datatype, a
    failure-compatible Result, Option, and bytes. */
module Base {

  /** The exceptions the core raises or lets propagate. */
  datatype Error =
    | ValueError(msg: string)
    | TypeError(msg: string)
    | KeyError(key: string)
    | AttributeError(name: string)
    | ImportError(msg: string)
    | OSError(msg: string)
    | OverflowError(msg: string)

  datatype Option<+T> = None | Some(value: T)

  /** A call that either returns a value or raises. */
  datatype Result<+T> = Ok(value: T) | Err(error: Error) {
    predicate IsFailure() { Err? }

    function PropagateFailure<U>(): Result<U>
      requires Err?
    {
      Err(error)
    }

    function Extract(): T
      requires Ok?
    {
      value
    }
  }

  type byte = x: int | 0 <= x < 256
  type Bytes = seq<byte>

  /** A SHA-256 or Keccak-256 digest: always 32 bytes. */
  type Digest = s: Bytes | |s| == 32 witness seq(32, _ => 0)
}
