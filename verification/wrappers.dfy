/** Failure-compatible wrappers shared by every module: `Option` for lookups
    that may find nothing, `Result` for operations that report an error. */
module Wrappers {

  datatype Option<+T> = None | Some(value: T) {
    predicate IsFailure() {
      None?
    }

    function PropagateFailure<U>(): Option<U>
      requires None?
    {
      None
    }

    function Extract(): T
      requires Some?
    {
      value
    }
  }

  datatype Result<+R, +E> = Success(value: R) | Failure(error: E) {
    predicate IsFailure() {
      Failure?
    }

    function PropagateFailure<U>(): Result<U, E>
      requires Failure?
    {
      Failure(error)
    }

    function Extract(): R
      requires Success?
    {
      value
    }
  }

  /** The unit value of an operation that succeeds with nothing to return. */
  datatype Unit = Unit

  /** An octet of a byte buffer (`u8`). */
  type byte = x: int | 0 <= x < 256
}
