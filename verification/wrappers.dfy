/** Failure-compatible wrappers shared by every decoder of the model.
    `Result` can be used with `:-`, so a decoder reads like the source's
    chain of continuations: each step either yields its value or stops the
    whole decode with the error that stopped it. */
module Wrappers {

  /** An optional value; `None` stands for the source's `null`/`undefined`. */
  datatype Option<+T> = None | Some(value: T)

  /** Either a decoded value or the error that ended decoding. */
  datatype Result<+T, +E> = Success(value: T) | Failure(error: E) {

    predicate IsFailure() {
      Failure?
    }

    function PropagateFailure<U>(): Result<U, E>
      requires Failure?
    {
      Failure(error)
    }

    function Extract(): T
      requires Success?
    {
      value
    }
  }
}
