/** Failure-carrying datatypes shared by the model: `Option` stands for the
    source's nullable values, `Result` for an operation that either returns a
    value or throws, `Outcome` for a `void` operation that may throw. */
module Wrappers {

  /** A nullable value: `None` is C#'s `null`. */
  datatype Option<+T> = None | Some(value: T) {

    /** The value, or `default` when absent (C#'s `??`). */
    function GetOr(default: T): (r: T)
      ensures Some? ==> r == value
      ensures None? ==> r == default
    {
      match this
      case Some(v) => v
      case None => default
    }
  }

  /** Either the value an operation returned or the error it raised. */
  datatype Result<+T, +E> = Success(value: T) | Failure(error: E)

  /** The outcome of an operation that returns nothing but may raise an error. */
  datatype Outcome<+E> = Pass | Fail(error: E)
}
