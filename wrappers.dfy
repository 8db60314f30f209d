/** Failure-compatible wrappers: Python's `None` and raised exceptions become values. */
module Wrappers {

  /** An optional value: `None` stands for Python's `None`. */
  datatype Option<+T> = None | Some(value: T)

  /** The outcome of a call that may raise: `Failure` carries the exception's message. */
  datatype Result<+T, +E> = Success(value: T) | Failure(error: E)
}
