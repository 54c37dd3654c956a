/** Plain `Option` and `Result` datatypes used across the model: a value that
    may be absent (the source's null) and a computation that may throw. */
module Wrappers {

  /** A value that may be absent; `None` stands for the source's null. */
  datatype Option<+T> = None | Some(value: T)

  /** The outcome of a step that either produces a value or throws. */
  datatype Result<+R, +E> = Success(value: R) | Failure(error: E)
}
