/** Java's nullable references and thrown exceptions, as values. */
module Wrappers {

  /** A reference that may be null. */
  datatype Option<+T> = None | Some(value: T)

  /** The outcome of a call that returns a value or throws. */
  datatype Result<+R, +E> = Success(value: R) | Failure(error: E)

  /** The outcome of a `void` call that returns normally or throws. */
  datatype Outcome<+E> = Pass | Fail(error: E)
}
