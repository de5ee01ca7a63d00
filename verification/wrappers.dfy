/** Failure-carrying result types shared by the user model. */
module Wrappers {

  /** A value that may be absent, as a `findOne` lookup that finds nothing. */
  datatype Option<+T> = None | Some(value: T)

  /** The outcome of a static method of the user model: the returned document, or the
      message of the error it throws. */
  datatype Result<+T, +E> = Ok(value: T) | Err(error: E)
}
