/** Failure-carrying result types used in place of the source's nulls and exceptions. */
module Wrappers {

  /** A value that may be absent; stands for a nullable reference or value. */
  datatype Option<+T> = None | Some(value: T)

  /** The outcome of an operation that either yields a value or fails with an error. */
  datatype Result<+T, +E> = Ok(value: T) | Err(error: E)
}
