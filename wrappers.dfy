/** Absence and failure as values, in place of Java's null, Optional and exceptions. */
module Wrappers {

  /** A value that may be absent: a nullable Java reference, or an Optional. */
  datatype Option<+T> = None | Some(value: T)

  /** The outcome of an operation that may throw instead of returning. */
  datatype Result<+T, +E> = Ok(value: T) | Err(error: E)
}
