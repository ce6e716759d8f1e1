/** Failure-carrying values used where the Java code returns null or throws. */
module Outcomes {

  /** A value that may be absent (a Java reference that may be null). */
  datatype Option<+T> = None | Some(value: T)

  /** Either a computed value or the exception the Java code throws instead. */
  datatype Result<+T, +E> = Success(value: T) | Failure(error: E)
}
