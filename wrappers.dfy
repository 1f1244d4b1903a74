/** Failure-compatible result types used in place of Java's null returns and exceptions. */
module Wrappers {

  /** A value or its absence (a Java reference that may be null). */
  datatype Option<+T> = None | Some(value: T)

  /** A value, or the exception a Java method throws instead of returning it. */
  datatype Result<+T, +E> = Success(value: T) | Failure(error: E)

  /** Completion of a `void` Java method: normal return or a thrown exception. */
  datatype Outcome<+E> = Pass | Fail(error: E)
}
