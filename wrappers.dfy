/** Option and Result stand for Java's null and for thrown exceptions. */
module Wrappers {

  /** A value or its absence (a Java null). */
  datatype Option<+T> = None | Some(value: T)

  /** A computed value or the exception that ended the computation. */
  datatype Result<+T, +E> = Success(value: T) | Failure(error: E)

  /** Normal completion or the exception that ended an operation that returns nothing. */
  datatype Outcome<+E> = Pass | Fail(error: E)
}
