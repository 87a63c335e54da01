/** Failure-compatible wrappers used for the Java code's nulls and exceptions. */
module Wrappers {

  /** A value that may be absent: Java's `null`. */
  datatype Option<+T> = None | Some(value: T)

  /** Either a value or the exception the Java code would raise. */
  datatype Outcome<+T, +E> = Ok(value: T) | Err(error: E)
}
