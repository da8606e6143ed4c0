/** Failure-compatible return types: the model's stand-in for Java's null and exceptions. */
module Wrappers {

  /** `None` plays the part of a Java `null`. */
  datatype Option<+T> = None | Some(value: T)

  /** A value, or the error that the source would have thrown instead. */
  datatype Result<+T, +E> = Ok(value: T) | Err(error: E)

  /** The outcome of a `void` method: it returned normally, or it threw. */
  datatype Outcome<+E> = Pass | Fail(error: E)
}
