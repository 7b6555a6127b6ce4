/** Failure-compatible wrappers shared by the other modules. */
module Wrappers {

  /** An optional value; `None` stands for Java's `null`. */
  datatype Option<+T> = None | Some(value: T)

  /** The outcome of an operation that may throw: a value or the exception. */
  datatype Result<+T, +E> = Ok(value: T) | Err(error: E)
}
