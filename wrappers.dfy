/** Optional values and results with an error, standing in for Java's
    `Optional` and for methods that either return or throw. */
module Wrappers {

  datatype Option<+T> = None | Some(value: T)

  datatype Result<+T, +E> = Ok(value: T) | Err(error: E)

  /** The outcome of a Java `void` method that may throw: it returned
      normally, or it threw the given error. */
  datatype Outcome<+E> = Pass | Fail(error: E)
}
