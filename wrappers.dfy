/** Optional values and error-carrying results, standing in for Java's null
    references and exceptions. */
module Wrappers {

  /** A value that may be absent; `None` plays the part of a Java `null`. */
  datatype Option<+T> = None | Some(value: T)

  /** The value of a call that either returns normally or throws. */
  datatype Result<+R, +E> = Ok(value: R) | Err(error: E)

  /** The outcome of a `void` call that either completes or throws. */
  datatype Outcome<+E> = Pass | Fail(error: E)
}
