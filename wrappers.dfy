/** Failure-carrying values shared by the other modules. */
module Wrappers {

  datatype Option<+T> = None | Some(value: T)

  /** A value, or the error that the page's code would throw instead of producing it. */
  datatype Result<+T, +E> = Ok(value: T) | Err(error: E)
}
