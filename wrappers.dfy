/** Failure-carrying results shared by the modules of this project. */
module Wrappers {

  /** A value that may be absent: a JavaScript property that is `undefined`. */
  datatype Option<T> = None | Some(value: T)

  /** A value, or the error that an early `return` reports instead. */
  datatype Result<T, E> = Ok(value: T) | Err(error: E)
}
