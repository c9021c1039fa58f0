/** Option and Result values for the installer's fallible steps. */
module Wrappers {

  datatype Option<+T> = None | Some(value: T)

  /** The outcome of a step that either yields a value or fails with an error. */
  datatype Result<+R, +E> = Ok(value: R) | Err(error: E)
}
