/** Optional values and results with an error, as used throughout the model. */
module Wrappers {

  /**
   * A value that may be absent. For the reset fields and the presented reset code,
   * `None` means the field is missing (`undefined`), not a JSON `null`.
   */
  datatype Option<+T> = None | Some(value: T)

  /** The outcome of an operation that yields a value or fails with an error. */
  datatype Result<+T, +E> = Ok(value: T) | Err(error: E)
}
