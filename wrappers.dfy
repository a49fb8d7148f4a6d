/** Optional values and results with a failure case. */
module Wrappers {

  /** A value that may be absent (`undefined` or `null` in the game's state). */
  datatype Option<+T> = None | Some(value: T)

  /** The outcome of an operation that can throw. */
  datatype Result<+T, +E> = Ok(value: T) | Err(error: E)
}
