/** Failure-compatible wrappers: a missing value (pandas NaN, Python None) and an error result. */
module Wrappers {

  datatype Option<+T> = None | Some(value: T)

  datatype Result<+R, +E> = Ok(value: R) | Err(error: E)
}
