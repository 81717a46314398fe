/** Failure-carrying wrappers used by the model in place of Python exceptions. */
module Wrappers {

  /** A value that may be missing: a dictionary key that is absent, a parse that failed. */
  datatype Option<+T> = None | Some(value: T)

  /** Either a value or the reason it could not be produced. */
  datatype Result<+R, +E> = Ok(value: R) | Err(error: E)
}
