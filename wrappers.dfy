/** Option and Result, the two failure-carrying datatypes the model uses. */
module Wrappers {

  datatype Option<+T> = None | Some(value: T)

  /** A value, or the error the source would have thrown or returned. */
  datatype Result<+T, +E> = Ok(value: T) | Err(failure: E)
}
