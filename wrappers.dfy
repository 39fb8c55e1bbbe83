/** Option and Result, the two failure-carrying datatypes the rest of the model uses. */
module Wrappers {

  datatype Option<+T> = None | Some(value: T)

  /** Either a value or the error (a raised exception) that replaced it. */
  datatype Result<+R, +E> = Ok(value: R) | Err(error: E)
}
