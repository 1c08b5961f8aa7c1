/** Option and Result types shared by every module of the model. */
module Wrappers {

  datatype Option<+T> = None | Some(value: T)

  /** The outcome of an operation of the converter that can fail. */
  datatype Result<+T, +E> = Ok(value: T) | Err(error: E)
}
