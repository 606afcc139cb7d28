/** Option and Result values shared by every module of the model. */
module Wrappers {

  datatype Option<+T> = None | Some(value: T)

  /** An operation that either produced a value or raised an exception. */
  datatype Result<+T> = Ok(value: T) | Raised(error: string)
}
