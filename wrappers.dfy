/** Option and result types shared by the use cases. */
module Wrappers {

  datatype Option<+T> = None | Some(value: T)

  /** The outcome of a use case: a value, or the error the use case throws. */
  datatype Result<+T, +E> = Ok(value: T) | Err(error: E)
}
