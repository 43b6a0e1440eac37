/** Option and Result values for the source's `None` and its exceptions. */
module Wrappers {

  /** Python's `None` or a present value. */
  datatype Option<+T> = None | Some(value: T)

  /** A value, or the exception that aborts the computation. */
  datatype Result<+T, +E> = Ok(value: T) | Err(error: E)
}
