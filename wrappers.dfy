/** Optional values: Python's `None` versus a present value. */
module Wrappers {

  datatype Option<+T> = None | Some(value: T)

  /** A computation that either produced a value or raised (the error names the cause). */
  datatype Result<+T, +E> = Ok(value: T) | Err(error: E)
}
