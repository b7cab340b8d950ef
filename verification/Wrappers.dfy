/** Result types standing for Python's `None` and for raised exceptions. */
module Wrappers {

  datatype Option<+T> = None | Some(value: T)

  /** `Ok` is a normal return, `Err` an exception that leaves the call. */
  datatype Result<+T, +E> = Ok(value: T) | Err(error: E)
}
