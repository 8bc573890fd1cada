/** Failure-carrying datatypes shared by the model. */
module Wrappers {

  /** A value that may be absent (Python's `None`). */
  datatype Option<T> = None | Some(value: T)

  /** Either a value or the exception the Python code raises instead. */
  datatype Result<T, E> = Ok(value: T) | Err(error: E)
}
