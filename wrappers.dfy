/** Failure-carrying values shared by the other modules. */
module Wrappers {

  datatype Option<+T> = None | Some(value: T)

  /** The outcome of an operation that either produces a value or fails
      with an error the caller can see. */
  datatype Result<+T, +E> = Ok(value: T) | Err(error: E)
}
