/** Failure-carrying datatypes shared by every module of the model. */
module Wrappers {

  /** A value that may be absent (JavaScript `undefined` / `null`). */
  datatype Option<+T> = None | Some(value: T)

  /** The outcome of an operation that can fail with an error of type `E`
      (a thrown exception or a rejected promise in the original program). */
  datatype Result<+T, +E> = Ok(value: T) | Err(error: E)
}
