/** Small failure-carrying datatypes shared by the validation model. */
module Wrappers {

  /** A value that may be absent (PHP's null). */
  datatype Option<+T> = None | Some(value: T)

  /** The outcome of an operation that either succeeds with a value or
      fails with an error that propagates to the caller. */
  datatype Result<+T, +E> = Ok(value: T) | Err(error: E)
}
