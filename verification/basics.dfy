/** Failure-carrying datatypes shared by the rest of the model. */
module Basics {

  /** A value that may be absent: an empty cache, a missing file, no matching column. */
  datatype Option<+T> = None | Some(value: T)

  /** The reply of an endpoint: a value, or the error the endpoint raises. */
  datatype Result<+T, +E> = Ok(value: T) | Fail(error: E)
}
