/** Option and Result datatypes shared by the two context modules. */
module Wrappers {

  /** A value that may be absent; here, a context value that may lack a provider. */
  datatype Option<+T> = None | Some(value: T)

  /** The outcome of an operation that may throw: a value or an error message. */
  datatype Result<+R, +E> = Success(value: R) | Failure(error: E)
}
