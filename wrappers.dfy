/** Absent values and error-carrying results, shared by every module of the model. */
module Wrappers {

  /** A value that may be missing: JavaScript's undefined/null, Python's None. */
  datatype Option<+T> = None | Some(value: T)

  /** The outcome of a request handler: a value, or the error the handler answers with. */
  datatype Result<+R, +E> = Success(value: R) | Failure(error: E)
}
