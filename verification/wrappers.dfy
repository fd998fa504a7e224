/** Option and Result datatypes used for the error paths of the model. */
module Wrappers {

  /** A value that may be absent. */
  datatype Option<+T> = None | Some(value: T)

  /** Either a computed value or the error bqskit raises instead. */
  datatype Result<+T, +E> = Success(value: T) | Failure(error: E)
}
