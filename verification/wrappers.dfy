/** The two failure-carrying datatypes the pipeline returns. */
module Wrappers {

  /** A value that may be absent. */
  datatype Option<+T> = None | Some(value: T)

  /** Either a computed value or the reason none was produced. */
  datatype Result<+T, +E> = Success(value: T) | Failure(error: E)
}
