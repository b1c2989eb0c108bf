/** The return value of an operation that can fail. */
module Wrappers {

  /** Either a value or the reason it could not be computed. */
  datatype Result<+R, +E> = Success(value: R) | Failure(error: E)
}
