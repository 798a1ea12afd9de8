/** Failure-carrying result values, used where the original raises an exception. */
module Wrappers {

  datatype Result<+R, +E> = Success(value: R) | Failure(error: E)
}
