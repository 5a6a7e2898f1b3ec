/** Failure-carrying results: the Python code raises exceptions, the model returns them. */
module Wrappers {

  datatype Result<+T, +E> = Success(value: T) | Failure(error: E)

}
