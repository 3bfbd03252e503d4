/** The outcome of a call that may fail. */
module Results {
  datatype Result<+T, +E> = Success(value: T) | Failure(error: E)
}
