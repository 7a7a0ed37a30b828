/** Tagged results used instead of the exceptions and action results of the services. */
module Common {

  datatype Option<+T> = None | Some(value: T)

  /** The outcome of a service operation: a value, or the error the source throws. */
  datatype Result<+T, +E> = Success(value: T) | Failure(error: E)
}
