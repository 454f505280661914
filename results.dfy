/** Failure-carrying results for the operations of the engine that throw or return an error. */
module Results {

  datatype Option<+T> = None | Some(value: T)

  /** Success carries the value; Failure carries what the source throws or returns as an error. */
  datatype Result<+T, +E> = Success(value: T) | Failure(error: E)
}
