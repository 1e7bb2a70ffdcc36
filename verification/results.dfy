/** Failure-carrying wrappers used by the specification builders. */
module Results {

  /** A value that may be absent; `None` stands for a Java `null` reference. */
  datatype Option<+X> = None | Some(value: X)

  /** The outcome of an operation that either builds a value or reports an error. */
  datatype Result<+X, +Err> = Success(value: X) | Failure(error: Err)
}
