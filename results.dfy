/** Success/failure wrappers for operations whose source raises an exception or returns nothing. */
module Results {

  /** A value, or the reason no value exists. */
  datatype Option<+T> = None | Some(value: T)

  /** Either the value an operation produced or the error it raised. */
  datatype Result<+T, +E> = Success(value: T) | Failure(error: E)
}
