/** Optional values and failure-carrying results shared by the model. */
module Results {

  /** A value that may be absent: a missing JSON field, an empty storage entry. */
  datatype Option<+T> = None | Some(value: T)

  /** The outcome of a call that either returns a value or throws an error with a message. */
  datatype Result<+T, +E> = Ok(value: T) | Err(error: E)
}
