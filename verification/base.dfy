/** Optional values and failure-carrying results shared by every module of the model. */
module Base {

  /** A value that may be absent: an unset form field, a missing document, a NULL column. */
  datatype Option<+T> = None | Some(value: T)

  /** The outcome of a store operation that can fail. */
  datatype Result<+R, +E> = Ok(value: R) | Err(error: E)
}
