/** Failure-carrying wrappers shared by the model. */
module Results {

  /** A value that may be absent: PHP's `null` result of a lookup. */
  datatype Option<+T> = None | Some(value: T)

  /** Either a value or the error a PHP exception would have carried. */
  datatype Result<+T, +E> = Ok(value: T) | Err(error: E)
}
