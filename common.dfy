/** Failure-carrying wrappers shared by the whole model. */
module Common {

  /** A value that may be absent: Java's `null` on a reference result. */
  datatype Option<T> = None | Some(value: T)

  /** A value or the reason it could not be produced: Java's exceptions. */
  datatype Result<T, E> = Ok(value: T) | Err(error: E)
}
