/** Optional values and success-or-failure results, used wherever the Python
    code returns None or raises an exception. */
module Results {

  /** A value that may be absent (Python's `None`). */
  datatype Option<T> = None | Some(value: T)

  /** The outcome of a computation that may raise: the value, or what was raised. */
  datatype Result<T, E> = Ok(value: T) | Err(error: E)
}
