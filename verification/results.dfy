/** Optional values and results with an error, used where the parser can
    find nothing (Python's None) or fail (a raised exception). */
module Results {

  /** A value that may be absent; `None` plays the part of Python's None. */
  datatype Option<T> = None | Some(value: T)

  /** The outcome of an operation that can fail with an error of type E. */
  datatype Result<T, E> = Ok(value: T) | Err(error: E)
}
