/** Optional values and success-or-error results, used where the Java code
    returns null or throws. */
module Results {

  /** A value that may be absent (Java's `null`). */
  datatype Option<+T> = None | Some(value: T)

  /** The outcome of an operation that either succeeds with a value or fails
      with an error (a thrown exception in the Java code). */
  datatype Result<+T, +E> = Ok(value: T) | Err(error: E)
}
