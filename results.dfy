/** The error of the core and the wrappers that carry it. */
module Results {

  /** The one error of the core: fnv1a32 panics with "Unsupported key type". */
  datatype Error = UnsupportedKeyType

  /** The outcome of an operation that panics on an unsupported key. */
  datatype Result<T> = Ok(value: T) | Panic(error: Error)

  /** A value that may be absent: the `(value, ok)` pair of a Go lookup. */
  datatype Option<T> = None | Some(value: T)
}
