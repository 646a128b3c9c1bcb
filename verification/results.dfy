/** Java's two ways of not returning a plain value, as data: a nullable
    reference becomes an `Option`, and a call that either returns or
    throws becomes a `Result`. */
module Results {

  /** A Java reference that may be null. */
  datatype Option<+T> = None | Some(value: T)

  /** Either the returned value or the exception the call throws. */
  datatype Result<+R, +E> = Success(value: R) | Failure(error: E)
}
