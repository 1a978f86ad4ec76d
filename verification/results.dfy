/** Failure-carrying datatypes shared by the Codabar modules. */
module Results {

  /** A value that may be missing (PHP's null). */
  datatype Option<+T> = None | Some(value: T)

  /** Either a computed value or the error that stopped the computation. */
  datatype Result<+T, +E> = Ok(value: T) | Err(error: E)
}
