/** Failure-carrying values used in place of the source's exceptions. */
module Results {

  datatype Option<+T> = None | Some(value: T)

  /** `Ok` is a normal return; `Err` is a raised exception with its payload. */
  datatype Result<+T, +E> = Ok(value: T) | Err(error: E)
}
