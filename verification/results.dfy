/** Failure-carrying values shared by every stage of the forecast pipeline. */
module Results {

  /** A value, or the reason it could not be produced (a pandas exception in the script). */
  datatype Result<+T, +E> = Ok(value: T) | Err(error: E)

  datatype Option<+T> = None | Some(value: T)
}
