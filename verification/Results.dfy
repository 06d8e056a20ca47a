/** Failure-carrying results used for the source's exceptions, error returns and absent values. */
module Results {

  datatype Option<+T> = None | Some(value: T)

  datatype Result<+T, +E> = Ok(value: T) | Err(error: E)
}
