/** Option and Result, the failure-carrying values used across the model. */
module Results {

  datatype Option<+T> = None | Some(value: T)

  /** Either a value or the condition that aborted the computation. */
  datatype Result<+T, +E> = Ok(value: T) | Err(error: E)
}
