/** Optional values and error-carrying results shared by the other modules. */
module Results {

  /** Python's `None` or a present value. */
  datatype Option<+T> = None | Some(value: T)

  /** A returned value, or the exception the operation raises instead. */
  datatype Result<+T, +E> = Ok(value: T) | Err(error: E)
}
