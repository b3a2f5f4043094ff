/** Optional values, for Go's nil-able pointers, and results, for its "value, error" pairs. */
module Options {
  datatype Option<+T> = None | Some(value: T)

  datatype Result<+T, +E> = Ok(get: T) | Err(error: E)
}
