/** Optional values and results, used where the Python code returns `None`
    or raises. */
module Options {

  datatype Option<+T> = None | Some(value: T)

  /** A computation that either produces a value or fails with a message,
      standing for a Python exception that propagates to the caller. */
  datatype Result<+T> = Ok(value: T) | Err(message: string)
}
