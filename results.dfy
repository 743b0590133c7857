/** Go's `(value, error)` returns, and nil-able values, as datatypes.
    An error is carried as its message text. */
module Results {

  datatype Option<+T> = None | Some(value: T)

  datatype Result<+T> = Ok(value: T) | Err(error: string)
}
