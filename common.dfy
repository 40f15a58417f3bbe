/** Option and Result: the error paths of the modelled Go code (panics and
    missing values) are returned as values instead of being excluded. */
module Common {

  datatype Option<+T> = None | Some(value: T)

  datatype Result<+T, +E> = Ok(value: T) | Err(error: E)
}
