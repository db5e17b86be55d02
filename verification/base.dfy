/** Optional values and results with an error, used wherever the source returns
    `null`/`undefined` or throws. */
module Base {

  datatype Option<T> = None | Some(value: T)

  datatype Result<T, E> = Ok(value: T) | Err(error: E)
}
