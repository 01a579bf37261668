/** Option and Result, for the source's `Option` and `Result`/`ApiResponse`. */
module Wrappers {

  datatype Option<+T> = None | Some(value: T)

  datatype Result<+T, +E> = Ok(value: T) | Err(error: E)
}
