/** Option and Result, used for the source's `Option`, `Result` and for panics
    that depend on data the program does not control. */
module Wrappers {

  datatype Option<+T> = None | Some(value: T)

  datatype Result<+T, +E> = Ok(value: T) | Err(error: E)
}
