/** Option and Result, the two standard Rust enums the scanner's signatures use. */
module Wrappers {

  datatype Option<T> = None | Some(value: T)

  datatype Result<T, E> = Ok(value: T) | Err(error: E)
}
