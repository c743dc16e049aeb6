/** Option and Result, the two failure-carrying types the compiler's Rust code uses. */
module Wrappers {

  datatype Option<+T> = None | Some(value: T)

  /** `Result<T, String>` of the source: an error is a human-readable message. */
  datatype Result<+T> = Ok(value: T) | Err(error: string)
}
