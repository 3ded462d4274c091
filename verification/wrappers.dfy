/** Failure-carrying return types shared by the model. */
module Wrappers {

  /** Rust's `Option<T>`. */
  datatype Option<+T> = None | Some(value: T)

  /**
   * Rust's `Result<T, ()>`: every fallible conversion of the currency codec
   * fails with the unit error, so a failure carries no payload.
   */
  datatype Result<+T> = Ok(value: T) | Err
}
