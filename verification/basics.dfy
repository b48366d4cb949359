/** Small wrapper types shared by every module of the model. */
module Basics {

  /** An optional value: PHP's "not set" next to a set value. */
  datatype Option<+T> = None | Some(value: T)

  /** Success with a value, or the exception that ended the call. */
  datatype Result<+T, +E> = Ok(value: T) | Err(error: E)
}
