/** Failure-carrying wrapper types shared by the whole model. */
module Wrappers {

  /** An optional value; stands for `std::optional` and for nullable pointers. */
  datatype Option<+T> = None | Some(value: T)

  /** A value or an error; stands for `std::expected` and for thrown exceptions. */
  datatype Result<+T, +E> = Ok(value: T) | Err(error: E)
}
