/** Wrappers shared by the model: an optional value, a value-or-error
    result, and a pass/fail outcome of an operation that returns nothing. */
module Wrappers {

  datatype Option<+T> = None | Some(value: T)

  datatype Result<+T, +E> = Ok(value: T) | Err(error: E)

  datatype Outcome<+E> = Pass | Fail(error: E)
}
