/** Absent-or-present values and success-or-error results, used for the
    optional fields of JSON bodies and for the controllers' error paths. */
module Wrappers {

  datatype Option<+T> = None | Some(value: T)

  datatype Result<+T, +E> = Ok(value: T) | Err(error: E)
}
