/** Option and Result, used for JavaScript's `undefined`/NaN and for the validator's verdict. */
module Wrappers {

  datatype Option<+T> = None | Some(value: T)

  datatype Result<+R, +E> = Success(value: R) | Failure(error: E)
}
