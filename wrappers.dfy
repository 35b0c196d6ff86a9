/** Option and Result, the two failure-carrying value types the model uses:
    `undefined`-or-a-value in TypeScript becomes Option, and a call that may
    throw (the YAML parser) becomes Result. */
module Wrappers {

  datatype Option<+T> = None | Some(value: T)

  datatype Result<+R, +E> = Success(value: R) | Failure(error: E)
}
