/** Optional values, results with an error, and the exceptions thrown, as used across the model. */
module Wrappers {

  /** A value that may be missing (`undefined` in the original). */
  datatype Option<+T> = None | Some(value: T)

  /** The outcome of an operation that may throw. */
  datatype Result<+T, +E> = Success(value: T) | Failure(error: E)

  /** The JavaScript exceptions the modelled code can throw. */
  datatype Error =
    | TypeError                  // a property or method read on `undefined`
    | AssertionError(message: string)
}
