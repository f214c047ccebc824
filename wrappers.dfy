/** Optional values and results, used wherever the source has `null`,
    `undefined` or a thrown exception. */
module Wrappers {

  datatype Option<+T> = None | Some(value: T)

  /** The outcome of a call that may throw: the value it returns, or the
      value it raises. */
  datatype Result<+R, +E> = Success(value: R) | Failure(error: E)
}
