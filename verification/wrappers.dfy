/** Failure-carrying result types used to model JavaScript's thrown errors and
    its `null`/absent values. */
module Wrappers {

  /** A present value or nothing (JavaScript's `undefined`/`null`). */
  datatype Option<+T> = None | Some(value: T)

  /** The outcome of an async call that may reject: the resolved value, or the
      error it was rejected with. */
  datatype Result<+R, +E> = Success(value: R) | Failure(error: E)
}
