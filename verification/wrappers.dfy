/** Optional values, and results of operations that may throw, for modelling JavaScript code. */
module Wrappers {

  /** A value that may be absent, as a JavaScript property that may be `undefined`. */
  datatype Option<+T> = None | Some(value: T)

  /** The outcome of an operation that either returns a value or throws an error. */
  datatype Result<+R, +E> = Success(value: R) | Failure(error: E) {

    /** True if the operation threw. */
    predicate IsFailure() {
      Failure?
    }
  }
}
