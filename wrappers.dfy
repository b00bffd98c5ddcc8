/** Optional values and success/failure results, standing for JavaScript's
    `undefined`/`null` fields and for rejected promises (thrown errors). */
module Wrappers {

  datatype Option<+T> = None | Some(value: T)

  /** The result of an operation that yields a value or throws. */
  datatype Result<+R, +E> = Success(value: R) | Failure(error: E)

  /** The result of an operation that yields nothing (`Promise<void>`) or throws. */
  datatype Outcome<+E> = Pass | Fail(error: E)
}
