/** Option, Result and Outcome: the values that stand for JavaScript's
    `null`/`undefined`, rejected promises and thrown errors in this model. */
module Wrappers {

  datatype Option<+T> = None | Some(value: T)

  /** The settled state of a promise that yields a value: fulfilled or rejected. */
  datatype Result<+R, +E> = Success(value: R) | Failure(error: E)

  /** The settled state of a promise that yields nothing. */
  datatype Outcome<+E> = Pass | Fail(error: E)
}
