/** Success/failure wrappers used in place of JavaScript's `undefined`, `NaN` and thrown errors. */
module Wrappers {

  /** `None` stands for a value JavaScript reports as `undefined` or `NaN`. */
  datatype Option<+T> = None | Some(value: T)

  /** A computation that either returns a value or throws an error. */
  datatype Result<+R, +E> = Success(value: R) | Failure(error: E) {
    predicate IsFailure() { Failure? }

    function PropagateFailure<U>(): Result<U, E>
      requires Failure?
    {
      Failure(error)
    }

    function Extract(): R
      requires Success?
    {
      value
    }
  }
}
