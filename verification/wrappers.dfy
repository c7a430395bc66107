/** Failure-compatible wrappers shared by the whole model. */
module Wrappers {

  /** An optional value; `None` plays the part of Swift's `nil` from `try?`. */
  datatype Option<+T> = None | Some(value: T) {
    predicate IsFailure() { None? }

    function PropagateFailure<U>(): Option<U>
      requires None?
    {
      None
    }

    function Extract(): T
      requires Some?
    {
      value
    }
  }

  /** A value or the error a throwing Swift call would have thrown. */
  datatype Result<+R, +E> = Success(value: R) | Failure(error: E)

  /** The outcome of a throwing Swift call that returns nothing. */
  datatype Outcome<+E> = Pass | Fail(error: E)
}
