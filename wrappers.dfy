/** Failure-compatible Option and Result types used throughout the model. */
module Wrappers {

  datatype Option<+T> = None | Some(value: T) {
    predicate IsFailure() { None? }

    function PropagateFailure<U>(): Option<U>
      requires None?
    {
      None
    }

    function Extract(): T
      requires Some?
    {
      value
    }
  }

  /** A call that either produced a value or raised an error. */
  datatype Result<+T, +E> = Ok(value: T) | Err(error: E)
}
