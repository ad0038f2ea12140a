/** Option and Result.  Result is failure-compatible and carries the
    program's unwrap-or-abort steps with `:-`; an Option converts to it with
    `ToResult`. */
module Wrappers {

  datatype Option<+T> = None | Some(value: T) {

    /** The error value to report when this is None (Rust's `ok_or`). */
    function ToResult<E>(error: E): Result<T, E> {
      match this
      case Some(v) => Ok(v)
      case None => Err(error)
    }
  }

  datatype Result<+T, +E> = Ok(value: T) | Err(error: E) {

    predicate IsFailure() {
      Err?
    }

    function PropagateFailure<U>(): Result<U, E>
      requires Err?
    {
      Err(error)
    }

    function Extract(): T
      requires Ok?
    {
      value
    }
  }
}
