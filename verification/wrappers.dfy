/** Option and Result values: Python's `None` and a raised exception, as data. */
module Wrappers {

  datatype Option<+T> = None | Some(value: T)

  /** The outcome of a call that may raise; usable with `:-`. */
  datatype Result<+T, +E> = Ok(value: T) | Err(error: E) {
    predicate IsFailure() { Err? }

    function PropagateFailure<U>(): Result<U, E>
      requires Err?
    {
      Err(error)
    }

    function Extract(): T
      requires Ok?
    {
      value
    }
  }
}
