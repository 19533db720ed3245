/** Optional values and error returns shared by every module of the model. */
module Outcomes {

  datatype Option<+T> = None | Some(value: T)

  /** A service call either returns a value or raises, and a raise rolls the transaction back. */
  datatype Result<+T, +E> = Ok(value: T) | Err(error: E) {
    predicate IsFailure() {
      Err?
    }

    function PropagateFailure<U>(): Result<U, E>
      requires Err?
    {
      Err(error)
    }

    function Extract(): T
      requires Ok?
    {
      value
    }
  }
}
