/** Results that stand for a returned value or a raised error. */
module Outcomes {

  datatype Option<+T> = None | Some(value: T)

  datatype Result<+T, +E> = Ok(value: T) | Err(error: E) {
    predicate IsFailure() {
      Err?
    }

    function PropagateFailure<U>(): Result<U, E>
      requires Err?
    {
      Err(error)
    }

    function Extract(): T
      requires Ok?
    {
      value
    }
  }

  /** A check on the way to a value: pass, or fail with this error. */
  function Check<E>(passes: bool, error: E): Result<(), E> {
    if passes then Ok(()) else Err(error)
  }
}
