/** Optional values and outcomes: a Python `None` and a Python exception. */
module Results {

  datatype Option<+T> = None | Some(value: T)

  /** An operation's value, or the kind of exception it raised. */
  datatype Result<+T, +E> = Ok(value: T) | Err(error: E) {

    predicate IsFailure() {
      Err?
    }

    function PropagateFailure<U>(): Result<U, E>
      requires Err?
    {
      Err(error)
    }

    function Extract(): T
      requires Ok?
    {
      value
    }
  }
}
