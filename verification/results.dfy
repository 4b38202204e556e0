/** Failure-carrying values used throughout the model. A Go function that
    returns `(T, error)` is modelled as a `Result<T>` whose `Err` case holds
    the exact text of the error. */
module Results {

  datatype Option<+T> = None | Some(value: T)

  datatype Result<+T> = Ok(value: T) | Err(error: string) {

    predicate IsFailure() {
      Err?
    }

    function PropagateFailure<U>(): Result<U>
      requires Err?
    {
      Err(error)
    }

    function Extract(): T
      requires Ok?
    {
      value
    }
  }
}
