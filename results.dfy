/** The outcome of code generation: the lines produced, or the message of the
    error that `compile` throws. Failure-compatible, so `:-` propagates it. */
module Results {

  datatype Result<T> = Ok(value: T) | Err(message: string) {

    predicate IsFailure() {
      Err?
    }

    function PropagateFailure<U>(): Result<U>
      requires Err?
    {
      Err(message)
    }

    function Extract(): T
      requires Ok?
    {
      value
    }
  }

  datatype Option<T> = None | Some(value: T)
}
