/** Option and error-carrying result types shared by the whole model. */
module Results {

  /** A value that may be absent: Python's `None`, or pandas' missing value. */
  datatype Option<+T> = None | Some(value: T)

  /** The outcome of an operation that may raise or exit. A Python exception
      or `sys.exit(1)` is modelled as `Err`, carrying a short reason. */
  datatype Result<+T> = Ok(value: T) | Err(reason: string) {

    predicate IsFailure() {
      Err?
    }

    function PropagateFailure<U>(): Result<U>
      requires Err?
    {
      Err(reason)
    }

    function Extract(): T
      requires Ok?
    {
      value
    }
  }
}
