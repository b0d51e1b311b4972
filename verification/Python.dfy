/** Optional values, and results of Python code that may raise. */
module Python {

  datatype Option<+T> = None | Some(value: T)

  datatype Exception = ValueError | TypeError | KeyError | IndexError | OverflowError | RuntimeError

  datatype Result<+T> = Ok(value: T) | Raise(exception: Exception) {

    predicate IsFailure() {
      Raise?
    }

    function PropagateFailure<U>(): Result<U>
      requires Raise?
    {
      Raise(exception)
    }

    function Extract(): T
      requires Ok?
    {
      value
    }
  }
}
