/** Failure-carrying results used wherever a Python script would raise. */
module Wrappers {

  datatype Option<+T> = None | Some(value: T)

  /** Either the computed value or the error the Python code would raise. */
  datatype Result<+T, +E> = Success(value: T) | Failure(error: E) {
    predicate IsFailure() {
      Failure?
    }

    function PropagateFailure<U>(): Result<U, E>
      requires Failure?
    {
      Failure(error)
    }

    function Extract(): T
      requires Success?
    {
      value
    }
  }

  /** The Python exceptions the modelled scripts can raise on malformed input. */
  datatype PyError = IndexError | ZeroDivisionError | ValueError

  /** What a script did before it stopped, and the exception that stopped it,
      if one did: the steps already taken are not undone. */
  datatype Outcome<+S> = Outcome(steps: seq<S>, error: Option<PyError>)
}
