/** The one runtime failure of the analysis that escapes `main`, and a
    failure-compatible Result type for the operations that can raise it. */
module Results {

  /** An exception that no `catch` clause of `main` handles, so it ends the run. */
  datatype Crash = IndexOutOfBounds(index: int)

  datatype Result<+T> = Success(value: T) | Failure(error: Crash) {

    predicate IsFailure() {
      Failure?
    }

    function PropagateFailure<U>(): Result<U>
      requires Failure?
    {
      Failure(error)
    }

    function Extract(): T
      requires Success?
    {
      value
    }
  }
}
