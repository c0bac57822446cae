/** Outcomes of the codec's steps. A read or a write either yields its value or stops
    at the first error; `:-` passes that error on unchanged. */
module Results {

  /** A value that may be absent: a cell that is not of the expected type, a date a show
      has not been given. */
  datatype Option<T> = None | Some(value: T)

  /** A value, or the error that stopped the step producing it. */
  datatype Result<T, E> = Success(value: T) | Failure(error: E) {

    /** The step stopped: `:-` returns this error from the enclosing function. */
    predicate IsFailure() {
      Failure?
    }

    /** The same error, as the outcome of the enclosing function. */
    function PropagateFailure<U>(): (r: Result<U, E>)
      requires Failure?
      ensures r.Failure? && r.error == error
    {
      Failure(error)
    }

    /** The value `:-` binds when the step succeeded. */
    function Extract(): (v: T)
      requires Success?
      ensures this == Success(v)
    {
      value
    }
  }
}
