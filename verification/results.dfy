/** Failure-compatible wrappers shared by the whole model. */
module Results {

  /** A value that may be absent: a hit that did not happen, a buffer not yet loaded. */
  datatype Option<+T> = None | Some(value: T)

  /** The outcome of a computation that may throw, as CheckerTextureUV.value does. */
  datatype Result<+T> = Ok(value: T) | Error(msg: string) {

    predicate IsFailure() {
      Error?
    }

    function PropagateFailure<U>(): Result<U>
      requires Error?
    {
      Error(msg)
    }

    function Extract(): T
      requires Ok?
    {
      value
    }
  }
}
