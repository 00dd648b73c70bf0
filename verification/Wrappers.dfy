/** Results of operations that may raise.  Every Python exception the verifier can raise
    (ValueError, struct.error, IndexError, TypeError, ...) is the single outcome Raised. */
module Wrappers {

  datatype Option<+T> = None | Some(value: T)

  datatype Result<+T> = Raised | Ok(value: T) {

    predicate IsFailure() {
      Raised?
    }

    function PropagateFailure<U>(): Result<U>
      requires Raised?
    {
      Raised
    }

    function Extract(): T
      requires Ok?
    {
      value
    }
  }
}
