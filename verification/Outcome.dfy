/** The outcome of an operation that may throw. */
module Outcome {
  datatype Result<+T> = Ok(value: T) | Rejected {
    predicate IsFailure() { Rejected? }

    function PropagateFailure<U>(): Result<U>
      requires Rejected?
    {
      Rejected
    }

    function Extract(): T
      requires Ok?
    {
      value
    }
  }
}
