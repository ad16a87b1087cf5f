/** Failure-compatible results standing for the exceptions the Python code raises. */
module Wrappers {

  /** The ways a call into the toolkit can end with an exception instead of a value. */
  datatype Error =
    | AssertionFailed   // an `assert` statement that does not hold
    | IndexOutOfRange   // `args[0]` on a node without operands
    | UnpackMismatch    // `p, q = args` on a node without exactly two operands
    | IllegalOperator   // the evaluators' `ValueError('Illegal operator ...')`

  datatype Result<+T> = Ok(value: T) | Err(error: Error) {

    predicate IsFailure() {
      Err?
    }

    function PropagateFailure<U>(): Result<U>
      requires Err?
    {
      Err(error)
    }

    function Extract(): T
      requires Ok?
    {
      value
    }
  }

  datatype Option<+T> = None | Some(value: T)
}
