/** Failure-compatible results standing for the exceptions the viewer throws. */
module Outcomes {

  /** The kinds of exception the modelled code raises, explicitly or implicitly. */
  datatype Error =
    | IllegalArgument      // IllegalArgumentException
    | NullPointer          // NullPointerException (explicit, or a null dereference / unboxing)
    | IndexOutOfBounds     // IndexOutOfBoundsException on a list or an array
    | Arithmetic           // ArithmeticException (division by zero)
    | NotEnoughDims        // Viewer3DNodeNotEnoughDimsException

  datatype Result<+T> = Success(value: T) | Failure(error: Error) {
    predicate IsFailure() { Failure? }
    function PropagateFailure<U>(): Result<U>
      requires Failure?
    {
      Failure(error)
    }
    function Extract(): T
      requires Success?
    {
      value
    }
  }

  /** A call that either returns normally or throws. */
  datatype Outcome = Pass | Fail(error: Error) {
    predicate IsFailure() { Fail? }
    function PropagateFailure(): Outcome
      requires Fail?
    {
      this
    }
  }

  datatype Option<+T> = None | Some(value: T)
}
