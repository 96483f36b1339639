/** Option and Result values, and the Java exceptions the generator can throw. */
module Wrappers {

  datatype Option<+T> = None | Some(value: T)

  /** The failures the generator signals by throwing. */
  datatype Error =
    | IllegalArgument(message: string)   // IllegalArgumentException
    | IllegalState(message: string)      // IllegalStateException, also Kotlin's `error(...)`
    | NullCast                           // `null as JennyClazzElement`
    | IndexOutOfBounds                   // `subSequence` with a bad range
    | Thrown                             // an exception passed on from a constant's `call()`

  datatype Result<+T> = Success(value: T) | Failure(error: Error) {
    predicate IsFailure() { Failure? }

    function PropagateFailure<U>(): Result<U>
      requires Failure?
    {
      Failure(error)
    }

    function Extract(): T
      requires Success?
    {
      value
    }
  }
}
