/** Optional values and results that may carry one of the exceptions the Java code throws. */
module Wrappers {

  datatype Option<+T> = None | Some(value: T) {
    function GetOr(default: T): T {
      match this
      case Some(v) => v
      case None => default
    }
  }

  /** The exception classes the modelled code throws, with their messages. */
  datatype Failure =
    | IllegalArgument(message: string)   // java.lang.IllegalArgumentException
    | Arithmetic(message: string)        // java.lang.ArithmeticException
    | IllegalState(message: string)      // java.lang.IllegalStateException
    | Runtime(message: string)           // java.lang.RuntimeException
    | StackOverflow                      // java.lang.StackOverflowError: the recursion ran past its depth bound

  datatype Result<+T> = Ok(value: T) | Err(failure: Failure) {
    predicate IsFailure() { Err? }
    function PropagateFailure<U>(): Result<U>
      requires Err?
    {
      Err(failure)
    }
    function Extract(): T
      requires Ok?
    {
      value
    }
  }
}
