/** Option, Result and Outcome: the error paths of the model (PHP exceptions
    become Failure/Fail values). */
module Wrappers {

  datatype Option<+T> = None | Some(value: T)

  datatype Result<+T, +E> = Success(value: T) | Failure(error: E)

  /** The result of an operation that returns nothing useful (PHP `void` or
      a fluent `return $this`) but may throw. */
  datatype Outcome<+E> = Pass | Fail(error: E)
}
