/** Option, Result and Outcome values, used where the C# code returns null or throws. */
module Wrappers {

  /** A value or nothing: `T?` in the C# signatures. */
  datatype Option<+T> = None | Some(value: T)

  /** A value or the exception that replaced it. */
  datatype Result<+R, +E> = Success(value: R) | Failure(error: E)

  /** Completion of an operation that returns no value, or the exception it threw. */
  datatype Outcome<+E> = Pass | Fail(error: E)
}
