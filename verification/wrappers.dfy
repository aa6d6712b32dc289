/** Failure-carrying wrappers: `Option` for C# null references, `Result` for
    operations that either return a value or raise an exception, and `Outcome`
    for `void` operations that may raise. */
module Wrappers {

  /** A possibly-null reference. */
  datatype Option<+T> = None | Some(value: T)

  /** A value, or the exception that replaced it. */
  datatype Result<+T, +E> = Success(value: T) | Failure(error: E)

  /** A `void` call that either returned normally or raised `error`. */
  datatype Outcome<+E> = Pass | Fail(error: E)
}
