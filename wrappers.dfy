/** Option and Result: how the model spells C#'s null returns and thrown exceptions. */
module Wrappers {

  /** A value that may be absent (a C# `null` return). */
  datatype Option<+T> = None | Some(value: T)

  /** The outcome of an operation that may throw: the value, or the exception's kind. */
  datatype Result<+T, +E> = Success(value: T) | Failure(error: E)
}
