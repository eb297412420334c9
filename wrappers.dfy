/** Option and Result values used where the programs use null or throw. */
module Wrappers {

  /** An optional value: `None` stands for an absent value. */
  datatype Option<+T> = None | Some(value: T)

  /** The outcome of an operation that may throw: `Failure` carries the exception kind. */
  datatype Result<+T, +E> = Success(value: T) | Failure(error: E)
}
