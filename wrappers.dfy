/** Failure-carrying values, used in place of the exceptions the Python code raises. */
module Wrappers {

  datatype Option<+T> = None | Some(value: T)

  datatype Result<+T, +E> = Success(value: T) | Failure(error: E)

  /** A step that returns nothing on success (a Python function that returns None or raises). */
  datatype Outcome<+E> = Pass | Fail(error: E)
}
