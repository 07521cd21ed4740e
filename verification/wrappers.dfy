/** Option, Result and Outcome: the values that stand for Python's `None`
    and for a raised exception. */
module Wrappers {

  /** An optional value; `None` is Python's `None`. */
  datatype Option<+T> = None | Some(value: T)

  /** The result of a query that either returns a value or raises. */
  datatype Result<+T, +E> = Success(value: T) | Failure(error: E)

  /** The result of a check that either passes silently or raises. */
  datatype Outcome<+E> = Pass | Fail(error: E)
}
