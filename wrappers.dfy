/** Python's `None`-or-value and the raise-or-return outcome of a call. */
module Wrappers {

  /** `None` is Python's `None`; `Some(v)` is any other value. */
  datatype Option<+T> = None | Some(value: T)

  /** The outcome of a call that either returns a value or raises. */
  datatype Result<+T, +E> = Success(value: T) | Failure(error: E)
}
