/** Failure-carrying datatypes shared by the other modules. */
module Wrappers {

  /** An optional value; `None` models an empty (falsy) form field. */
  datatype Option<T> = None | Some(value: T)

  /** The outcome of an operation that can be rejected with an error. */
  datatype Result<T, E> = Success(value: T) | Failure(error: E)
}
