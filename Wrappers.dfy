/** Absent-result and error-result datatypes shared by the other modules. */
module Wrappers {

  /** A value that may be absent: the "not found" outcome of a search. */
  datatype Option<+T> = None | Some(value: T)

  /** A value or the reason there is none. */
  datatype Result<+T, +E> = Success(value: T) | Failure(error: E)
}
