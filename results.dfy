/** Failure-carrying wrappers shared by the other modules. */
module Results {

  /** A value that may be absent (an omitted argument, a missing key). */
  datatype Option<+T> = None | Some(value: T)

  /** A computation that yields a value or fails with an error (a thrown exception). */
  datatype Result<+T, +E> = Success(value: T) | Failure(error: E)

  /** A check that passes or fails with an error (a function that returns nothing or throws). */
  datatype Outcome<+E> = Pass | Fail(error: E)
}
