/** Failure-carrying wrappers used where the Java code returns `null` or throws. */
module Outcomes {

  /** `None` stands for a Java `null` result. */
  datatype Option<+T> = None | Some(value: T)

  /** `Failure` stands for an exception that escapes a Java method. */
  datatype Result<+T, +E> = Success(value: T) | Failure(error: E)
}
