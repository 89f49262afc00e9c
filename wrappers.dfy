/** Option and Result, used for Java's `null` and for the exceptions the builder throws. */
module Wrappers {

  /** `None` stands for a Java `null` reference. */
  datatype Option<+T> = None | Some(value: T)

  /** `Failure` stands for a thrown exception. */
  datatype Result<+R, +E> = Success(value: R) | Failure(error: E)
}
