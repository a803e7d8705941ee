/** Option and Result: the model's stand-ins for Java's null and thrown exceptions. */
module Wrappers {

  /** `None` plays the part of a Java null reference. */
  datatype Option<+T> = None | Some(value: T)

  /** `Failure` carries the exception a Java method would throw. */
  datatype Result<+T, +E> = Success(value: T) | Failure(error: E)
}
