/** Java's Optional and thrown exceptions, as values. */
module Wrappers {

  /** `Optional<T>` of java.util, and the null-or-value shape of a nullable reference. */
  datatype Option<+T> = None | Some(value: T)

  /** The outcome of a call that either returns a value or throws an exception with a message. */
  datatype Result<+T> = Ok(value: T) | Err(message: string)
}
