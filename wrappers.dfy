/** Optional values and the outcome of a computation that may end in a runtime exception. */
module Wrappers {
  datatype Option<T> = None | Some(value: T)

  /**
   * `Throws` stands for an unchecked exception (an out-of-bounds substring) escaping from
   * the modelled Java code; nothing else about the exception is kept.
   */
  datatype Outcome<T> = Value(value: T) | Throws
}
