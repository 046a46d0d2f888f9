/** Option for Java's nullable results, Outcome for calls that may raise IllegalStateException. */
module Wrappers {

  /** `None` stands for Java's `null`. */
  datatype Option<+T> = None | Some(value: T)

  /** The result of a Java call that either returns a value or raises IllegalStateException. */
  datatype Outcome<+T> = Returned(value: T) | IllegalState
}
