/** Failure-carrying values used in place of Java's null returns and checked exceptions. */
module Wrappers {

  /** A value that may be absent (Java's nullable reference). */
  datatype Option<+T> = None | Some(value: T)

  /** The outcome of a void Java method that may throw: it returned normally, or threw `error`. */
  datatype Outcome<+E> = Pass | Fail(error: E)
}
