/** Failure-compatible wrapper used where the source returns null or throws. */
module Wrappers {

  /** `None` stands for Java's `null` result or a caught exception. */
  datatype Option<+T> = None | Some(value: T)
}
