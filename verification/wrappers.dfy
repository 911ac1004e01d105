/** Failure-carrying datatypes used throughout the model: `Option` stands for a
    nullable Java reference, `Result` for a call that either returns or throws,
    and `Outcome` for a check that either passes or names what failed. */
module Wrappers {

  /** A nullable value: `None` plays the part of Java's `null`. */
  datatype Option<+T> = None | Some(value: T)

  /** A call that returns `value` or throws `error`. */
  datatype Result<+R, +E> = Success(value: R) | Failure(error: E)

  /** A check that passes, or fails with a reason. */
  datatype Outcome<+E> = Pass | Fail(error: E)
}
