/** Wrappers used across the model: a lookup that may miss
    and an operation that may be refused with a reason. */
module Wrappers {

  /** The result of a lookup: `None` stands for Java's `null`. */
  datatype Option<+T> = None | Some(value: T)

  /** An operation that either yields a value or fails with an error. */
  datatype Result<+T, +E> = Success(value: T) | Failure(error: E)
}
