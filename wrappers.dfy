/** Failure-compatible result types used across the planner model. */
module Wrappers {

  /** A value that may be absent; `None` stands for Python's `None`. */
  datatype Option<+T> = None | Some(value: T)

  /** A value, or the reason an operation raised instead of returning. */
  datatype Result<+R, +E> = Success(value: R) | Failure(error: E)
}
