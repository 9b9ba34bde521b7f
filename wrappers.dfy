/** Failure-carrying results used for Python's lookups and exceptions. */
module Wrappers {

  /** A lookup that may find nothing (Python raising ValueError / KeyError). */
  datatype Option<+T> = None | Some(value: T)

  /** An operation that either yields a value or reports why it failed. */
  datatype Result<+T, +E> = Ok(value: T) | Err(error: E)

  /** A state-changing operation that either completes or reports why it stopped. */
  datatype Outcome<+E> = Pass | Fail(error: E)
}
