/** Failure-compatible wrappers shared by every module of the model. */
module Wrappers {

  /** An optional value (Rust's `Option`). */
  datatype Option<+T> = None | Some(value: T)

  /** The outcome of a check: `Pass` is Rust's `Ok(())`, `Fail(e)` is `Err(e)`. */
  datatype Outcome<+E> = Pass | Fail(error: E)
}
