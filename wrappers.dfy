/** Failure-compatible wrappers: `Option` for Java's nullable references,
    `Result` for a value or the exception that replaced it, and `Outcome` for
    a `void` call that either returns or throws. */
module Wrappers {

  datatype Option<+T> = None | Some(value: T)

  datatype Result<+T, +E> = Ok(value: T) | Err(error: E)

  datatype Outcome<+E> = Pass | Fail(error: E)
}
