/** Failure-carrying return types shared by the model. */
module Wrappers {

  /** An optional value (Rust's `Option`). */
  datatype Option<+T> = None | Some(value: T)

  /** A recoverable result (Rust's `Result<T, &'static str>`). */
  datatype Result<+T, +E> = Ok(value: T) | Err(error: E)

  /** The outcome of an operation that may halt the program: either it
      completes with a value, or a Rust `expect` panics with its message. */
  datatype Outcome<+T> = Done(value: T) | Panic(message: string)
}
