/** Failure-carrying return values. The Go source signals failure by panicking
    (an index out of range); the model returns these instead. */
module Wrappers {

  /** A value that may be absent; `None` marks a computation that panics. */
  datatype Option<+T> = None | Some(value: T)

  /** Either a value or the reason no value was produced. */
  datatype Result<+T, +E> = Ok(value: T) | Err(error: E)
}
