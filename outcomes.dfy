/** Failure-carrying return values shared by the feature modules. */
module Outcomes {

  /** A value that may be absent, e.g. the bin a tick falls into. */
  datatype Option<+T> = None | Some(value: T)

  /** The outcome of an operation that raises on bad input in the library. */
  datatype Result<+T, +E> = Ok(value: T) | Err(error: E)
}
