/** Failure-compatible result types shared by the engine's modules. */
module Wrappers {

  datatype Option<+T> = None | Some(value: T)

  /** The outcome of an operation that the source may abort by throwing or by an error reply. */
  datatype Result<+T, +E> = Ok(value: T) | Err(error: E)
}
