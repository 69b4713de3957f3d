/** The two failure types shared by the models: an absent value, and a raised error. */
module Wrappers {

  datatype Option<+T> = None | Some(value: T)

  /** The outcome of an operation that either yields a value or throws / returns an error code. */
  datatype Result<+T> = Ok(value: T) | Err
}
