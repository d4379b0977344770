/** Option and Result values shared by the input resolver and the deletion orchestrator. */
module Wrappers {

  datatype Option<+T> = None | Some(value: T)

  /** A computation that either yields a value or fails with the message the action reports. */
  datatype Result<+T> = Ok(value: T) | Err(message: string)
}
