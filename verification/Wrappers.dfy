/** Option and Result, in their usual shape, and what several components share. */
module Wrappers {
  datatype Option<+T> = None | Some(value: T)

  datatype Result<+T, +E> = Ok(value: T) | Err(error: E)

  /** One attempt at storing something; a lost acknowledgement means it is stored all the same. */
  datatype StoreOutcome = Stored | Failed | AckLost

  function Max(x: nat, y: nat): nat { if x < y then y else x }
}
