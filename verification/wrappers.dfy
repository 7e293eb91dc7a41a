/** Option and Result, with the .NET exception kinds the modelled code can raise. */
module Wrappers {

  datatype Option<+T> = None | Some(value: T)

  /** The exception a .NET call would throw at this point. */
  datatype Failure =
    | ArgumentOutOfRange(call: string)   // Substring with a bad start or length
    | Argument(call: string)             // Dictionary.Add on a present key, Replace with an empty pattern
    | InvalidOperation(call: string)     // First() / Last() on an empty sequence

  datatype Result<+T> = Ok(value: T) | Err(error: Failure)
}
