/** Error kinds and the Result type shared by the whole driver model.

    The driver reports every failure through the `error_chain!` error of its
    support crate; only the kinds the modelled code produces are listed. */
module Outcomes {

  /** The error kinds raised or propagated by the modelled code. */
  datatype ErrorKind =
    | CommandParse            // a command string did not match its grammar
    | ResponseParse           // a response payload did not match its grammar
    | MalformedResponse       // a payload that is not nul-terminated UTF-8 text
    | PendingResponse         // status byte: the device is still processing
    | DeviceErrorResponse     // status byte: the device reports an error
    | NoDataExpectedResponse  // status byte: the device has nothing to send
    | I2CRead                 // the bus read failed
    | WriteFailed             // "Error writing to EZO device."
    | DataNotParsable         // "Data is not parsable" (invalid UTF-8)

  datatype Option<+T> = None | Some(value: T)

  datatype Result<+T> = Ok(value: T) | Err(error: ErrorKind) {
    predicate IsFailure() { Err? }

    function PropagateFailure<U>(): Result<U>
      requires Err?
    {
      Err(error)
    }

    function Extract(): T
      requires Ok?
    {
      value
    }
  }
}
