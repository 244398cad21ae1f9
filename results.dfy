/** Outcomes of the bridge's operations: a value, or the error the driver throws. */
module Results {

  datatype Option<T> = None | Some(value: T)

  /** The exceptions the driver raises, one constructor per distinct message or error class. */
  datatype Error =
    | IoError               // "I2C: Read failed." (the bridge gave no answer)
    | BusShort              // "Detected onewire short"
    | NoDevicePresent       // "Failed to detected any onewire devices"
    | BadSearchResult       // "Bad search result"
    | RomInvalid            // "ROM invalid" (family byte 0, wrong length)
    | CrcMismatch           // "CRC mismatch"
    | ConfigMismatch        // "Failed to configure bridge"
    | InvalidChannel        // "Invalid channel"
    | ChannelSelectFailed   // "Failed to select channel"
    | InvalidPath           // RangeError: "... is an invalid path."
    | RangeError            // a Buffer access outside the buffer
    | ReferenceError        // a handler that names an undeclared variable
    | TypeError             // a call that is not a function
    | Unmodelled            // a path handler this model leaves out

  datatype Result<T> = Ok(value: T) | Err(error: Error)
}
