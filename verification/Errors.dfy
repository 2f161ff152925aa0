/** The error vocabulary and the result type shared by every component. */
module Errors {
  datatype Error =
    | INVALID_ARGUMENT
    | VERSION_MISMATCH
    | NOT_FOUND
    | BUSY
    | NOT_READY
    | TIMEOUT
    | USB_IO
    | DISCONNECTED
    | PROTOCOL_ERROR
    | FIRMWARE_REJECTED
    | UNSUPPORTED
    | NO_CARD
    | CARD_REMOVED
    | BUFFER_TOO_SMALL
    | SLOW_CONSUMER
    | RESOURCE_LIMIT
    | INTERNAL

  datatype Result<+T> = Success(value: T) | Failure(error: Error)

  /** The value of a `Result` that carries no payload. */
  datatype Unit = Unit

  datatype Option<+T> = None | Some(value: T)
}
