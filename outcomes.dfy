/** Status codes and result wrappers shared by the whole model.

    The file system reports every outcome as a status; only the code is
    modelled, not the message text that accompanies it. */
module Outcomes {

  datatype Option<+T> = None | Some(value: T)

  /** The status codes this file system returns. */
  datatype Status =
    | OK
    | InvalidArgument     // malformed path: wrong scheme, no bucket, no object name
    | NotFound            // bucket or object does not exist
    | FailedPrecondition  // staging file unusable, or directory not empty
    | OutOfRange          // a ranged read returned nothing (end of object)
    | Internal            // a store request failed

  /** A value, or the status that explains why there is none. */
  datatype Result<+T> = Success(value: T) | Failure(status: Status)

  function Min(a: nat, b: nat): nat { if a <= b then a else b }
}
