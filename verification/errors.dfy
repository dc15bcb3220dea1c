/** The failure vocabulary of the client: the six service-status exceptions,
    the generic request failure, the argument check of the download call and
    the placeholders that are not implemented. Python exceptions become the
    error half of a `Result`. */
module Errors {

  /** Absence or presence of a value. */
  datatype Option<+T> = None | Some(value: T)

  /** Every exception the client raises on its own account. */
  datatype ClientError =
    | Unauthorized          // status 401
    | NoSession             // status 406
    | DownloadLimitReached  // status 407
    | TooManyRequests       // status 429
    | ServiceUnavailable    // status 503
    | ServerMaintenance     // status 506
    | RequestFailed(message: string)    // any other non-200 status (a RuntimeError)
    | InvalidArgument(message: string)  // too many ids for one download (a ValueError)
    | NotImplemented                    // an advertised call that has no body yet
  {
    /** True of the errors the status interpreter can raise. */
    predicate FromStatus() {
      !InvalidArgument? && !NotImplemented?
    }
  }

  /** Either the value an operation returns or the exception it raises. */
  datatype Result<+T> = Ok(value: T) | Err(error: ClientError)
}
