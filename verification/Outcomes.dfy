/** Optional values and the stable error codes shared by every module. */
module Outcomes {

  datatype Option<+T> = None | Some(value: T)

  /** The error codes the modelled operations can report. */
  datatype ErrorCode =
    | InvalidRequest
    | InvalidPath
    | DuplicatePath
    | UnsupportedEntry
    | NoFiles
    | TooManyFiles
    | HashMismatch
    | StateConflict
    | TransferNotFound
    | TransferExpired
    | ClaimExpired
    | AuthInvalid
    | OffsetMismatch
    | PayloadTooLarge
    | DestinationExists
    | InsufficientStorage
    | NetworkError
    | IdempotencyConflict
    | InternalError
}
