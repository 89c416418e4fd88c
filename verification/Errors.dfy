/** Error codes of error_public.h, results that carry them, and values that may be missing. */
module Errors {
  datatype Error = TableLogTooLarge | MaxSymbolValueTooLarge | MaxSymbolValueTooSmall | Generic | DstSizeTooSmall
                 | SrcSizeWrong | CorruptionDetected

  datatype Result<+T> = Ok(value: T) | Err(error: Error)

  datatype Option<+T> = None | Some(value: T)
}
