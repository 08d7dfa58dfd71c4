/** The error codes of error.h that the modelled calls return, and results. */
module Outcomes {

  datatype ErrorCode = ErrMem | ErrBadParameter

  datatype Option<+T> = None | Some(value: T)

  datatype Result<+T> = Ok(value: T) | Err(error: ErrorCode)
}
