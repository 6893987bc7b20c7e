/** The repository's result codes. */
module Errors {

  datatype Error =
    | Io | Format | Integrity | NotFound | Inval | NoMem
    | Unsupported | Perm | Steps

  datatype Result<+T> = Ok(value: T) | Err(error: Error)

  datatype Option<+T> = None | Some(value: T)
}
