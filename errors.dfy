/** The failures the script reports, and the wrappers that carry them. */
module Errors {

  /** commander's `InvalidArgumentError` with its message, or the target directory already
      existing (given as its path components). */
  datatype Error = InvalidArgument(message: string) | AlreadyExists(path: seq<string>)

  datatype Result<T> = Ok(value: T) | Err(error: Error)

  datatype Option<T> = None | Some(value: T)
}
