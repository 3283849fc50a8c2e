/** Option and Result, for the source's null pointers and for the Python
    exceptions that end a run. */
module Wrappers {

  datatype Option<+T> = None | Some(value: T)

  datatype Result<+R> = Success(value: R) | Failure(error: string)
}
