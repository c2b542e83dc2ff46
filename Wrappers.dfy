/** Option and Result, the two wrapper datatypes the model uses for the
    source's nullable references and its caught exceptions. */
module Wrappers {

  /** A value that may be absent: the model of a C# reference that can be null. */
  datatype Option<+T> = None | Some(value: T)

  /** Either a value or the message of the exception that prevented it. */
  datatype Result<+T> = Success(value: T) | Failure(error: string)
}
