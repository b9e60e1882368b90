/** Option and Result, with the Java exceptions the core throws as error values. */
module Wrappers {

  /** A value that may be absent; `None` stands for Java's null. */
  datatype Option<+T> = None | Some(value: T)

  /** The exceptions thrown by the modelled code, with their messages. */
  datatype Exception =
    | IllegalArgument(message: string)
    | Runtime(message: string)
    | IllegalState
    | BufferUnderflow
    | IndexOutOfBounds

  /** Either a returned value or a thrown exception. */
  datatype Result<+T> = Ok(value: T) | Throws(error: Exception)

  /** The text Java's string concatenation produces for a possibly-null string. */
  function NullableText(s: Option<string>): string
  {
    match s
    case None => "null"
    case Some(t) => t
  }
}
