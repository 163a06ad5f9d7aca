/** Values that may be null, results that may be exceptions, and the
    exceptions the client library raises. */
module Errors {

  /** A reference that may be null: `None` is the source's `null`. */
  datatype Option<+T> = None | Some(value: T)

  /** The exceptions the core throws, as values. */
  datatype Error =
    /** ArgumentException with its parameter name and message. */
    | ArgumentError(param: string, message: string)
    /** ArgumentNullException with its parameter name. */
    | ArgumentNull(param: string)
    /** NullReferenceException, raised by calling a method on null. */
    | NullReference
    /** An error reported by the XML engine while reading a document. */
    | ParseError(detail: string)
    /** HttpRequestException for a non-success status, with the status and the body text. */
    | HttpError(status: int, body: string)

  /** Either the value an operation returns or the exception it throws. */
  datatype Result<+T> = Success(value: T) | Failure(error: Error)
}
