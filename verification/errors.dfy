/** The errors a handler can throw and forward to the framework's error channel. */
module Errors {

  datatype Error =
    /** `new HttpError(message, status)` */
    | HttpError(status: nat, message: string)
    /** `new Error(message)`: carries no status */
    | PlainError(message: string)
    /** The TypeError raised by reading a property of, or calling a method on, `null` or `undefined`. */
    | TypeError
    /** A statement rejected by the database. */
    | DbError

  const BadRequest: Error := HttpError(400, "Bad request")

  const QueryGenerationFailed: Error := HttpError(500, "Query generation failed")
}
