/** Shared vocabulary of the three services: optional values, results of
    operations that may throw, JavaScript truthiness of request fields, and
    the HTTP exceptions the services raise. */
module Base {

  datatype Option<+T> = None | Some(value: T)

  /** The outcome of an operation that either returns a value or throws. */
  datatype Result<+R, +E> = Success(value: R) | Failure(error: E)

  /** The outcome of a guard that either passes or throws. */
  datatype Outcome<+E> = Pass | Fail(error: E)

  /** A string field of a request body as JavaScript sees it: `None` stands
      for `null` or `undefined`. */
  type Field = Option<string>

  /** JavaScript truthiness of a string-or-nullish value: `null`,
      `undefined` and `''` are falsy, every other string is truthy. */
  predicate Truthy(f: Field) {
    match f
    case None => false
    case Some(s) => s != ""
  }

  /** HTTP status codes used by the services. */
  const BadRequest: int := 400
  const Forbidden: int := 403

  /** The response body of each exception the services throw; the
      parameters are the values interpolated into the message. */
  datatype Reason =
    | TitleEmpty                  // 'Title is empty'
    | ContentEmpty                // 'Content is empty'
    | PostNotFound(id: int)       // 'Input data is wrong', post with id(...) does not exist.
    | InvalidUpdate               // 'Invalid Data'
    | NotWriter(userId: string)   // 'This post was not written by user(...)'
    | InvalidUserIdPassword       // 'Invalid userId/password'
    | UserIdExists                // 'userId already exists'
    | IdExists(existing: Field)   // 'id(...) already exists'
    | InvalidRegistration         // 'Invalid data'

  datatype HttpException = HttpException(status: int, reason: Reason)

  /** What a call can throw: an HTTP exception raised on purpose, or the
      `TypeError` JavaScript raises when a property is read off `null` or
      `undefined`. */
  datatype JsError = TypeError | Thrown(exception: HttpException)
}
