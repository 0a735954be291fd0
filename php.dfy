/** Values of the PHP runtime that the model needs: the exception kinds the
    core throws, a Result type for operations that may throw, an Option type
    for nullable values, and the scalar values of a JSON response body. */
module Php {

  /** The exceptions that the core raises or lets through. */
  datatype Exception =
    | InvalidRole(message: string)      // App\Exception\InvalidRoleException
    | InvalidArgument(message: string)  // \InvalidArgumentException
    | Logic(message: string)            // \LogicException
    | AccessDenied(message: string)     // Symfony's AccessDeniedException
    | Error(message: string)            // an engine \Error (e.g. an uninitialised typed property)
    | TypeError                         // an argument of the wrong type; the engine writes the message

  /** The outcome of an operation that either returns a value or throws. */
  datatype Result<T> = Ok(value: T) | Err(error: Exception)

  /** A nullable value (`?string`, `?\DateTimeImmutable`). */
  datatype Option<T> = None | Some(value: T)

  /** The value of a nullable argument, or `fallback` when it is null: how
      a partial update treats a field it was not given. */
  function ValueOr<T>(o: Option<T>, fallback: T): T
  {
    if o.Some? then o.value else fallback
  }

  /** A scalar in a JSON object produced by a transformer. */
  datatype Json = JInt(n: int) | JString(s: string) | JNull

  /** A PHP array with string keys, as `json()` encodes it. */
  type JsonObject = map<string, Json>

  /** A nullable string as it appears in JSON. */
  function OptionalString(s: Option<string>): (j: Json)
    ensures j == JNull <==> s.None?
    ensures s.Some? ==> j == JString(s.value)
  {
    match s
    case None => JNull
    case Some(v) => JString(v)
  }
}
