/** What a controller action answers: a status code and a body. */
module Http {
  import opened Php

  const OK: int := 200
  const CREATED: int := 201
  const NO_CONTENT: int := 204
  const FORBIDDEN: int := 403
  const NOT_FOUND: int := 404
  const CONFLICT: int := 409
  const INTERNAL_SERVER_ERROR: int := 500

  datatype Body =
    | Failure(error: Exception)             // an exception that left the controller
    | ErrorMessage(message: string)         // ['error' => ...]
    | Message(text: string)                 // ['message' => ...]
    | Item(fields: JsonObject)              // one transformed entity
    | Items(entries: map<int, JsonObject>)  // the transformed entities, by id
    | NoContent                             // `new JsonResponse(null, 204)`

  datatype Response = Response(status: int, body: Body)

  /** How the kernel answers an uncaught exception: the security layer
      turns AccessDeniedException into 403, and an exception that is no
      HTTP exception becomes 500. */
  function Thrown(e: Exception): (r: Response)
    ensures r.body == Failure(e)
    ensures r.status == FORBIDDEN <==> e.AccessDenied?
    ensures r.status != FORBIDDEN ==> r.status == INTERNAL_SERVER_ERROR
  {
    Response(if e.AccessDenied? then FORBIDDEN else INTERNAL_SERVER_ERROR, Failure(e))
  }

  /** The default message of AccessDeniedException. */
  const ACCESS_DENIED: string := "Access Denied."

  /** `#[IsGranted]` or `denyAccessUnlessGranted` refusing the request. */
  function AccessRefused(): Response
  {
    Thrown(AccessDenied(ACCESS_DENIED))
  }
}
