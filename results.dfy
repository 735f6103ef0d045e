/** Optional values and HTTP-style outcomes shared by every module. */
module Results {

  datatype Option<+T> = None | Some(value: T)

  /** The answer of an endpoint: a value, or the HTTP status code of the
      `HTTPException` the handler raises. */
  datatype Response<+T> = Ok(value: T) | Fail(status: int)

  const BadRequest: int := 400
  const NotFound: int := 404
  /** Status FastAPI answers when a declared query constraint is violated. */
  const UnprocessableEntity: int := 422
}
