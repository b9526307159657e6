// Handler outcomes, in place of gin's JSON responses.

module Http {

  /** The error statuses the handlers answer with. */
  datatype Status = BadRequest | Unauthorized | NotFound | InternalError
  {
    function Code(): (c: int)
      ensures 400 <= c < 600
    {
      match this
      case BadRequest => 400
      case Unauthorized => 401
      case NotFound => 404
      case InternalError => 500
    }
  }

  /** 200 with a body, or an error status. */
  datatype Response<T> = Ok(value: T) | Fail(status: Status)
}
