/** The translation of a failed `Result<T>` into an HTTP response. */
module ResultExtensions {
  import opened Wrappers
  import opened Results

  /** The anonymous `{ message, code }` object written as the response body. */
  datatype ErrorBody = ErrorBody(message: string, code: Option<string>)

  /** An `ObjectResult`: status code and body. */
  datatype ActionResult = ActionResult(status: int, body: ErrorBody)

  /** `ToActionResult`: chooses 404, 409, 401 or 400 from the error code. */
  function ToActionResult<T>(result: Result<T>): (a: ActionResult)
    ensures a.status == 404 <==> result.errorCode == Some(NotFound)
    ensures a.status == 409 <==> result.errorCode == Some(Conflict) || result.errorCode == Some(Duplicate)
    ensures a.status == 401 <==> result.errorCode == Some(Unauthorized)
    ensures a.status in {400, 401, 404, 409}
    ensures a.body == ErrorBody(result.message, result.errorCode)
  {
    var body := ErrorBody(result.message, result.errorCode);
    match result.errorCode
    case Some(c) =>
      if c == NotFound then ActionResult(404, body)
      else if c == Conflict || c == Duplicate then ActionResult(409, body)
      else if c == Unauthorized then ActionResult(401, body)
      else ActionResult(400, body)
    case None => ActionResult(400, body)
  }

  /** Predicate of section 15.3 of RFC 9110: a 2xx (Successful) status. */
  predicate IsSuccessStatus(status: int) {
    200 <= status < 300
  }

  /**
   * The mapping never produces a 2xx: a failure rendered by it is a client error
   * (4xx), and `VALIDATION` or a missing code gives 400.
   */
  lemma ToActionResultIsClientError<T>(message: string, errorCode: Option<string>)
    ensures var a := ToActionResult(Failure<T>(message, errorCode));
            400 <= a.status < 500 && !IsSuccessStatus(a.status)
            && a.body.message == message && a.body.code == errorCode
    ensures errorCode.None? || errorCode == Some(Validation) ==>
              ToActionResult(Failure<T>(message, errorCode)).status == 400
  {
  }
}
