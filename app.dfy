/** The application-level handlers: the fallback for unknown routes and the
    error handler that turns an error reaching it into a response. */
module App {
  import opened Wrappers
  import opened Text
  import opened Http
  import opened Files

  /** `process.env.NODE_ENV || 'development'`. */
  function NodeEnv(env: Option<string>): (e: string)
    ensures Truthy(env) ==> e == env.value
    ensures !Truthy(env) ==> e == "development"
  {
    if Truthy(env) then env.value else "development"
  }

  /** The answer to a request no router matched, whatever its verb and
      path. */
  function NotFoundRoute(verb: string, path: string): (r: Response)
    ensures r.status == 404 && !r.body.success
    ensures r.body.message == Some("API endpoint not found")
    ensures r.body.data.None? && r.body.errors.None? && r.body.error.None?
  {
    Failure(404, "API endpoint not found")
  }

  /** The error handler: the upload limit, the upload type filter, schema
      validation and duplicate keys are client errors, checked in that
      order; anything else is a 500 whose message is the error's own only
      in development. */
  function HandleError(e: AppError, nodeEnv: string): (r: Response)
    ensures !r.body.success && r.body.data.None? && r.body.error.None?
    ensures e.code == NamedCode("LIMIT_FILE_SIZE") ==> r == Failure(400, "File too large. Maximum size is 10MB.")
    ensures e.code != NamedCode("LIMIT_FILE_SIZE") && e.message == "File type not supported" ==>
      r == Failure(400, "File type not supported")
    ensures e.code != NamedCode("LIMIT_FILE_SIZE") && e.message != "File type not supported" && e.name == "ValidationError" ==>
      r == Response(400, Body(false, Some("Validation error"), None, Some(e.errors), None))
    ensures e.code != NamedCode("LIMIT_FILE_SIZE") && e.message != "File type not supported" && e.name != "ValidationError"
            && e.code == NumericCode(11000) ==>
      r == Failure(409, "Duplicate entry")
    ensures e.code != NamedCode("LIMIT_FILE_SIZE") && e.message != "File type not supported" && e.name != "ValidationError"
            && e.code != NumericCode(11000) ==>
      r == Failure(500, if nodeEnv == "development" then e.message else "Internal server error")
    ensures r.body.errors.Some? <==> r.status == 400 && r.body.message == Some("Validation error")
  {
    if e.code == NamedCode("LIMIT_FILE_SIZE") then Failure(400, "File too large. Maximum size is 10MB.")
    else if e.message == "File type not supported" then Failure(400, "File type not supported")
    else if e.name == "ValidationError" then Response(400, Body(false, Some("Validation error"), None, Some(e.errors), None))
    else if e.code == NumericCode(11000) then Failure(409, "Duplicate entry")
    else Failure(500, if nodeEnv == "development" then e.message else "Internal server error")
  }

  /** Outside development an unexpected error's message never reaches the
      client. */
  lemma ProductionHidesMessages(e: AppError, nodeEnv: string)
    requires nodeEnv != "development"
    ensures HandleError(e, nodeEnv).status == 500 ==> HandleError(e, nodeEnv).body.message == Some("Internal server error")
  {
  }

  /** Every upload the middleware refuses becomes a 400 that names the
      reason. */
  lemma UploadRejectionsAreClientErrors(file: Option<IncomingFile>, nodeEnv: string)
    requires Admit(file).Err?
    ensures var r := HandleError(Admit(file).error, nodeEnv);
      && (file.value.mimeType !in AllowedMimeTypes ==> r == Failure(400, "File type not supported"))
      && (file.value.mimeType in AllowedMimeTypes ==> r == Failure(400, "File too large. Maximum size is 10MB."))
  {
  }
}
