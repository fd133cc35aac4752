/** The error a FastAPI handler raises (`HTTPException`): a status code, a
    detail message and, for credential failures, a `WWW-Authenticate` header. */
module Http {
  import opened Wrappers

  datatype HttpError = HttpError(status: nat, detail: string, wwwAuthenticate: Option<string>)

  function Error(status: nat, detail: string): HttpError
  {
    HttpError(status, detail, None)
  }
}
