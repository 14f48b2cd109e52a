/** The HTTP error interceptor's user-facing messages and the error object
    it rethrows. The clock is outside the model, so the rethrown object
    has no timestamp. */
module HttpErrors {
  import opened Wrappers
  import opened Text

  /** `error.error`: a browser `ErrorEvent`, a server body that may carry a
      `message`, or nothing. */
  datatype ErrorBody = ClientEvent(eventMessage: string) | ServerBody(message: Option<string>) | NoBody

  /** The fields of `HttpErrorResponse` the interceptor reads. */
  datatype HttpErrorResponse = HttpErrorResponse(body: ErrorBody, status: int, statusText: string, url: Option<string>)

  /** The error object `formatError` builds, without its timestamp. */
  datatype FormattedError = FormattedError(status: int, statusText: string, message: string, url: Option<string>)

  const NetworkError := "Network error. Please check your internet connection."
  const BadRequest := "Bad request. Please check your input."
  const Unauthorized := "Unauthorized. Please log in again."
  const Forbidden := "Forbidden. You do not have permission to access this resource."
  const NotFoundText := "Resource not found."
  const Timeout := "Request timeout. Please try again."
  const ServerError := "Server error. Please try again later."
  const Unavailable := "Service unavailable. Please try again later."

  /** The statuses with a message of their own. */
  predicate KnownStatus(status: int) {
    status in {0, 400, 401, 403, 404, 408, 500, 503}
  }

  /** The fixed text for a known status other than 400. */
  function FixedText(status: int): string
    requires KnownStatus(status) && status != 400
  {
    if status == 0 then NetworkError
    else if status == 401 then Unauthorized
    else if status == 403 then Forbidden
    else if status == 404 then NotFoundText
    else if status == 408 then Timeout
    else if status == 500 then ServerError
    else Unavailable
  }

  /** `getErrorMessage`. */
  function GetErrorMessage(e: HttpErrorResponse): (r: string)
    ensures e.body.ClientEvent? ==> r == e.body.eventMessage
    ensures !e.body.ClientEvent? && e.status == 400 ==>
      r == (if e.body.ServerBody? && e.body.message.Some? && e.body.message.value != "" then e.body.message.value
            else BadRequest)
    ensures !e.body.ClientEvent? && KnownStatus(e.status) && e.status != 400 ==> r == FixedText(e.status)
    ensures !e.body.ClientEvent? && !KnownStatus(e.status) ==>
      r == "An error occurred: " + (if e.statusText != "" then e.statusText else "Unknown error")
  {
    if e.body.ClientEvent? then e.body.eventMessage
    else if e.status == 0 then NetworkError
    else if e.status == 400 then
      if e.body.ServerBody? && e.body.message.Some? && e.body.message.value != "" then e.body.message.value
      else BadRequest
    else if e.status == 401 then Unauthorized
    else if e.status == 403 then Forbidden
    else if e.status == 404 then NotFoundText
    else if e.status == 408 then Timeout
    else if e.status == 500 then ServerError
    else if e.status == 503 then Unavailable
    else "An error occurred: " + (if e.statusText != "" then e.statusText else "Unknown error")
  }

  /** A server-side error always gets a non-empty message. */
  lemma ServerErrorsHaveMessage(e: HttpErrorResponse)
    requires !e.body.ClientEvent?
    ensures GetErrorMessage(e) != []
  {
  }

  /** Apart from 400, a known status alone decides the message: neither the
      body nor the status text matters. */
  lemma KnownStatusDecides(e: HttpErrorResponse, f: HttpErrorResponse)
    requires !e.body.ClientEvent? && !f.body.ClientEvent?
    requires e.status == f.status && KnownStatus(e.status) && e.status != 400
    ensures GetErrorMessage(e) == GetErrorMessage(f)
  {
  }

  /** The fixed texts are pairwise distinct, so the message identifies the
      status. */
  lemma FixedTextsDistinct(s: int, t: int)
    requires KnownStatus(s) && KnownStatus(t) && s != 400 && t != 400
    requires FixedText(s) == FixedText(t)
    ensures s == t
  {
  }

  /** `formatError` without the timestamp. */
  function FormatError(e: HttpErrorResponse): (r: FormattedError)
    ensures r.status == e.status && r.statusText == e.statusText && r.url == e.url
    ensures r.message == GetErrorMessage(e)
  {
    FormattedError(e.status, e.statusText, GetErrorMessage(e), e.url)
  }
}
