/** The client's error classes and the helpers that turn what was thrown into a message. */
module Errors {
  import opened Wrappers
  import Js
  import Text

  /** An `Error` instance: the two subclasses the client defines, and any other error. */
  datatype ErrorObject =
    | ApiError(message: string, status: Option<int>, code: Option<string>)
    | ValidationError(message: string, field: Option<string>)
    | OtherError(message: string)

  /** What a `catch` clause receives: an `Error` instance or some other thrown value. */
  datatype Thrown = Threw(error: ErrorObject) | ThrewValue(value: Js.JsValue)

  /** The `name` property each class sets. */
  function ErrorName(e: ErrorObject): (name: string)
    ensures e.ApiError? <==> name == "ApiError"
    ensures e.ValidationError? <==> name == "ValidationError"
    ensures e.OtherError? <==> name == "Error"
  {
    match e
    case ApiError(_, _, _) => "ApiError"
    case ValidationError(_, _) => "ValidationError"
    case OtherError(_) => "Error"
  }

  const UnexpectedErrorMessage: string := "An unexpected error occurred"

  /** `handleApiError`: the message of any `Error`, a fixed text for anything else. */
  function HandleApiError(t: Thrown): (msg: string)
    ensures t.Threw? ==> msg == t.error.message
    ensures t.ThrewValue? ==> msg == UnexpectedErrorMessage
  {
    match t
    case Threw(e) => e.message
    case ThrewValue(_) => UnexpectedErrorMessage
  }

  /** The fallback message `createApiError` builds from the response line. */
  function StatusLine(status: int, statusText: string): string
  {
    "HTTP " + Text.IntToDecimal(status) + ": " + statusText
  }

  /** `createApiError(response, message)`: an `ApiError` carrying the response status, with the
      supplied message when it is non-empty and `HTTP <status>: <statusText>` otherwise. */
  function CreateApiError(status: int, statusText: string, message: Option<string>): (e: ErrorObject)
    ensures e.ApiError? && ErrorName(e) == "ApiError"
    ensures e.status == Some(status) && e.code == None
    ensures message.Some? && message.value != [] ==> e.message == message.value
    ensures message == None || message == Some([]) ==> e.message == StatusLine(status, statusText)
    ensures e.message != []
  {
    ApiError(Js.OrElse(message, StatusLine(status, statusText)), Some(status), None)
  }

  /** What the UI shows for an error made by `createApiError`: the supplied message, else the
      status line; never the generic fallback unless that was the supplied message. */
  lemma HandleCreatedApiError(status: int, statusText: string, message: Option<string>)
    ensures HandleApiError(Threw(CreateApiError(status, statusText, message)))
            == Js.OrElse(message, StatusLine(status, statusText))
    ensures HandleApiError(Threw(CreateApiError(status, statusText, message))) == UnexpectedErrorMessage
            ==> message == Some(UnexpectedErrorMessage)
  {
    assert StatusLine(status, statusText)[0] == 'H';
  }

  /** The fallback message starts with `HTTP ` and quotes the status code in decimal. */
  lemma StatusLineShowsStatus(status: int, statusText: string)
    ensures Text.StartsWith(StatusLine(status, statusText), "HTTP ")
    ensures Text.ParseInt(StatusLine(status, statusText)[5..]) == Some(status)
  {
    var prefix, digits, tail := "HTTP ", Text.IntToDecimal(status), ": " + statusText;
    var line := StatusLine(status, statusText);
    assert line == prefix + (digits + tail);
    assert line[..5] == prefix && line[5..] == digits + tail;
    Text.ParseIntRoundTrip(status, tail);
  }
}
