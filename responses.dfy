/**
 * `ResponseHelper` (app/utils/__init__.py): the two shapes of an API response body. A JSON
 * object of strings is a `map<string, string>`.
 */
module Responses {
  import opened Wrappers

  /** `success_response`: the data itself, with no envelope around it. */
  function SuccessResponse<T>(data: T): (r: T)
    ensures r == data
  {
    data
  }

  /**
   * `error_response`: an object with the message under "error" and, only when the details are
   * given and not the empty string (which Python treats as false), the details under "details".
   */
  function ErrorResponse(message: string, details: Option<string>): (r: map<string, string>)
    ensures "error" in r && r["error"] == message
    ensures "details" in r <==> details.Some? && details.value != ""
    ensures "details" in r ==> details == Some(r["details"])
    ensures forall k :: k in r ==> k == "error" || k == "details"
  {
    var response := map["error" := message];
    if details.Some? && details.value != "" then response["details" := details.value] else response
  }

  /** How a client reads an error body back: the message and the details, if present. */
  function ReadError(body: map<string, string>): (r: Option<(string, Option<string>)>)
    ensures r.Some? <==> "error" in body
  {
    if "error" !in body then None
    else Some((body["error"], if "details" in body then Some(body["details"]) else None))
  }

  /** An error body reads back as its message and its details, empty details reading as none. */
  lemma ErrorRoundTrip(message: string, details: Option<string>)
    ensures ReadError(ErrorResponse(message, details))
      == Some((message, if details == Some("") then None else details))
  {
  }

  /** Two error bodies are equal exactly when message and (non-empty) details agree. */
  lemma ErrorResponseInjective(m1: string, d1: Option<string>, m2: string, d2: Option<string>)
    requires ErrorResponse(m1, d1) == ErrorResponse(m2, d2)
    ensures m1 == m2
    ensures (if d1 == Some("") then None else d1) == (if d2 == Some("") then None else d2)
  {
    ErrorRoundTrip(m1, d1);
    ErrorRoundTrip(m2, d2);
  }
}
