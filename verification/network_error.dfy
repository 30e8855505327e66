/** The UIKit variant's `NetworkError` and the texts it shows the user. */
module NetworkErrors {
  import opened Wrappers
  import opened Decimal
  import opened Http

  datatype NetworkError =
    | InvalidURL
    | NoData
    | DecodingError
    | ServerError(code: int)
    | NoInternetConnection
    | Timeout
    | Unknown(error: SystemError)

  const ServerErrorPrefix: string := "Server error ("

  /** `errorDescription`: never nil. */
  function ErrorDescription(e: NetworkError): (r: Option<string>)
    ensures r.Some?
    ensures e.Unknown? ==> r.value == e.error.localizedDescription
    ensures e.ServerError? ==>
      |r.value| > |ServerErrorPrefix| && r.value[..|ServerErrorPrefix|] == ServerErrorPrefix && r.value[|r.value| - 1] == ')'
  {
    match e
    case InvalidURL => Some("Invalid URL")
    case NoData => Some("No data received from server")
    case DecodingError => Some("Failed to process server response")
    case ServerError(code) => Some(ServerErrorPrefix + IntToString(code) + ")")
    case NoInternetConnection => Some("No internet connection. Please check your connection.")
    case Timeout => Some("Request timed out. Please try again.")
    case Unknown(error) => Some(error.localizedDescription)
  }

  /**
   * A server error is described as "Server error (" then the status code in
   * decimal then ")", and the code can be read back from between the brackets.
   */
  lemma ServerErrorDescriptionNamesCode(code: SwiftInt)
    ensures var d := ErrorDescription(ServerError(code)).value;
      && d[..14] == "Server error ("
      && d[|d| - 1] == ')'
      && ParseInt(d[14..|d| - 1]) == Some(code)
  {
    var d := ErrorDescription(ServerError(code)).value;
    assert d[|ServerErrorPrefix|..|d| - 1] == IntToString(code);
    ParseIntRoundTrip(code);
  }

  /** Errors without a payload have distinct, fixed descriptions. */
  lemma FixedDescriptionsDistinct(a: NetworkError, b: NetworkError)
    requires !a.ServerError? && !a.Unknown? && !b.ServerError? && !b.Unknown?
    requires ErrorDescription(a) == ErrorDescription(b)
    ensures a == b
  {
  }

  /** `recoverySuggestion`: never nil. */
  function RecoverySuggestion(e: NetworkError): (r: Option<string>)
    ensures r.Some?
  {
    match e
    case NoInternetConnection => Some("Check your internet connection and try again.")
    case Timeout => Some("The request took too long. Please try again.")
    case ServerError(_) => Some("Please try again later.")
    case _ => Some("Please try again.")
  }

  /** Which errors share a suggestion: each server error says to try later, and the rest without their own say to try again. */
  lemma RecoverySuggestionClasses(e: NetworkError)
    ensures e.ServerError? <==> RecoverySuggestion(e) == Some("Please try again later.")
    ensures (e.InvalidURL? || e.NoData? || e.DecodingError? || e.Unknown?) <==> RecoverySuggestion(e) == Some("Please try again.")
    ensures e.NoInternetConnection? <==> RecoverySuggestion(e) == Some("Check your internet connection and try again.")
    ensures e.Timeout? <==> RecoverySuggestion(e) == Some("The request took too long. Please try again.")
  {
  }
}
