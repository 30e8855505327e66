/**
 * The UIKit variant's `APIClient.request`: one GET for an endpoint, with every failure
 * turned into a `NetworkError`.
 */
module ApiClient {
  import opened Wrappers
  import opened Media
  import opened Http
  import opened NetworkErrors

  /** The `URLRequest` the client sends. */
  datatype UrlRequest = UrlRequest(url: string, httpMethod: string, headers: seq<(string, string)>)

  /** An error as it leaves the inner `do` block: one the client threw itself, or one from below. */
  datatype Thrown = Raised(raised: NetworkError) | Escaped(escaped: SystemError)

  /** The request built for a resolved URL: a GET announcing a JSON body. */
  function RequestFor(url: string): (req: UrlRequest)
    ensures req.url == url && req.httpMethod == "GET"
    ensures req.headers == [("Content-Type", "application/json")]
  {
    UrlRequest(url, "GET", [("Content-Type", "application/json")])
  }

  /** The inner `do` block: the response is classified and a 2xx body decoded. */
  function Inner<T>(outcome: Transport, decode: Bytes -> Option<T>): (r: Result<T, Thrown>)
    ensures outcome.Threw? ==> r == Failure(Escaped(outcome.error))
    ensures r.Success? <==> outcome.Responded? && IsSuccessfulHttp(outcome.response) && decode(outcome.body).Some?
    ensures r.Success? ==> decode(outcome.body) == Some(r.value)
  {
    match outcome
    case Threw(error) => Failure(Escaped(error))
    case Responded(body, response) =>
      match response
      case NotHttp => Failure(Raised(Unknown(OtherError(InvalidResponseDescription))))
      case HttpResponse(status, _) =>
        if IsSuccess(status) then
          match decode(body)
          case Some(v) => Success(v)
          case None => Failure(Raised(DecodingError))
        else if status == 404 then Failure(Raised(ServerError(404)))
        else if 500 <= status <= 599 then Failure(Raised(ServerError(status)))
        else Failure(Raised(ServerError(status)))
  }

  /** `localizedDescription` of `NSError(domain: "Invalid response", code: -1)`, as the platform words it. */
  const InvalidResponseDescription: string := "The operation couldn\U{2019}t be completed. (Invalid response error -1.)"

  /** URL errors the client reports as a lost connection. */
  predicate MeansOffline(e: SystemError) {
    e.UrlError? && (e.code.NotConnectedToInternet? || e.code.NetworkConnectionLost?)
  }

  predicate MeansTimeout(e: SystemError) {
    e.UrlError? && e.code.TimedOut?
  }

  /** The `catch` clauses: a `NetworkError` passes through, URL errors are classified, anything else is unknown. */
  function Rethrow(t: Thrown): (e: NetworkError)
    ensures t.Raised? ==> e == t.raised
    ensures t.Escaped? && MeansOffline(t.escaped) ==> e == NoInternetConnection
    ensures t.Escaped? && MeansTimeout(t.escaped) ==> e == Timeout
    ensures t.Escaped? && !MeansOffline(t.escaped) && !MeansTimeout(t.escaped) ==> e == Unknown(t.escaped)
  {
    match t
    case Raised(error) => error
    case Escaped(error) =>
      if error.UrlError? then
        match error.code
        case NotConnectedToInternet => NoInternetConnection
        case NetworkConnectionLost => NoInternetConnection
        case TimedOut => Timeout
        case OtherUrlError(_) => Unknown(error)
      else Unknown(error)
  }

  /** One call of `request`: the request sent, if any, and its result. */
  datatype Call<T> = Call(sent: Option<UrlRequest>, result: Result<T, NetworkError>)

  /** `request(_:)` given the endpoint's URL (nil when it could not be built) and what the network does. */
  function Request<T>(url: Option<string>, outcome: Transport, decode: Bytes -> Option<T>): (c: Call<T>)
    ensures url.None? ==> c == Call(None, Failure(InvalidURL))
    ensures url.Some? ==> c.sent == Some(RequestFor(url.value))
    ensures c.result.Success? <==>
      url.Some? && outcome.Responded? && IsSuccessfulHttp(outcome.response) && decode(outcome.body).Some?
    ensures c.result.Success? ==> decode(outcome.body) == Some(c.result.value)
  {
    match url
    case None => Call(None, Failure(InvalidURL))
    case Some(u) =>
      match Inner(outcome, decode)
      case Success(v) => Call(Some(RequestFor(u)), Success(v))
      case Failure(t) => Call(Some(RequestFor(u)), Failure(Rethrow(t)))
  }

  /** How each failure surfaces, once a request was sent. */
  lemma RequestFailures<T>(u: string, outcome: Transport, decode: Bytes -> Option<T>)
    ensures var r := Request(Some(u), outcome, decode).result;
      && ((outcome.Responded? && outcome.response.HttpResponse? && !IsSuccess(outcome.response.status))
           ==> r == Failure(ServerError(outcome.response.status)))
      && ((outcome.Responded? && IsSuccessfulHttp(outcome.response) && decode(outcome.body).None?)
           ==> r == Failure(DecodingError))
      && ((outcome.Responded? && outcome.response.NotHttp?) ==> r.Failure? && r.error.Unknown?)
      && ((outcome.Threw? && MeansTimeout(outcome.error)) ==> r == Failure(Timeout))
      && ((outcome.Threw? && MeansOffline(outcome.error)) ==> r == Failure(NoInternetConnection))
      && ((outcome.Threw? && !MeansOffline(outcome.error) && !MeansTimeout(outcome.error))
           ==> r == Failure(Unknown(outcome.error)))
  {
  }

  /** The client never reports `noData`, and reports `invalidURL` only when there was no URL. */
  lemma RequestErrorRange<T>(url: Option<string>, outcome: Transport, decode: Bytes -> Option<T>)
    ensures Request(url, outcome, decode).result != Failure(NoData)
    ensures Request(url, outcome, decode).result == Failure(InvalidURL) <==> url.None?
    ensures forall code: int :: Request(url, outcome, decode).result == Failure(ServerError(code)) ==> !IsSuccess(code)
  {
  }
}
