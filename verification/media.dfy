/** Platform values the image code passes around without looking inside. */
module Media {
  import opened Wrappers

  newtype byte = x: int | 0 <= x < 256

  /** `Data`. */
  type Bytes = seq<byte>

  /** A decoded `UIImage`; only its identity matters here. */
  datatype Image = Image(handle: nat)
}

/** HTTP responses as the networking code classifies them. */
module Http {
  import opened Wrappers
  import opened Media

  /** What `URLSession` hands back: an `HTTPURLResponse` or some other `URLResponse`. */
  datatype Response = NotHttp | HttpResponse(status: int, contentType: Option<string>)

  /** The success class 2xx of section 15.3 of RFC 9110, decided by `(200...299).contains(status)`. */
  predicate IsSuccess(status: int) {
    200 <= status <= 299
  }

  /** The `URLError.Code` values the clients tell apart. */
  datatype UrlErrorCode = NotConnectedToInternet | NetworkConnectionLost | TimedOut | OtherUrlError(code: int)

  /** An error thrown by `URLSession` or the platform, with its `localizedDescription`. */
  datatype SystemError =
    | UrlError(code: UrlErrorCode, localizedDescription: string)
    | OtherError(localizedDescription: string)

  /** What a `URLSession` data call does: throw, or hand back a body and a response. */
  datatype Transport = Threw(error: SystemError) | Responded(body: Bytes, response: Response)

  /** A response that passes both the `as? HTTPURLResponse` cast and the 2xx test. */
  predicate IsSuccessfulHttp(r: Response) {
    r.HttpResponse? && IsSuccess(r.status)
  }
}
