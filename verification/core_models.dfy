/** The SwiftUI variant's models (`Core/Models`) and its `APIError`. */
module CoreModels {
  import opened Wrappers
  import opened Decimal
  import opened Http

  datatype ArtworkSummary = ArtworkSummary(
    id: int, title: string, artistDisplay: Option<string>, dateDisplay: Option<string>, imageId: Option<string>)

  datatype Pagination = Pagination(total: int, limit: int, offset: int, totalPages: int, currentPage: int)

  datatype ApiConfig = ApiConfig(iiifUrl: string, websiteUrl: string)

  datatype ArtworkListResponse = ArtworkListResponse(pagination: Pagination, data: seq<ArtworkSummary>, config: ApiConfig)

  datatype ArtworkDetail = ArtworkDetail(
    id: int, title: string, artistDisplay: Option<string>, dateDisplay: Option<string>, imageId: Option<string>,
    artistId: Option<int>, description: Option<string>, dimensions: Option<string>, mediumDisplay: Option<string>,
    isPublicDomain: Option<bool>, altImageIds: Option<seq<string>>)

  datatype ApiError =
    | InvalidURL
    | NoData
    | DecodingError
    | ServerError(code: int)
    | NetworkError(error: SystemError)

  const ServerErrorPrefix: string := "Server error (Code: "
  const NetworkErrorPrefix: string := "Network error: "

  /** `errorDescription`: never nil. */
  function ErrorDescription(e: ApiError): (r: Option<string>)
    ensures r.Some?
    ensures e.NetworkError? ==>
      |r.value| >= |NetworkErrorPrefix| && r.value[..|NetworkErrorPrefix|] == NetworkErrorPrefix && r.value[|NetworkErrorPrefix|..] == e.error.localizedDescription
    ensures e.ServerError? ==>
      |r.value| > |ServerErrorPrefix| && r.value[..|ServerErrorPrefix|] == ServerErrorPrefix && r.value[|r.value| - 1] == ')'
  {
    match e
    case InvalidURL => Some("Invalid request URL")
    case NoData => Some("No data received from server")
    case DecodingError => Some("Failed to process server response")
    case ServerError(code) => Some(ServerErrorPrefix + IntToString(code) + ")")
    case NetworkError(error) => Some(NetworkErrorPrefix + error.localizedDescription)
  }

  /** The status code can be read back from a server error's description. */
  lemma ServerErrorDescriptionNamesCode(code: SwiftInt)
    ensures var d := ErrorDescription(ServerError(code)).value;
      ParseInt(d[|ServerErrorPrefix|..|d| - 1]) == Some(code)
  {
    var d := ErrorDescription(ServerError(code)).value;
    assert d[|ServerErrorPrefix|..|d| - 1] == IntToString(code);
    ParseIntRoundTrip(code);
  }

  /** Server errors with different codes are described differently. */
  lemma DescriptionsDistinguishErrors(a: ApiError, b: ApiError)
    requires a.ServerError? && b.ServerError? && a.code != b.code
    ensures ErrorDescription(a) != ErrorDescription(b)
  {
    var da := ErrorDescription(a).value;
    var db := ErrorDescription(b).value;
    if da == db {
      assert da[|ServerErrorPrefix|..|da| - 1] == IntToString(a.code);
      assert db[|ServerErrorPrefix|..|db| - 1] == IntToString(b.code);
      IntToStringInjective(a.code, b.code);
    }
  }
}
