/**
 * The SwiftUI variant's `ArtworkAPIService`: the request URL of each call, written out
 * as text, and the classification of what comes back.
 */
module ArtworkApiService {
  import opened Wrappers
  import opened Decimal
  import opened Text
  import opened Media
  import opened Http
  import opened CoreModels
  import opened UrlEncoding

  const BaseUrl: string := "https://api.artic.edu/api/v1"
  /** The fields a list request asks for, and the longer list of the detail request. */
  const SummaryFieldNames: seq<string> := ["id", "title", "artist_display", "date_display", "image_id"]
  const DetailFieldNames: seq<string> :=
    SummaryFieldNames + ["artist_id", "description", "dimensions", "medium_display", "is_public_domain", "alt_image_ids"]
  const SummaryFields: string := Join(SummaryFieldNames, ',')
  const DetailFields: string := Join(DetailFieldNames, ',')
  /** The year filter's two bounds are a range clause on `date_start`. */
  const RangeKey: string := "query[bool][must][][range][date_start]"
  const GteKey: string := RangeKey + "[gte]"
  const LteKey: string := RangeKey + "[lte]"
  const ArtistKey: string := "query[term][artist_id]"

  const ArtworksPath: string := BaseUrl + "/artworks"
  const SearchPath: string := BaseUrl + "/artworks/search"

  /** `fetchArtworks(page:limit:)`, page 1 and 20 per page unless told otherwise. */
  function FetchArtworksUrl(page: SwiftInt := 1, limit: SwiftInt := 20): string {
    ArtworksPath + "?" + "page=" + IntToString(page) + "&" + "limit=" + IntToString(limit) + "&" + "fields=" + SummaryFields
  }

  /** `searchArtworks(query:limit:)`; `encode` is `addingPercentEncoding(withAllowedCharacters: .urlQueryAllowed)`. */
  function SearchArtworksUrl(query: string, encode: string -> Option<string>, limit: SwiftInt := 20): string {
    var encodedQuery := encode(query).GetOr(query);
    SearchPath + "?" + "q=" + encodedQuery + "&" + "limit=" + IntToString(limit) + "&" + "fields=" + SummaryFields
  }

  /** `filterArtworksByYear(startYear:endYear:limit:)`: a range query on `date_start`, 100 per page by default. */
  function FilterArtworksByYearUrl(startYear: SwiftInt, endYear: SwiftInt, limit: SwiftInt := 100): string {
    SearchPath + "?" + GteKey + "=" + IntToString(startYear) + "&" + LteKey + "=" + IntToString(endYear) +
    "&" + "limit=" + IntToString(limit) + "&" + "fields=" + SummaryFields
  }

  function FetchArtworkDetailUrl(id: SwiftInt): string {
    ArtworksPath + "/" + IntToString(id) + "?" + "fields=" + DetailFields
  }

  function FetchArtworksByArtistUrl(artistId: SwiftInt, limit: SwiftInt := 20): string {
    SearchPath + "?" + ArtistKey + "=" + IntToString(artistId) + "&" + "limit=" + IntToString(limit) +
    "&" + "fields=" + SummaryFields
  }

  /** The query part of a URL: everything after the first `?`. */
  function QueryString(url: string): string {
    if '?' in url then url[IndexOf(url, '?') + 1..] else ""
  }

  /** The `name=value` parameters of the query, split at every `&`. */
  function Params(url: string): seq<string> {
    Split(QueryString(url), '&')
  }

  /** The value of the first parameter called `name`, as a server reading the query takes it. */
  function ParamValue(params: seq<string>, name: string): (r: Option<string>)
    ensures r.None? <==> forall k :: 0 <= k < |params| ==> !OccursAt(params[k], name + "=", 0)
    ensures r.Some? ==> exists k :: 0 <= k < |params| && params[k] == name + "=" + r.value &&
                                    forall j :: 0 <= j < k ==> !OccursAt(params[j], name + "=", 0)
  {
    if |params| == 0 then None
    else
      var p := params[0];
      var key := name + "=";
      if |p| >= |key| && p[..|key|] == key then
        assert p == key + p[|key|..];
        Some(p[|key|..])
      else
        var r := ParamValue(params[1..], name);
        assert !OccursAt(params[0], key, 0);
        assert forall k :: 1 <= k < |params| ==> params[1..][k - 1] == params[k];
        if r.Some? then
          var k :| 0 <= k < |params[1..]| && params[1..][k] == key + r.value &&
                   forall j :: 0 <= j < k ==> !OccursAt(params[1..][j], key, 0);
          assert params[k + 1] == key + r.value;
          r
        else r
  }

  lemma NoAmpersandInNumber(n: int)
    ensures '&' !in IntToString(n) && '?' !in IntToString(n)
  {
  }

  /** The paths before the query hold no `?`. */
  lemma PathsLackQuestionMark()
    ensures '?' !in ArtworksPath && '?' !in SearchPath && '?' !in ArtworksPath + "/"
  {
  }

  /** The field lists hold no `&`. */
  lemma FieldsLackAmpersand()
    ensures '&' !in SummaryFields && '&' !in DetailFields
  {
    forall k | 0 <= k < |DetailFieldNames| ensures '&' !in DetailFieldNames[k] {
    }
    JoinLacks(SummaryFieldNames, ',', '&');
    JoinLacks(DetailFieldNames, ',', '&');
  }

  lemma RangeKeysLackAmpersand()
    ensures '&' !in GteKey && '&' !in LteKey
  {
    forall k | 0 <= k < |RangeKey| ensures RangeKey[k] != '&' {
    }
    assert '&' !in "[gte]" && '&' !in "[lte]";
  }

  lemma ArtistKeyLacksAmpersand()
    ensures '&' !in ArtistKey
  {
    forall k | 0 <= k < |ArtistKey| ensures ArtistKey[k] != '&' {
    }
  }

  lemma JoinThree(a: string, b: string, c: string)
    ensures Join([a, b, c], '&') == a + "&" + b + "&" + c
  {
    assert [a, b, c][1..] == [b, c];
    assert [b, c][1..] == [c];
    assert Join([c], '&') == c;
    assert Join([b, c], '&') == b + ['&'] + c;
    assert Join([a, b, c], '&') == a + ['&'] + (b + ['&'] + c);
  }

  lemma JoinFour(a: string, b: string, c: string, d: string)
    ensures Join([a, b, c, d], '&') == a + "&" + b + "&" + c + "&" + d
  {
    assert [a, b, c, d][1..] == [b, c, d];
    JoinThree(b, c, d);
    assert Join([a, b, c, d], '&') == a + ['&'] + (b + "&" + c + "&" + d);
  }

  /** A query written as three two-part parameters is their `&`-join. */
  lemma QueryOfTwoTwoTwo(p: string, a1: string, a2: string, b1: string, b2: string, c1: string, c2: string)
    ensures p + "?" + a1 + a2 + "&" + b1 + b2 + "&" + c1 + c2 == p + "?" + Join([a1 + a2, b1 + b2, c1 + c2], '&')
  {
    JoinThree(a1 + a2, b1 + b2, c1 + c2);
  }

  lemma QueryOfThreeTwoTwo(p: string, a1: string, a2: string, a3: string, b1: string, b2: string, c1: string, c2: string)
    ensures p + "?" + a1 + a2 + a3 + "&" + b1 + b2 + "&" + c1 + c2 ==
      p + "?" + Join([a1 + a2 + a3, b1 + b2, c1 + c2], '&')
  {
    JoinThree(a1 + a2 + a3, b1 + b2, c1 + c2);
  }

  lemma QueryOfThreeThreeTwoTwo(p: string, a1: string, a2: string, a3: string, b1: string, b2: string, b3: string,
                                c1: string, c2: string, d1: string, d2: string)
    ensures p + "?" + a1 + a2 + a3 + "&" + b1 + b2 + b3 + "&" + c1 + c2 + "&" + d1 + d2 ==
      p + "?" + Join([a1 + a2 + a3, b1 + b2 + b3, c1 + c2, d1 + d2], '&')
  {
    JoinFour(a1 + a2 + a3, b1 + b2 + b3, c1 + c2, d1 + d2);
  }

  /** The part of a URL before its query. */
  function Path(url: string): string {
    BeforeFirst(url, '?')
  }

  /** The first parameter, when it is `name=value`, gives the value. */
  lemma ParamValueFirst(params: seq<string>, name: string, value: string)
    requires |params| > 0 && params[0] == name + "=" + value
    ensures ParamValue(params, name) == Some(value)
  {
    assert params[0][..|name + "="|] == name + "=";
  }

  lemma QueryStringAfter(prefix: string, query: string)
    requires '?' !in prefix
    ensures QueryString(prefix + "?" + query) == query
    ensures Path(prefix + "?" + query) == prefix
  {
    var url := prefix + "?" + query;
    assert url[|prefix|] == '?';
    assert IndexOf(url, '?') == |prefix|;
    assert url[|prefix| + 1..] == query;
    assert url[..|prefix|] == prefix;
  }

  /** A URL whose query is `&`-joined `&`-free parameters has exactly those parameters. */
  lemma JoinedParams(prefix: string, pieces: seq<string>)
    requires '?' !in prefix && |pieces| > 0
    requires forall k :: 0 <= k < |pieces| ==> '&' !in pieces[k]
    ensures Params(prefix + "?" + Join(pieces, '&')) == pieces
    ensures Path(prefix + "?" + Join(pieces, '&')) == prefix
  {
    QueryStringAfter(prefix, Join(pieces, '&'));
    SplitJoin(pieces, '&');
  }

  /** The list request carries exactly page, limit and fields, in that order, to the artworks path. */
  lemma FetchArtworksParams(page: SwiftInt, limit: SwiftInt)
    ensures Params(FetchArtworksUrl(page, limit)) ==
      ["page=" + IntToString(page), "limit=" + IntToString(limit), "fields=" + SummaryFields]
    ensures Path(FetchArtworksUrl(page, limit)) == ArtworksPath
  {
    var pieces := ["page=" + IntToString(page), "limit=" + IntToString(limit), "fields=" + SummaryFields];
    NoAmpersandInNumber(page);
    NoAmpersandInNumber(limit);
    PathsLackQuestionMark();
    FieldsLackAmpersand();
    assert '&' !in "page=" && '&' !in "limit=" && '&' !in "fields=";
    QueryOfTwoTwoTwo(ArtworksPath, "page=", IntToString(page), "limit=", IntToString(limit), "fields=", SummaryFields);
    JoinedParams(ArtworksPath, pieces);
  }

  /** The default list request asks for page 1, 20 per page. */
  lemma FetchArtworksDefaults()
    ensures FetchArtworksUrl() == FetchArtworksUrl(1, 20)
  {
  }

  /**
   * The year filter sends exactly the lower bound, the upper bound, the limit (100 unless
   * told otherwise) and the fields, to the search path.
   */
  lemma FilterArtworksByYearParams(startYear: SwiftInt, endYear: SwiftInt, limit: SwiftInt)
    ensures Params(FilterArtworksByYearUrl(startYear, endYear, limit)) ==
      [GteKey + "=" + IntToString(startYear), LteKey + "=" + IntToString(endYear),
       "limit=" + IntToString(limit), "fields=" + SummaryFields]
    ensures Path(FilterArtworksByYearUrl(startYear, endYear, limit)) == SearchPath
    ensures FilterArtworksByYearUrl(startYear, endYear) == FilterArtworksByYearUrl(startYear, endYear, 100)
  {
    var pieces := [GteKey + "=" + IntToString(startYear), LteKey + "=" + IntToString(endYear),
                   "limit=" + IntToString(limit), "fields=" + SummaryFields];
    NoAmpersandInNumber(startYear);
    NoAmpersandInNumber(endYear);
    NoAmpersandInNumber(limit);
    RangeKeysLackAmpersand();
    FieldsLackAmpersand();
    PathsLackQuestionMark();
    assert '&' !in "=" && '&' !in "limit=" && '&' !in "fields=";
    QueryOfThreeThreeTwoTwo(SearchPath, GteKey, "=", IntToString(startYear), LteKey, "=", IntToString(endYear),
                            "limit=", IntToString(limit), "fields=", SummaryFields);
    JoinedParams(SearchPath, pieces);
  }

  /** The artist request sends exactly the artist id, the limit and the fields, to the search path. */
  lemma FetchArtworksByArtistParams(artistId: SwiftInt, limit: SwiftInt)
    ensures Params(FetchArtworksByArtistUrl(artistId, limit)) ==
      [ArtistKey + "=" + IntToString(artistId), "limit=" + IntToString(limit), "fields=" + SummaryFields]
    ensures Path(FetchArtworksByArtistUrl(artistId, limit)) == SearchPath
  {
    var pieces := [ArtistKey + "=" + IntToString(artistId), "limit=" + IntToString(limit), "fields=" + SummaryFields];
    NoAmpersandInNumber(artistId);
    NoAmpersandInNumber(limit);
    ArtistKeyLacksAmpersand();
    FieldsLackAmpersand();
    PathsLackQuestionMark();
    assert '&' !in "=" && '&' !in "limit=" && '&' !in "fields=";
    QueryOfThreeTwoTwo(SearchPath, ArtistKey, "=", IntToString(artistId), "limit=", IntToString(limit),
                       "fields=", SummaryFields);
    JoinedParams(SearchPath, pieces);
  }

  /** The detail request names the artwork in its path, which reads back as the id, and asks for the detail fields. */
  lemma FetchArtworkDetailParts(id: SwiftInt)
    ensures Path(FetchArtworkDetailUrl(id)) == ArtworksPath + "/" + IntToString(id)
    ensures Params(FetchArtworkDetailUrl(id)) == ["fields=" + DetailFields]
    ensures ParseInt(IntToString(id)) == Some(id)
  {
    var prefix := ArtworksPath + "/" + IntToString(id);
    NoAmpersandInNumber(id);
    PathsLackQuestionMark();
    FieldsLackAmpersand();
    assert '&' !in "fields=";
    assert FetchArtworkDetailUrl(id) == prefix + "?" + Join(["fields=" + DetailFields], '&');
    JoinedParams(prefix, ["fields=" + DetailFields]);
    ParseIntRoundTrip(id);
  }

  /**
   * The search request carries the encoded query, the limit and the fields, provided the
   * encoded query holds no `&`; when encoding fails the raw query is sent.
   */
  lemma SearchArtworksParams(query: string, encode: string -> Option<string>, limit: SwiftInt)
    requires '&' !in encode(query).GetOr(query)
    ensures Params(SearchArtworksUrl(query, encode, limit)) ==
      ["q=" + encode(query).GetOr(query), "limit=" + IntToString(limit), "fields=" + SummaryFields]
    ensures ParamValue(Params(SearchArtworksUrl(query, encode, limit)), "q") == Some(encode(query).GetOr(query))
    ensures Path(SearchArtworksUrl(query, encode, limit)) == SearchPath
  {
    var e := encode(query).GetOr(query);
    var ps := Params(SearchArtworksUrl(query, encode, limit));
    assert SearchArtworksUrl(query, encode, limit) ==
      SearchPath + "?" + "q=" + e + "&" + "limit=" + IntToString(limit) + "&" + "fields=" + SummaryFields;
    SearchParamsOf(e, limit);
    assert "q" + "=" == "q=";
    ParamValueFirst(ps, "q", e);
  }

  lemma SearchParamsOf(e: string, limit: SwiftInt)
    requires '&' !in e
    ensures var url := SearchPath + "?" + "q=" + e + "&" + "limit=" + IntToString(limit) + "&" + "fields=" + SummaryFields;
      && Params(url) == ["q=" + e, "limit=" + IntToString(limit), "fields=" + SummaryFields]
      && Path(url) == SearchPath
  {
    NoAmpersandInNumber(limit);
    FieldsLackAmpersand();
    PathsLackQuestionMark();
    assert '&' !in "q=" && '&' !in "limit=" && '&' !in "fields=";
    QueryOfTwoTwoTwo(SearchPath, "q=", e, "limit=", IntToString(limit), "fields=", SummaryFields);
    JoinedParams(SearchPath, ["q=" + e, "limit=" + IntToString(limit), "fields=" + SummaryFields]);
  }

  /** The encoder the search uses: `addingPercentEncoding(withAllowedCharacters: .urlQueryAllowed)`. */
  function QueryAllowedEncode(s: string): (r: Option<string>)
    ensures r.Some?
  {
    Some(PercentEncode(s, UrlQueryAllowed))
  }

  /** The search for `a&b` reaches the server as a search for `a`. */
  lemma AmpersandExample()
    ensures ParamValue(Params(SearchArtworksUrl("a&b", QueryAllowedEncode, 20)), "q") == Some("a")
  {
    var q := "a&b";
    assert q[0] == 'a' && q[1] == '&';
    assert "a" == q[..1];
    IndexOfUnique(q, '&', 1);
    assert BeforeFirst(q, '&') == "a";
    assert "a"[1..] == "";
    assert PercentEncode("a", UrlQueryAllowed) == "a";
    AmpersandCutsSearchQuery(q, 20);
  }

  /**
   * As written, `.urlQueryAllowed` leaves `&` alone, so a query holding `&` is cut at its
   * first `&`: the server's `q` is the encoding of that first part only (for `a&b`, just `a`).
   */
  lemma AmpersandCutsSearchQuery(query: string, limit: SwiftInt)
    requires '&' in query
    ensures ParamValue(Params(SearchArtworksUrl(query, QueryAllowedEncode, limit)), "q") ==
      Some(PercentEncode(BeforeFirst(query, '&'), UrlQueryAllowed))
    ensures PercentEncode(BeforeFirst(query, '&'), UrlQueryAllowed) != PercentEncode(query, UrlQueryAllowed)
  {
    var encPre := PercentEncode(BeforeFirst(query, '&'), UrlQueryAllowed);
    var ps := Params(SearchArtworksUrl(query, QueryAllowedEncode, limit));
    AsWrittenFirstParam(query, limit);
    assert ps[0] == "q=" + encPre;
    assert "q" + "=" == "q=";
    ParamValueFirst(ps, "q", encPre);
    assert encPre != PercentEncode(query, UrlQueryAllowed) by {
      EncodingCutsAtAmpersand(query);
    }
  }

  lemma AsWrittenFirstParam(query: string, limit: SwiftInt)
    requires '&' in query
    ensures Params(SearchArtworksUrl(query, QueryAllowedEncode, limit))[0] ==
      "q=" + PercentEncode(BeforeFirst(query, '&'), UrlQueryAllowed)
  {
    var enc := PercentEncode(query, UrlQueryAllowed);
    var rest := "&" + "limit=" + IntToString(limit) + "&" + "fields=" + SummaryFields;
    EncodingCutsAtAmpersand(query);
    assert Params(SearchArtworksUrl(query, QueryAllowedEncode, limit))[0] == BeforeFirst("q=" + (enc + rest), '&') by {
      SearchFirstParam(query, QueryAllowedEncode, limit);
      assert QueryAllowedEncode(query).GetOr(query) == enc;
    }
    assert BeforeFirst("q=" + (enc + rest), '&') == "q=" + BeforeFirst(enc, '&') by {
      BeforeFirstPrefix(enc, rest, '&');
      BeforeFirstAppend("q=", enc + rest, '&');
    }
  }

  lemma EncodingCutsAtAmpersand(query: string)
    requires '&' in query
    ensures '&' in PercentEncode(query, UrlQueryAllowed)
    ensures BeforeFirst(PercentEncode(query, UrlQueryAllowed), '&') == PercentEncode(BeforeFirst(query, '&'), UrlQueryAllowed)
    ensures |PercentEncode(BeforeFirst(query, '&'), UrlQueryAllowed)| < |PercentEncode(query, UrlQueryAllowed)|
  {
    assert UrlQueryAllowed('&') by {
      assert "!$&'()*+,;="[2] == '&';
    }
    EncodingCutsAt(query, UrlQueryAllowed, '&');
  }

  /** The search URL's first parameter runs from `q=` to the first `&` anywhere after it. */
  lemma SearchFirstParam(query: string, encode: string -> Option<string>, limit: SwiftInt)
    ensures Params(SearchArtworksUrl(query, encode, limit))[0] ==
      BeforeFirst("q=" + (encode(query).GetOr(query) + ("&" + "limit=" + IntToString(limit) + "&" + "fields=" + SummaryFields)), '&')
  {
    SearchQueryString(query, encode, limit);
    SplitFirst(QueryString(SearchArtworksUrl(query, encode, limit)), '&');
  }

  lemma SearchQueryString(query: string, encode: string -> Option<string>, limit: SwiftInt)
    ensures QueryString(SearchArtworksUrl(query, encode, limit)) ==
      "q=" + (encode(query).GetOr(query) + ("&" + "limit=" + IntToString(limit) + "&" + "fields=" + SummaryFields))
  {
    var e := encode(query).GetOr(query);
    var n := IntToString(limit);
    PathsLackQuestionMark();
    QueryStringAfter(SearchPath, "q=" + e + "&" + "limit=" + n + "&" + "fields=" + SummaryFields);
    Regroup(SearchPath + "?", "q=", e, "&", "limit=", n, "&", "fields=", SummaryFields);
  }

  lemma Regroup(a: string, b: string, c: string, d: string, e: string, f: string, g: string, h: string, i: string)
    ensures a + b + c + d + e + f + g + h + i == a + (b + c + d + e + f + g + h + i)
    ensures b + c + d + e + f + g + h + i == b + (c + (d + e + f + g + h + i))
  {
  }

  /** The intended search URL: the query value escapes `&` as well. */
  function SearchArtworksUrlCorrected(query: string, limit: SwiftInt := 20): string {
    SearchPath + "?" + "q=" + PercentEncode(query, QueryValueAllowed) + "&" + "limit=" + IntToString(limit) + "&" +
    "fields=" + SummaryFields
  }

  function QueryValueEncode(s: string): (r: Option<string>)
    ensures r.Some?
  {
    Some(PercentEncode(s, QueryValueAllowed))
  }

  lemma CorrectedUrlShape(query: string, limit: SwiftInt)
    ensures SearchArtworksUrlCorrected(query, limit) == SearchArtworksUrl(query, QueryValueEncode, limit)
    ensures '&' !in QueryValueEncode(query).GetOr(query)
  {
    EncodingOmits(query, QueryValueAllowed, '&');
  }

  /** With `&` escaped, every query yields exactly three parameters, `q` holding the whole encoded query. */
  lemma SearchCorrectedKeepsQuery(query: string, limit: SwiftInt)
    ensures Params(SearchArtworksUrlCorrected(query, limit)) ==
      ["q=" + PercentEncode(query, QueryValueAllowed), "limit=" + IntToString(limit), "fields=" + SummaryFields]
    ensures ParamValue(Params(SearchArtworksUrlCorrected(query, limit)), "q") == Some(PercentEncode(query, QueryValueAllowed))
  {
    CorrectedUrlShape(query, limit);
    SearchArtworksParams(query, QueryValueEncode, limit);
  }

  /** The value of `q` decodes back to an ASCII query unchanged. */
  lemma SearchCorrectedDecodesBack(query: string)
    requires IsAscii(query)
    ensures PercentDecode(PercentEncode(query, QueryValueAllowed)) == query
  {
    DecodeEncode(query, QueryValueAllowed);
  }

  /**
   * How a request ends, given whether its URL parsed, what the transport did and what the
   * decoder made of the body: exactly one of the five errors, or the decoded value.
   */
  ghost predicate Classified<T>(parsed: bool, outcome: Transport, decode: Bytes -> Option<T>, r: Result<T, ApiError>) {
    && (r == Failure(InvalidURL) <==> !parsed)
    && (r.Failure? && r.error.NetworkError? <==> parsed && outcome.Threw?)
    && (r.Failure? && r.error.NetworkError? ==> r.error.error == outcome.error)
    && (r == Failure(NoData) <==> parsed && outcome.Responded? && outcome.response.NotHttp?)
    && (r.Failure? && r.error.ServerError? <==>
         parsed && outcome.Responded? && outcome.response.HttpResponse? && !IsSuccess(outcome.response.status))
    && (r.Failure? && r.error.ServerError? ==> r.error.code == outcome.response.status)
    && (r == Failure(DecodingError) <==>
         parsed && outcome.Responded? && IsSuccessfulHttp(outcome.response) && decode(outcome.body).None?)
    && (r.Success? <==> parsed && outcome.Responded? && IsSuccessfulHttp(outcome.response) && decode(outcome.body).Some?)
    && (r.Success? ==> outcome.Responded? && decode(outcome.body) == Some(r.value))
  }

  /** The classification leaves no choice: at most one result fits a given request. */
  lemma ClassifiedIsUnique<T>(parsed: bool, outcome: Transport, decode: Bytes -> Option<T>,
                              r1: Result<T, ApiError>, r2: Result<T, ApiError>)
    requires Classified(parsed, outcome, decode, r1) && Classified(parsed, outcome, decode, r2)
    ensures r1 == r2
  {
  }

  /**
   * `performRequest(urlString:)`: `parses` is `URL(string:)` accepting the text, `outcome`
   * what `URLSession.shared.data(from:)` does, `decode` the default-keyed `JSONDecoder`.
   */
  function PerformRequest<T>(urlString: string, parses: string -> bool, outcome: Transport, decode: Bytes -> Option<T>)
    : (r: Result<T, ApiError>)
    ensures Classified(parses(urlString), outcome, decode, r)
  {
    if !parses(urlString) then Failure(InvalidURL)
    else
      match outcome
      case Threw(error) => Failure(NetworkError(error))
      case Responded(body, response) =>
        match response
        case NotHttp => Failure(NoData)
        case HttpResponse(status, _) =>
          if !IsSuccess(status) then Failure(ServerError(status))
          else
            match decode(body)
            case Some(v) => Success(v)
            case None => Failure(DecodingError)
  }

  /** The `data` wrapper the detail call decodes. */
  datatype DetailResponse = DetailResponse(data: ArtworkDetail)

  /** The detail inside a decoded wrapper. */
  function DetailData(decoded: Option<DetailResponse>): Option<ArtworkDetail> {
    match decoded
    case Some(response) => Some(response.data)
    case None => None
  }

  /** `fetchArtworks(page:limit:)` given how the platform treats its URL. */
  function FetchArtworks(page: SwiftInt, limit: SwiftInt, parses: string -> bool, outcome: Transport,
                         decode: Bytes -> Option<ArtworkListResponse>): (r: Result<ArtworkListResponse, ApiError>)
    ensures Classified(parses(FetchArtworksUrl(page, limit)), outcome, decode, r)
  {
    PerformRequest(FetchArtworksUrl(page, limit), parses, outcome, decode)
  }

  function SearchArtworks(query: string, limit: SwiftInt, encode: string -> Option<string>, parses: string -> bool,
                          outcome: Transport, decode: Bytes -> Option<ArtworkListResponse>)
    : (r: Result<ArtworkListResponse, ApiError>)
    ensures Classified(parses(SearchArtworksUrl(query, encode, limit)), outcome, decode, r)
  {
    PerformRequest(SearchArtworksUrl(query, encode, limit), parses, outcome, decode)
  }

  function FilterArtworksByYear(startYear: SwiftInt, endYear: SwiftInt, limit: SwiftInt, parses: string -> bool,
                                outcome: Transport, decode: Bytes -> Option<ArtworkListResponse>)
    : (r: Result<ArtworkListResponse, ApiError>)
    ensures Classified(parses(FilterArtworksByYearUrl(startYear, endYear, limit)), outcome, decode, r)
  {
    PerformRequest(FilterArtworksByYearUrl(startYear, endYear, limit), parses, outcome, decode)
  }

  /** `fetchArtworkDetail(id:)`: the detail is unwrapped from the response's `data`. */
  function FetchArtworkDetail(id: SwiftInt, parses: string -> bool, outcome: Transport,
                              decode: Bytes -> Option<DetailResponse>): (r: Result<ArtworkDetail, ApiError>)
    ensures Classified(parses(FetchArtworkDetailUrl(id)), outcome, b => DetailData(decode(b)), r)
  {
    match PerformRequest(FetchArtworkDetailUrl(id), parses, outcome, decode)
    case Success(response) => Success(response.data)
    case Failure(e) => Failure(e)
  }

  function FetchArtworksByArtist(artistId: SwiftInt, limit: SwiftInt, parses: string -> bool, outcome: Transport,
                                 decode: Bytes -> Option<ArtworkListResponse>): (r: Result<ArtworkListResponse, ApiError>)
    ensures Classified(parses(FetchArtworksByArtistUrl(artistId, limit)), outcome, decode, r)
  {
    PerformRequest(FetchArtworksByArtistUrl(artistId, limit), parses, outcome, decode)
  }
}
