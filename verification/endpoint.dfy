/** The UIKit variant's API endpoints: path and query of each request to the Art Institute of Chicago API. */
module Endpoints {
  import opened Wrappers
  import opened Decimal
  import opened Text
  import opened ArtworkDto

  datatype Endpoint =
    | Artworks(page: SwiftInt, limit: SwiftInt)
    | SearchArtworks(query: string, page: SwiftInt, limit: SwiftInt)
    | ArtworkDetail(id: SwiftInt)
    | SearchByArtist(artistName: string, limit: SwiftInt)

  /** `URLQueryItem`: a name and a value; every item the endpoints build carries a value. */
  datatype QueryItem = QueryItem(name: string, value: string)

  const BaseUrl: string := "https://api.artic.edu/api/v1"
  const ArtworksPath: string := "/artworks"

  /** The fields requested for list and search pages. */
  const ListFields: string :=
    "id,title,artist_display,date_display,date_start,date_end,image_id,medium_display,dimensions,credit_line,department_title,artwork_type_title"
  /** The fields requested for one artwork's detail: the list fields and two more. */
  const DetailFields: string := ListFields + ",description,place_of_origin"
  /** The fields requested for an artist's other works. */
  const ArtistFields: string := "id,title,artist_display,date_display,image_id"

  function Path(e: Endpoint): (r: string)
    ensures |r| >= |ArtworksPath| && r[..|ArtworksPath|] == ArtworksPath
    ensures e.ArtworkDetail? ==> |r| > |ArtworksPath| + 1 && r[|ArtworksPath|] == '/' && ParseInt(r[|ArtworksPath| + 1..]) == Some(e.id)
    ensures e.SearchByArtist? ==> r == ArtworksPath + "/search"
    ensures e.Artworks? || e.SearchArtworks? <==> r == ArtworksPath
  {
    match e
    case Artworks(_, _) => ArtworksPath
    case SearchArtworks(_, _, _) => ArtworksPath
    case ArtworkDetail(id) =>
      var r := ArtworksPath + "/" + IntToString(id);
      assert r[|ArtworksPath| + 1..] == IntToString(id);
      ParseIntRoundTrip(id);
      r
    case SearchByArtist(_, _) => ArtworksPath + "/search"
  }

  function FieldsFor(e: Endpoint): string {
    match e
    case Artworks(_, _) => ListFields
    case SearchArtworks(_, _, _) => ListFields
    case ArtworkDetail(_) => DetailFields
    case SearchByArtist(_, _) => ArtistFields
  }

  /** `queryItems`, in the order the source appends them; `fields` always comes last. */
  function QueryItems(e: Endpoint): (items: seq<QueryItem>)
    ensures |items| > 0 && items[|items| - 1] == QueryItem("fields", FieldsFor(e))
    ensures forall k :: 0 <= k < |items| - 1 ==> items[k].name != "fields"
  {
    match e
    case Artworks(page, limit) =>
      [QueryItem("page", IntToString(page)), QueryItem("limit", IntToString(limit)), QueryItem("fields", ListFields)]
    case SearchArtworks(query, page, limit) =>
      [QueryItem("q", query), QueryItem("page", IntToString(page)), QueryItem("limit", IntToString(limit)),
       QueryItem("fields", ListFields)]
    case ArtworkDetail(_) =>
      [QueryItem("fields", DetailFields)]
    case SearchByArtist(artistName, limit) =>
      [QueryItem("q", artistName), QueryItem("limit", IntToString(limit)), QueryItem("fields", ArtistFields)]
  }

  /** The value of the first item called `name`, if any. */
  function ItemValue(items: seq<QueryItem>, name: string): (r: Option<string>)
    ensures r.None? <==> forall k :: 0 <= k < |items| ==> items[k].name != name
    ensures r.Some? ==> exists k :: 0 <= k < |items| && items[k] == QueryItem(name, r.value)
  {
    if |items| == 0 then None
    else if items[0].name == name then Some(items[0].value)
    else
      var r := ItemValue(items[1..], name);
      assert forall k :: 1 <= k < |items| ==> items[1..][k - 1] == items[k];
      r
  }

  /** What each request asks for, read back from its query items. */
  lemma QueryItemsCarryArguments(e: Endpoint)
    ensures e.Artworks? || e.SearchArtworks? ==>
      ItemValue(QueryItems(e), "page").Some? && ParseInt(ItemValue(QueryItems(e), "page").value) == Some(e.page)
    ensures e.ArtworkDetail? || e.SearchByArtist? ==> ItemValue(QueryItems(e), "page").None?
    ensures !e.ArtworkDetail? ==>
      ItemValue(QueryItems(e), "limit").Some? && ParseInt(ItemValue(QueryItems(e), "limit").value) == Some(e.limit)
    ensures e.SearchArtworks? ==> ItemValue(QueryItems(e), "q") == Some(e.query)
    ensures e.SearchByArtist? ==> ItemValue(QueryItems(e), "q") == Some(e.artistName)
    ensures e.Artworks? || e.ArtworkDetail? ==> ItemValue(QueryItems(e), "q").None?
  {
    match e
    case Artworks(page, limit) =>
      ParseIntRoundTrip(page);
      ParseIntRoundTrip(limit);
    case SearchArtworks(query, page, limit) =>
      SearchItemsCarryArguments(query, page, limit);
    case ArtworkDetail(_) =>
    case SearchByArtist(_, limit) =>
      ParseIntRoundTrip(limit);
  }

  lemma SearchItemsCarryArguments(query: string, page: SwiftInt, limit: SwiftInt)
    ensures var items := QueryItems(SearchArtworks(query, page, limit));
      && ItemValue(items, "q") == Some(query)
      && ItemValue(items, "page") == Some(IntToString(page))
      && ItemValue(items, "limit") == Some(IntToString(limit))
    ensures ParseInt(IntToString(page)) == Some(page) && ParseInt(IntToString(limit)) == Some(limit)
  {
    var items := QueryItems(SearchArtworks(query, page, limit));
    assert items[1..][1..] == [QueryItem("limit", IntToString(limit)), QueryItem("fields", ListFields)];
    assert ItemValue(items[1..][1..], "limit") == Some(IntToString(limit));
    ParseIntRoundTrip(page);
    ParseIntRoundTrip(limit);
  }

  /** `url`: `URLComponents` built from base and path with the query items attached; nil when that fails. */
  function Url(e: Endpoint, build: (string, seq<QueryItem>) -> Option<string>): Option<string> {
    build(BaseUrl + Path(e), QueryItems(e))
  }
}
