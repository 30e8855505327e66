/**
 * The UIKit variant's `ArtworkRepository`: which endpoint each fetch asks the API client
 * for, and how the decoded response becomes domain values.
 */
module ArtworkRepository {
  import opened Wrappers
  import opened Decimal
  import opened DomainModels
  import opened ArtworkDto
  import opened Endpoints

  /** `data.map { $0.toDomain() }`. */
  function MapToDomain(ds: seq<ArtworkDTO>): (r: seq<Artwork>)
    ensures |r| == |ds|
    ensures forall k :: 0 <= k < |ds| ==> r[k] == ToDomain(ds[k])
  {
    if |ds| == 0 then [] else [ToDomain(ds[0])] + MapToDomain(ds[1..])
  }

  /** One repository call: the endpoint it asked for and what it returns. */
  datatype Fetch<T, E> = Fetch(endpoint: Endpoint, result: Result<T, E>)

  /** `fetchArtworks(page:limit:)`; `response` is what the client returned for the request. */
  function FetchArtworks<E>(page: SwiftInt, limit: SwiftInt, response: Result<ArtworkListResponse, E>): (f: Fetch<PaginatedResponse, E>)
    ensures f.endpoint == Artworks(page, limit)
    ensures response.Failure? ==> f.result == Failure(response.error)
    ensures response.Success? ==> (f.result.Success? &&
      f.result.value.pagination == response.value.pagination &&
      f.result.value.data == MapToDomain(response.value.data))
  {
    Fetch(Artworks(page, limit), ToPage(response))
  }

  function ToPage<E>(response: Result<ArtworkListResponse, E>): Result<PaginatedResponse, E> {
    match response
    case Success(list) => Success(PaginatedResponse(MapToDomain(list.data), list.pagination))
    case Failure(e) => Failure(e)
  }

  /** `searchArtworks(query:page:limit:)`. */
  function SearchArtworks<E>(query: string, page: SwiftInt, limit: SwiftInt, response: Result<ArtworkSearchResponse, E>): (f: Fetch<PaginatedResponse, E>)
    ensures f.endpoint == Endpoints.SearchArtworks(query, page, limit)
    ensures response.Failure? ==> f.result == Failure(response.error)
    ensures response.Success? ==> (f.result.Success? &&
      f.result.value.pagination == response.value.pagination &&
      f.result.value.data == MapToDomain(response.value.data))
  {
    Fetch(Endpoints.SearchArtworks(query, page, limit), ToPage(response))
  }

  /** `fetchArtworkDetail(id:)`. */
  function FetchArtworkDetail<E>(id: SwiftInt, response: Result<ArtworkDetailResponse, E>): (f: Fetch<Artwork, E>)
    ensures f.endpoint == Endpoints.ArtworkDetail(id)
    ensures response.Failure? ==> f.result == Failure(response.error)
    ensures response.Success? ==> f.result == Success(ToDomain(response.value.data))
  {
    match response
    case Success(detail) => Fetch(Endpoints.ArtworkDetail(id), Success(ToDomain(detail.data)))
    case Failure(e) => Fetch(Endpoints.ArtworkDetail(id), Failure(e))
  }

  /** The number of artworks in `s` with the given id. */
  function CountId(s: seq<Artwork>, id: int): nat {
    if |s| == 0 then 0 else (if s[0].id == id then 1 else 0) + CountId(s[1..], id)
  }

  /** `filter { $0.id != excludeId }`. */
  function WithoutId(s: seq<Artwork>, id: int): (r: seq<Artwork>)
    ensures forall k :: 0 <= k < |r| ==> r[k].id != id && r[k] in s
    ensures forall k :: 0 <= k < |s| && s[k].id != id ==> s[k] in r
    ensures |r| + CountId(s, id) == |s|
  {
    if |s| == 0 then []
    else if s[0].id == id then WithoutId(s[1..], id)
    else [s[0]] + WithoutId(s[1..], id)
  }

  /** `s` appears in `t` in order, possibly with gaps. */
  predicate IsSubsequence(s: seq<Artwork>, t: seq<Artwork>) {
    |s| == 0 || (|t| > 0 && (if s[0] == t[0] then IsSubsequence(s[1..], t[1..]) else IsSubsequence(s, t[1..])))
  }

  /** The filter keeps the survivors in their original order. */
  lemma {:induction false} WithoutIdKeepsOrder(s: seq<Artwork>, id: int)
    ensures IsSubsequence(WithoutId(s, id), s)
    decreases |s|
  {
    if |s| > 0 {
      WithoutIdKeepsOrder(s[1..], id);
      if s[0].id == id {
        SubsequenceOfTail(WithoutId(s[1..], id), s);
      } else {
        var r := WithoutId(s, id);
        assert r[0] == s[0] && r[1..] == WithoutId(s[1..], id);
      }
    }
  }

  lemma {:induction false} SubsequenceOfTail(s: seq<Artwork>, t: seq<Artwork>)
    requires |t| > 0 && IsSubsequence(s, t[1..])
    ensures IsSubsequence(s, t)
    decreases |t|, 0
  {
    if |s| > 0 && s[0] == t[0] {
      SubsequenceDropHead(s, t[1..]);
    }
  }

  lemma {:induction false} SubsequenceDropHead(s: seq<Artwork>, t: seq<Artwork>)
    requires |s| > 0 && IsSubsequence(s, t)
    ensures IsSubsequence(s[1..], t)
    decreases |t|, 1
  {
    if s[0] != t[0] {
      SubsequenceDropHead(s, t[1..]);
      SubsequenceOfTail(s[1..], t);
    } else if |s| > 1 {
      SubsequenceOfTail(s[1..], t);
    }
  }

  /** `fetchArtworksByArtist(artistName:excludeId:limit:)`: the artist's works other than the one on screen. */
  function FetchArtworksByArtist<E>(artistName: string, excludeId: int, limit: SwiftInt, response: Result<ArtworkSearchResponse, E>): (f: Fetch<seq<Artwork>, E>)
    ensures f.endpoint == SearchByArtist(artistName, limit)
    ensures response.Failure? ==> f.result == Failure(response.error)
    ensures response.Success? ==> (f.result.Success? &&
      f.result.value == WithoutId(MapToDomain(response.value.data), excludeId))
  {
    match response
    case Success(list) => Fetch(SearchByArtist(artistName, limit), Success(WithoutId(MapToDomain(list.data), excludeId)))
    case Failure(e) => Fetch(SearchByArtist(artistName, limit), Failure(e))
  }

  /** What the artist's list contains: no excluded id, every other work, in order, nothing else. */
  lemma ArtistWorksExcludeCurrent<E>(artistName: string, excludeId: int, limit: SwiftInt, list: ArtworkSearchResponse)
    ensures var r := FetchArtworksByArtist<E>(artistName, excludeId, limit, Success(list)).result.value;
      var all := MapToDomain(list.data);
      && (forall a :: a in r ==> a.id != excludeId && a in all)
      && (forall a :: a in all && a.id != excludeId ==> a in r)
      && |r| == |list.data| - CountId(all, excludeId)
      && IsSubsequence(r, all)
  {
    WithoutIdKeepsOrder(MapToDomain(list.data), excludeId);
  }
}
