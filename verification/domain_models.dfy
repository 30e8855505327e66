/** The UIKit variant's domain layer: the `Artwork` model and paginated results. */
module DomainModels {
  import opened Wrappers
  import Text

  datatype Artwork = Artwork(
    id: int,
    title: string,
    artistDisplay: Option<string>,
    dateDisplay: Option<string>,
    dateStart: Option<int>,
    dateEnd: Option<int>,
    mediumDisplay: Option<string>,
    dimensions: Option<string>,
    creditLine: Option<string>,
    departmentTitle: Option<string>,
    artworkTypeTitle: Option<string>,
    imageId: Option<string>,
    description: Option<string>,
    placeOfOrigin: Option<string>
  )

  /** Page bookkeeping returned with every list response. */
  datatype Pagination = Pagination(total: int, limit: int, offset: int, totalPages: int, currentPage: int)

  /** `PaginatedResponse<Artwork>`. */
  datatype PaginatedResponse = PaginatedResponse(data: seq<Artwork>, pagination: Pagination)

  const IiifBase: string := "https://www.artic.edu/iiif/2/"
  const UnknownArtist: string := "Unknown Artist"
  const UnknownDate: string := "Unknown Date"

  /** An IIIF image request for the full region at the given size, unrotated, default quality, JPEG. */
  function IiifUrl(imageId: string, size: string): string {
    IiifBase + imageId + "/full/" + size + "/0/default.jpg"
  }

  /** `URL(string:)` applied to an IIIF URL for the artwork's image, nil without an image id. */
  function IiifImageUrl(a: Artwork, size: string, parses: string -> bool): (r: Option<string>)
    ensures a.imageId.None? ==> r.None?
    ensures r.Some? ==> a.imageId.Some? && r.value == IiifUrl(a.imageId.value, size) && parses(r.value)
    ensures a.imageId.Some? && parses(IiifUrl(a.imageId.value, size)) ==> r.Some?
  {
    match a.imageId
    case None => None
    case Some(id) => if parses(IiifUrl(id, size)) then Some(IiifUrl(id, size)) else None
  }

  /** `imageURL`: 843 pixels wide. */
  function ImageUrl(a: Artwork, parses: string -> bool): Option<string> {
    IiifImageUrl(a, "843,", parses)
  }

  /** `highResImageURL`: the full-size image. */
  function HighResImageUrl(a: Artwork, parses: string -> bool): Option<string> {
    IiifImageUrl(a, "full", parses)
  }

  /** `thumbnailURL`: 400 pixels wide. */
  function ThumbnailUrl(a: Artwork, parses: string -> bool): Option<string> {
    IiifImageUrl(a, "400,", parses)
  }

  /** The three image URLs of one artwork differ exactly in the size segment. */
  lemma ImageUrlsDifferOnlyInSize(imageId: string, s1: string, s2: string)
    ensures IiifUrl(imageId, s1) == IiifUrl(imageId, s2) <==> s1 == s2
  {
    if IiifUrl(imageId, s1) == IiifUrl(imageId, s2) {
      var prefix := IiifBase + imageId + "/full/";
      var u1 := IiifUrl(imageId, s1);
      assert u1[|prefix|..] == s1 + "/0/default.jpg";
      assert u1[|prefix|..] == s2 + "/0/default.jpg";
      assert s1 == (s1 + "/0/default.jpg")[..|s1|];
    }
  }

  /** `artistName`: the first line of `artistDisplay`, or "Unknown Artist" without one. */
  function ArtistName(a: Artwork): (r: string)
    ensures a.artistDisplay.None? ==> r == UnknownArtist
    ensures a.artistDisplay.Some? ==> '\n' !in r && |r| <= |a.artistDisplay.value|
    ensures a.artistDisplay.Some? ==> r == a.artistDisplay.value[..|r|]
    ensures a.artistDisplay.Some? && |r| < |a.artistDisplay.value| ==> a.artistDisplay.value[|r|] == '\n'
  {
    match a.artistDisplay
    case None => UnknownArtist
    case Some(display) =>
      Text.BeforeFirstSpec(display, '\n');
      Text.BeforeFirst(display, '\n')
  }

  /** `yearDisplay`: the date text, or "Unknown Date" without one. */
  function YearDisplay(a: Artwork): (r: string)
    ensures a.dateDisplay.Some? ==> r == a.dateDisplay.value
    ensures a.dateDisplay.None? ==> r == UnknownDate
  {
    a.dateDisplay.GetOr(UnknownDate)
  }
}
