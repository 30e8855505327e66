/** The UIKit variant's wire format for artworks and its conversion to the domain model. */
module ArtworkDto {
  import opened Wrappers
  import opened DomainModels
  import opened JsonKeys

  datatype ArtworkDTO = ArtworkDTO(
    id: int,
    title: string,
    artistDisplay: Option<string>,
    dateDisplay: Option<string>,
    dateStart: Option<int>,
    dateEnd: Option<int>,
    mediumDisplay: Option<string>,
    dimensions: Option<string>,
    creditLine: Option<string>,
    departmentTitle: Option<string>,
    artworkTypeTitle: Option<string>,
    imageId: Option<string>,
    description: Option<string>,
    placeOfOrigin: Option<string>
  )

  /** `ArtworkListResponse` and `ArtworkSearchResponse` have the same shape. */
  datatype ArtworkListResponse = ArtworkListResponse(pagination: Pagination, data: seq<ArtworkDTO>)

  type ArtworkSearchResponse = ArtworkListResponse

  datatype ArtworkDetailResponse = ArtworkDetailResponse(data: ArtworkDTO)

  /** `toDomain()`: a field-by-field copy. */
  function ToDomain(dto: ArtworkDTO): (a: Artwork)
    ensures a.id == dto.id && a.title == dto.title
    ensures a.artistDisplay == dto.artistDisplay && a.dateDisplay == dto.dateDisplay
    ensures a.dateStart == dto.dateStart && a.dateEnd == dto.dateEnd
    ensures a.mediumDisplay == dto.mediumDisplay && a.dimensions == dto.dimensions
    ensures a.creditLine == dto.creditLine && a.departmentTitle == dto.departmentTitle
    ensures a.artworkTypeTitle == dto.artworkTypeTitle && a.imageId == dto.imageId
    ensures a.description == dto.description && a.placeOfOrigin == dto.placeOfOrigin
  {
    Artwork(dto.id, dto.title, dto.artistDisplay, dto.dateDisplay, dto.dateStart, dto.dateEnd,
      dto.mediumDisplay, dto.dimensions, dto.creditLine, dto.departmentTitle, dto.artworkTypeTitle,
      dto.imageId, dto.description, dto.placeOfOrigin)
  }

  /** No information is lost: distinct DTOs become distinct artworks. */
  lemma ToDomainInjective(d1: ArtworkDTO, d2: ArtworkDTO)
    requires ToDomain(d1) == ToDomain(d2)
    ensures d1 == d2
  {
  }

  /** The `CodingKeys` cases, one per stored property. */
  datatype Field =
    | Id | Title | ArtistDisplay | DateDisplay | DateStart | DateEnd | MediumDisplay
    | Dimensions | CreditLine | DepartmentTitle | ArtworkTypeTitle | ImageId | Description | PlaceOfOrigin

  /** The property name in Swift. */
  function SwiftName(f: Field): string {
    match f
    case Id => "id"
    case Title => "title"
    case ArtistDisplay => "artistDisplay"
    case DateDisplay => "dateDisplay"
    case DateStart => "dateStart"
    case DateEnd => "dateEnd"
    case MediumDisplay => "mediumDisplay"
    case Dimensions => "dimensions"
    case CreditLine => "creditLine"
    case DepartmentTitle => "departmentTitle"
    case ArtworkTypeTitle => "artworkTypeTitle"
    case ImageId => "imageId"
    case Description => "description"
    case PlaceOfOrigin => "placeOfOrigin"
  }

  /** The JSON key (`CodingKeys` raw value). */
  function WireName(f: Field): string {
    match f
    case Id => "id"
    case Title => "title"
    case ArtistDisplay => "artist_display"
    case DateDisplay => "date_display"
    case DateStart => "date_start"
    case DateEnd => "date_end"
    case MediumDisplay => "medium_display"
    case Dimensions => "dimensions"
    case CreditLine => "credit_line"
    case DepartmentTitle => "department_title"
    case ArtworkTypeTitle => "artwork_type_title"
    case ImageId => "image_id"
    case Description => "description"
    case PlaceOfOrigin => "place_of_origin"
  }

  lemma SnakeCaseOfField(f: Field, first: string, words: seq<(char, string)>)
    requires NoUpper(first)
    requires forall k :: 0 <= k < |words| ==> IsUpper(words[k].0) && NoUpper(words[k].1)
    requires SwiftName(f) == first + Camel(words) && WireName(f) == first + Snake(words)
    ensures WireName(f) == SnakeCase(SwiftName(f))
  {
    SnakeCaseOfWords(first, words);
  }

  /** A field named by a lower-case word and one capitalised hump is renamed to the two words joined by `_`. */
  lemma OneHumpField(f: Field, first: string, u: char, rest: string)
    requires NoUpper(first) && IsUpper(u) && NoUpper(rest)
    requires SwiftName(f) == first + ([u] + rest) && WireName(f) == first + (['_', ToLower(u)] + rest)
    ensures WireName(f) == SnakeCase(SwiftName(f))
  {
    var w := [(u, rest)];
    assert Camel(w) == [u] + rest by {
      assert Camel(w[1..]) == "";
    }
    assert Snake(w) == ['_', ToLower(u)] + rest by {
      assert Snake(w[1..]) == "";
    }
    SnakeCaseOfField(f, first, w);
  }

  lemma SnakeCaseDateFields(f: Field)
    requires f == DateDisplay || f == DateStart || f == DateEnd
    ensures WireName(f) == SnakeCase(SwiftName(f))
  {
    match f
    case DateDisplay => OneHumpField(f, "date", 'D', "isplay");
    case DateStart => OneHumpField(f, "date", 'S', "tart");
    case DateEnd => OneHumpField(f, "date", 'E', "nd");
  }

  lemma SnakeCaseDisplayFields(f: Field)
    requires f == ArtistDisplay || f == MediumDisplay || f == CreditLine
    ensures WireName(f) == SnakeCase(SwiftName(f))
  {
    match f
    case ArtistDisplay => OneHumpField(f, "artist", 'D', "isplay");
    case MediumDisplay => OneHumpField(f, "medium", 'D', "isplay");
    case CreditLine => OneHumpField(f, "credit", 'L', "ine");
  }

  lemma SnakeCaseTitleFields(f: Field)
    requires f == DepartmentTitle || f == ArtworkTypeTitle
    ensures WireName(f) == SnakeCase(SwiftName(f))
  {
    match f
    case DepartmentTitle =>
      var w := [('T', "itle")];
      assert Camel(w) == "Title";
      assert Snake(w) == "_title";
      assert SwiftName(f) == "department" + "Title";
      assert WireName(f) == "department" + "_title";
      SnakeCaseOfField(f, "department", w);
    case ArtworkTypeTitle => SnakeCaseArtworkTypeTitle();
  }

  lemma SnakeCaseArtworkTypeTitle()
    ensures WireName(ArtworkTypeTitle) == SnakeCase(SwiftName(ArtworkTypeTitle))
  {
    var w := [('T', "ype"), ('T', "itle")];
    assert Camel(w[1..]) == "Title";
    assert Snake(w[1..]) == "_title";
    assert Camel(w) == "TypeTitle";
    assert Snake(w) == "_type_title";
    assert SwiftName(ArtworkTypeTitle) == "artwork" + "TypeTitle";
    assert WireName(ArtworkTypeTitle) == "artwork" + "_type_title";
    SnakeCaseOfField(ArtworkTypeTitle, "artwork", w);
  }

  lemma SnakeCaseOtherFields(f: Field)
    requires f == ImageId || f == PlaceOfOrigin
    ensures WireName(f) == SnakeCase(SwiftName(f))
  {
    match f
    case ImageId =>
      var w := [('I', "d")];
      assert Camel(w) == "Id";
      assert Snake(w) == "_id";
      assert SwiftName(f) == "image" + "Id";
      assert WireName(f) == "image" + "_id";
      SnakeCaseOfField(f, "image", w);
    case PlaceOfOrigin => SnakeCasePlaceOfOrigin();
  }

  lemma SnakeCasePlaceOfOrigin()
    ensures WireName(PlaceOfOrigin) == SnakeCase(SwiftName(PlaceOfOrigin))
  {
    var w := [('O', "f"), ('O', "rigin")];
    assert Camel(w[1..]) == "Origin";
    assert Snake(w[1..]) == "_origin";
    assert Camel(w) == "OfOrigin";
    assert Snake(w) == "_of_origin";
    assert SwiftName(PlaceOfOrigin) == "place" + "OfOrigin";
    assert WireName(PlaceOfOrigin) == "place" + "_of_origin";
    SnakeCaseOfField(PlaceOfOrigin, "place", w);
  }

  /** Every JSON key is the snake_case form of its property name. */
  lemma WireNameIsSnakeCase(f: Field)
    ensures WireName(f) == SnakeCase(SwiftName(f))
  {
    match f
    case Id => SnakeCaseNoUpper("id");
    case Title => SnakeCaseNoUpper("title");
    case Dimensions => SnakeCaseNoUpper("dimensions");
    case Description => SnakeCaseNoUpper("description");
    case DateDisplay | DateStart | DateEnd => SnakeCaseDateFields(f);
    case ArtistDisplay | MediumDisplay | CreditLine => SnakeCaseDisplayFields(f);
    case DepartmentTitle | ArtworkTypeTitle => SnakeCaseTitleFields(f);
    case ImageId | PlaceOfOrigin => SnakeCaseOtherFields(f);
  }

  /** No two properties share a JSON key. */
  lemma WireNameInjective(f: Field, g: Field)
    requires WireName(f) == WireName(g)
    ensures f == g
  {
  }
}
