/**
 * How the UIKit client's `JSONDecoder` (keys converted from snake_case) meets the
 * `CodingKeys` of `Pagination` and `ArtworkDTO`, whose raw values are already snake_case.
 */
module ResponseDecoding {
  import opened Wrappers
  import opened JsonKeys
  import opened DomainModels
  import opened ArtworkDto

  /** The `Pagination.CodingKeys` cases. */
  datatype PaginationField = Total | Limit | Offset | TotalPages | CurrentPage

  function PaginationSwiftName(f: PaginationField): string {
    match f
    case Total => "total"
    case Limit => "limit"
    case Offset => "offset"
    case TotalPages => "totalPages"
    case CurrentPage => "currentPage"
  }

  /** The raw values the source declares, which are also the keys the API sends. */
  function PaginationWireName(f: PaginationField): string {
    match f
    case Total => "total"
    case Limit => "limit"
    case Offset => "offset"
    case TotalPages => "total_pages"
    case CurrentPage => "current_page"
  }

  /** Which names a `CodingKeys` enum declares as raw values. */
  datatype KeyNames = WireNames | SwiftNames

  function PaginationCodingKey(keys: KeyNames, f: PaginationField): string {
    match keys
    case WireNames => PaginationWireName(f)
    case SwiftNames => PaginationSwiftName(f)
  }

  function FieldValue(p: Pagination, f: PaginationField): int {
    match f
    case Total => p.total
    case Limit => p.limit
    case Offset => p.offset
    case TotalPages => p.totalPages
    case CurrentPage => p.currentPage
  }

  /** The order in which the API lists the members of its pagination object. */
  const PaginationOrder: seq<PaginationField> := [Total, Limit, Offset, TotalPages, CurrentPage]

  /** The pagination object exactly as the API sends it. */
  function ServerPagination(p: Pagination): JsonObject<int> {
    seq(|PaginationOrder|, i requires 0 <= i < |PaginationOrder| =>
      (PaginationWireName(PaginationOrder[i]), FieldValue(p, PaginationOrder[i])))
  }

  /**
   * Decoding a `Pagination`: every property is required, so one key the decoder cannot
   * find fails the whole value (and with it the enclosing list response).
   */
  function DecodePagination(obj: JsonObject<int>, keys: KeyNames, strategy: KeyStrategy): (r: Option<Pagination>)
    ensures r.Some? <==>
      Lookup(obj, PaginationCodingKey(keys, Total), strategy).Some? && Lookup(obj, PaginationCodingKey(keys, Limit), strategy).Some? &&
      Lookup(obj, PaginationCodingKey(keys, Offset), strategy).Some? && Lookup(obj, PaginationCodingKey(keys, TotalPages), strategy).Some? &&
      Lookup(obj, PaginationCodingKey(keys, CurrentPage), strategy).Some?
    ensures r.Some? ==> r.value.total == Lookup(obj, PaginationCodingKey(keys, Total), strategy).value
    ensures r.Some? ==> r.value.limit == Lookup(obj, PaginationCodingKey(keys, Limit), strategy).value
    ensures r.Some? ==> r.value.offset == Lookup(obj, PaginationCodingKey(keys, Offset), strategy).value
    ensures r.Some? ==> r.value.totalPages == Lookup(obj, PaginationCodingKey(keys, TotalPages), strategy).value
    ensures r.Some? ==> r.value.currentPage == Lookup(obj, PaginationCodingKey(keys, CurrentPage), strategy).value
  {
    var total := Lookup(obj, PaginationCodingKey(keys, Total), strategy);
    var limit := Lookup(obj, PaginationCodingKey(keys, Limit), strategy);
    var offset := Lookup(obj, PaginationCodingKey(keys, Offset), strategy);
    var pages := Lookup(obj, PaginationCodingKey(keys, TotalPages), strategy);
    var current := Lookup(obj, PaginationCodingKey(keys, CurrentPage), strategy);
    if total.Some? && limit.Some? && offset.Some? && pages.Some? && current.Some? then
      Some(Pagination(total.value, limit.value, offset.value, pages.value, current.value))
    else
      None
  }

  /** Decoding as written: snake_case raw values looked up after snake_case conversion. */
  function DecodePaginationAsWritten(obj: JsonObject<int>): Option<Pagination> {
    DecodePagination(obj, WireNames, ConvertFromSnakeCase)
  }

  /** No object whatsoever decodes as written: the converted keys never contain "total_pages". */
  lemma PaginationNeverDecodesAsWritten(obj: JsonObject<int>)
    ensures DecodePaginationAsWritten(obj) == None
  {
    JointAt(PaginationWireName(TotalPages), 5);
    SnakeCodingKeyNeverFound(obj, PaginationWireName(TotalPages));
  }

  /** Decoding with the coding keys that snake_case conversion produces: the Swift property names. */
  function DecodePaginationCorrected(obj: JsonObject<int>): Option<Pagination> {
    DecodePagination(obj, SwiftNames, ConvertFromSnakeCase)
  }

  /** Each pagination key the API sends is the snake_case form of the Swift property name. */
  lemma PaginationWireNameIsSnakeCase(f: PaginationField)
    ensures PaginationWireName(f) == SnakeCase(PaginationSwiftName(f))
  {
    match f
    case Total => SnakeCaseNoUpper("total");
    case Limit => SnakeCaseNoUpper("limit");
    case Offset => SnakeCaseNoUpper("offset");
    case TotalPages =>
      var w := [('P', "ages")];
      assert Camel(w) == "Pages";
      assert Snake(w) == "_pages";
      assert PaginationSwiftName(f) == "total" + "Pages";
      assert PaginationWireName(f) == "total" + "_pages";
      SnakeCaseOfWords("total", w);
    case CurrentPage =>
      var w := [('P', "age")];
      assert Camel(w) == "Page";
      assert Snake(w) == "_page";
      assert PaginationSwiftName(f) == "current" + "Page";
      assert PaginationWireName(f) == "current" + "_page";
      SnakeCaseOfWords("current", w);
  }

  /** Converting the API's key gives back the Swift property name. */
  lemma PaginationKeyConverts(f: PaginationField)
    ensures FromSnakeCase(PaginationWireName(f)) == PaginationSwiftName(f)
  {
    match f
    case Total => FromSnakeCaseKeepsPlainKey("total");
    case Limit => FromSnakeCaseKeepsPlainKey("limit");
    case Offset => FromSnakeCaseKeepsPlainKey("offset");
    case TotalPages =>
      assert PaginationWireName(f) == "total" + "_" + "pages";
      assert PaginationSwiftName(f) == "total" + [ToUpper('p')] + "ages";
      TwoWordKeyConverts("total", "pages");
    case CurrentPage =>
      assert PaginationWireName(f) == "current" + "_" + "page";
      assert PaginationSwiftName(f) == "current" + [ToUpper('p')] + "age";
      TwoWordKeyConverts("current", "page");
  }

  /** Two lower-case words joined by one underscore become one camel-cased name. */
  lemma TwoWordKeyConverts(first: string, second: string)
    requires |first| > 0 && NoUpper(first) && '_' !in first
    requires |second| > 0 && IsLower(second[0])
    requires NoUpper(second[1..]) && '_' !in second
    ensures FromSnakeCase(first + "_" + second) == first + [ToUpper(second[0])] + second[1..]
  {
    var u := ToUpper(second[0]);
    var w := [(u, second[1..])];
    assert Snake(w) == "_" + second by {
      assert ToLower(u) == second[0];
      assert Snake(w[1..]) == "";
      assert ['_', ToLower(u)] + second[1..] + "" == "_" + second;
    }
    assert Camel(w) == [u] + second[1..] by {
      assert Camel(w[1..]) == "";
    }
    FromSnakeCaseOfSnake(first, w);
    assert first + Snake(w) == first + "_" + second;
    assert first + Camel(w) == first + [u] + second[1..];
  }

  /** With the corrected key, each field finds its own member of the API's object. */
  lemma PaginationLookup(p: Pagination, k: nat)
    requires k < |PaginationOrder|
    ensures Lookup(ServerPagination(p), PaginationSwiftName(PaginationOrder[k]), ConvertFromSnakeCase)
      == Some(FieldValue(p, PaginationOrder[k]))
  {
    var obj := ServerPagination(p);
    var key := PaginationSwiftName(PaginationOrder[k]);
    assert DecoderKey(obj[k].0, ConvertFromSnakeCase) == key
      && forall j :: 0 <= j < k ==> DecoderKey(obj[j].0, ConvertFromSnakeCase) != key by {
      ServerKeysConvert(p);
      SwiftNamesDistinct();
    }
    LookupAt(obj, key, ConvertFromSnakeCase, k);
  }

  lemma SwiftNamesDistinct()
    ensures forall i, j :: 0 <= i < j < |PaginationOrder| ==>
      PaginationSwiftName(PaginationOrder[i]) != PaginationSwiftName(PaginationOrder[j])
  {
  }

  /** Each key of the API's object converts to the Swift name of the field at its position. */
  lemma ServerKeysConvert(p: Pagination)
    ensures |ServerPagination(p)| == |PaginationOrder|
    ensures forall j | 0 <= j < |ServerPagination(p)| ::
      DecoderKey(ServerPagination(p)[j].0, ConvertFromSnakeCase) == PaginationSwiftName(PaginationOrder[j])
  {
    var obj := ServerPagination(p);
    forall j | 0 <= j < |obj|
      ensures DecoderKey(obj[j].0, ConvertFromSnakeCase) == PaginationSwiftName(PaginationOrder[j])
    {
      PaginationKeyConverts(PaginationOrder[j]);
    }
  }

  /** A pagination decodes to the values the five keys find. */
  lemma DecodeFromLookups(obj: JsonObject<int>, keys: KeyNames, strategy: KeyStrategy, p: Pagination)
    requires forall f :: Lookup(obj, PaginationCodingKey(keys, f), strategy) == Some(FieldValue(p, f))
    ensures DecodePagination(obj, keys, strategy) == Some(p)
  {
    assert Lookup(obj, PaginationCodingKey(keys, Total), strategy) == Some(p.total);
    assert Lookup(obj, PaginationCodingKey(keys, Limit), strategy) == Some(p.limit);
    assert Lookup(obj, PaginationCodingKey(keys, Offset), strategy) == Some(p.offset);
    assert Lookup(obj, PaginationCodingKey(keys, TotalPages), strategy) == Some(p.totalPages);
    assert Lookup(obj, PaginationCodingKey(keys, CurrentPage), strategy) == Some(p.currentPage);
  }

  /** The position of a field in the API's object. */
  function OrderIndex(f: PaginationField): (k: nat)
    ensures k < |PaginationOrder| && PaginationOrder[k] == f
  {
    match f
    case Total => 0
    case Limit => 1
    case Offset => 2
    case TotalPages => 3
    case CurrentPage => 4
  }

  /** With the corrected key, a field finds its value in the object the API sends. */
  lemma PaginationFieldFound(p: Pagination, f: PaginationField)
    ensures Lookup(ServerPagination(p), PaginationCodingKey(SwiftNames, f), ConvertFromSnakeCase) == Some(FieldValue(p, f))
  {
    PaginationLookup(p, OrderIndex(f));
  }

  /** With the corrected keys every pagination the API sends decodes to itself. */
  lemma PaginationDecodesCorrected(p: Pagination)
    ensures DecodePaginationCorrected(ServerPagination(p)) == Some(p)
  {
    forall f ensures Lookup(ServerPagination(p), PaginationCodingKey(SwiftNames, f), ConvertFromSnakeCase) == Some(FieldValue(p, f)) {
      PaginationFieldFound(p, f);
    }
    DecodeFromLookups(ServerPagination(p), SwiftNames, ConvertFromSnakeCase, p);
  }

  /** An `ArtworkDTO` property whose raw value differs from its Swift name. */
  predicate Renamed(f: Field) {
    SwiftName(f) != WireName(f)
  }

  lemma RenamedKeyHasJoint(f: Field)
    requires Renamed(f)
    ensures HasSnakeJoint(WireName(f))
  {
    match f
    case Id =>
    case Title =>
    case Dimensions =>
    case Description =>
    case ArtistDisplay => JointAt(WireName(f), 6);
    case DateDisplay => JointAt(WireName(f), 4);
    case DateStart => JointAt(WireName(f), 4);
    case DateEnd => JointAt(WireName(f), 4);
    case MediumDisplay => JointAt(WireName(f), 6);
    case CreditLine => JointAt(WireName(f), 6);
    case DepartmentTitle => JointAt(WireName(f), 10);
    case ArtworkTypeTitle => JointAt(WireName(f), 7);
    case ImageId => JointAt(WireName(f), 5);
    case PlaceOfOrigin => JointAt(WireName(f), 5);
  }

  /**
   * As written, every renamed (optional) `ArtworkDTO` property is never found in any
   * object, so it always decodes as nil, whatever the API sends.
   */
  lemma RenamedFieldNeverFound<V>(obj: JsonObject<V>, f: Field)
    requires Renamed(f)
    ensures Lookup(obj, WireName(f), ConvertFromSnakeCase) == None
  {
    RenamedKeyHasJoint(f);
    SnakeCodingKeyNeverFound(obj, WireName(f));
  }

  lemma SwiftNameHasNoUnderscore(f: Field)
    ensures '_' !in SwiftName(f)
  {
  }

  /** With the Swift names as coding keys, every member the API sends under a wire name is found. */
  lemma FieldFoundCorrected<V>(obj: JsonObject<V>, f: Field, i: nat)
    requires i < |obj| && obj[i].0 == WireName(f)
    ensures Lookup(obj, SwiftName(f), ConvertFromSnakeCase).Some?
  {
    WireNameIsSnakeCase(f);
    SwiftNameHasNoUnderscore(f);
    CamelCodingKeyFound(obj, SwiftName(f), i);
  }
}
