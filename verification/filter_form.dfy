/** The UIKit variant's year filter sheet (`Presentation/FilterView/FilterViewController`). */
module FilterForm {
  import opened Wrappers
  import opened Decimal

  const NoYearMessage: string := "Please enter at least one year value"
  const OrderMessage: string := "Start year must be less than or equal to end year"

  /** The two text fields; `text` is optional on `UITextField`. */
  datatype Fields = Fields(startText: Option<string>, endText: Option<string>)

  /** What a button tap leads to. */
  datatype Outcome =
    | Alert(message: string)                               // alert shown, sheet stays
    | Applied(start: Option<SwiftInt>, end: Option<SwiftInt>) // `onApplyFilter` called, sheet dismissed
    | Cleared                                              // `onClearFilter` called, sheet dismissed

  /** `Int(field.text ?? "")`. */
  function ReadYear(text: Option<string>): Option<SwiftInt> {
    ParseInt(text.GetOr(""))
  }

  /** `applyFilterTapped()`. */
  function ApplyFilterTapped(f: Fields): (o: Outcome)
    ensures o.Alert? || o.Applied?
    ensures o == Alert(NoYearMessage) <==> ReadYear(f.startText).None? && ReadYear(f.endText).None?
    ensures o == Alert(OrderMessage) <==>
      ReadYear(f.startText).Some? && ReadYear(f.endText).Some? && ReadYear(f.startText).value > ReadYear(f.endText).value
    ensures o.Applied? ==> o.start == ReadYear(f.startText) && o.end == ReadYear(f.endText)
    ensures o.Applied? ==> (o.start.Some? || o.end.Some?) && (o.start.Some? && o.end.Some? ==> o.start.value <= o.end.value)
  {
    var startYear := ReadYear(f.startText);
    var endYear := ReadYear(f.endText);
    if startYear.None? && endYear.None? then Alert(NoYearMessage)
    else if startYear.Some? && endYear.Some? && startYear.value > endYear.value then Alert(OrderMessage)
    else Applied(startYear, endYear)
  }

  /** `clearFilterTapped()`: no validation at all. */
  function ClearFilterTapped(f: Fields): (o: Outcome)
    ensures o == Cleared
  {
    Cleared
  }

  /** `populateCurrentFilters()`: each current year, when set, is written into its field as `"\(year)"`. */
  function PopulateCurrentFilters(f: Fields, currentStart: Option<SwiftInt>, currentEnd: Option<SwiftInt>): (r: Fields)
    ensures currentStart.None? ==> r.startText == f.startText
    ensures currentEnd.None? ==> r.endText == f.endText
    ensures currentStart.Some? ==> ReadYear(r.startText) == currentStart
    ensures currentEnd.Some? ==> ReadYear(r.endText) == currentEnd
  {
    var s := (match currentStart
      case Some(y) => ParseIntRoundTrip(y); Some(IntToString(y))
      case None => f.startText);
    var e := (match currentEnd
      case Some(y) => ParseIntRoundTrip(y); Some(IntToString(y))
      case None => f.endText);
    Fields(s, e)
  }

  /** Reopening the sheet on a filter and tapping Apply (with blank fields otherwise) reapplies the same filter. */
  lemma ReapplyCurrentFilter(currentStart: Option<SwiftInt>, currentEnd: Option<SwiftInt>)
    requires currentStart.Some? || currentEnd.Some?
    requires currentStart.Some? && currentEnd.Some? ==> currentStart.value <= currentEnd.value
    ensures ApplyFilterTapped(PopulateCurrentFilters(Fields(None, None), currentStart, currentEnd)) == Applied(currentStart, currentEnd)
  {
    assert ParseInt("") == None;
  }

  /** Equal years are accepted. */
  lemma EqualYearsAccepted(y: SwiftInt)
    ensures ApplyFilterTapped(Fields(Some(IntToString(y)), Some(IntToString(y)))) == Applied(Some(y), Some(y))
  {
    ParseIntRoundTrip(y);
  }
}
