/**
 * The UIKit variant's artwork list screen state (`Presentation/ArtworkList/ArtworkListViewModel`).
 * Each public call, together with the repository reply it waits for, is one step.
 */
module PresentationArtworkList {
  import opened Wrappers
  import opened Decimal
  import opened DomainModels
  import opened NetworkErrors
  import ArtworkRepository

  const PageSize: int := 30
  const GenericErrorMessage: string := "Something went wrong. Please try again."

  /** What the repository can throw: a `NetworkError`, or any other error. */
  datatype RepositoryError = Network(error: NetworkError) | Unexpected(localizedDescription: string)

  /** `ClosedRange<Int>`; building one with `lo > hi` traps, so every range satisfies `lo <= hi`. */
  datatype YearRange = YearRange(lo: int, hi: int)

  predicate ValidRange(r: YearRange) {
    r.lo <= r.hi
  }

  datatype ListState = ListState(
    artworks: seq<Artwork>,
    isLoading: bool,
    errorMessage: Option<string>,
    hasMorePages: bool,
    searchQuery: string,
    isSearching: bool,
    selectedYearRange: Option<YearRange>,
    isFilterActive: bool,
    currentPage: int,
    allArtworks: seq<Artwork>
  )

  const Initial: ListState := ListState([], false, None, true, "", false, None, false, 1, [])

  /** The repository call a step makes. */
  datatype Request =
    | FetchPage(page: int, limit: int)
    | SearchPage(query: string, page: int, limit: int)

  /** A step: the new state and the repository call it made, if any. */
  datatype Step = Step(state: ListState, request: Option<Request>)

  /** `handleError`: the network error's description, or a generic message. */
  function HandleError(e: RepositoryError): (m: Option<string>)
    ensures m.Some?
    ensures e.Network? ==> m == ErrorDescription(e.error)
    ensures e.Unexpected? ==> m == Some(GenericErrorMessage)
  {
    match e
    case Network(n) => ErrorDescription(n)
    case Unexpected(_) => Some(GenericErrorMessage)
  }

  /** The guard of `loadArtworks`. */
  predicate CanLoad(s: ListState) {
    !s.isLoading && s.hasMorePages && s.searchQuery == ""
  }

  /** Whether the API reports pages after the one it returned. */
  predicate MorePagesAfter(p: Pagination) {
    p.currentPage < p.totalPages
  }

  /** `loadArtworks()` with the repository's reply to `fetchArtworks(page: currentPage, limit: 30)`. */
  function LoadArtworks(s: ListState, reply: Result<PaginatedResponse, RepositoryError>): (st: Step)
    ensures !CanLoad(s) ==> st == Step(s, None)
    ensures CanLoad(s) ==> st.request == Some(FetchPage(s.currentPage, PageSize)) && !st.state.isLoading
    ensures CanLoad(s) && reply.Success? && s.currentPage == 1 ==>
      st.state.artworks == reply.value.data && st.state.allArtworks == reply.value.data
    ensures CanLoad(s) && reply.Success? && s.currentPage != 1 ==>
      st.state.artworks == s.artworks + reply.value.data && st.state.allArtworks == s.allArtworks + reply.value.data
    ensures CanLoad(s) && reply.Success? ==>
      st.state.currentPage == s.currentPage + 1 && st.state.errorMessage.None? &&
      (st.state.hasMorePages <==> MorePagesAfter(reply.value.pagination))
    ensures CanLoad(s) && reply.Failure? ==>
      st.state == s.(errorMessage := HandleError(reply.error))
    ensures st.state.searchQuery == s.searchQuery && st.state.isSearching == s.isSearching
    ensures st.state.selectedYearRange == s.selectedYearRange && st.state.isFilterActive == s.isFilterActive
  {
    if !CanLoad(s) then Step(s, None)
    else
      var busy := s.(isLoading := true, errorMessage := None);
      var done := match reply
        case Success(page) =>
          var shown := if busy.currentPage == 1 then page.data else busy.artworks + page.data;
          var all := if busy.currentPage == 1 then page.data else busy.allArtworks + page.data;
          busy.(artworks := shown, allArtworks := all, currentPage := busy.currentPage + 1,
                hasMorePages := MorePagesAfter(page.pagination))
        case Failure(e) => busy.(errorMessage := HandleError(e));
      Step(done.(isLoading := false), Some(FetchPage(s.currentPage, PageSize)))
  }

  /** `resetPagination()`. */
  function ResetPagination(s: ListState): (r: ListState)
    ensures r.currentPage == 1 && r.hasMorePages && r.artworks == [] && r.allArtworks == [] && r.errorMessage.None?
    ensures r.searchQuery == s.searchQuery && r.isLoading == s.isLoading && r.isSearching == s.isSearching
    ensures r.selectedYearRange == s.selectedYearRange && r.isFilterActive == s.isFilterActive
  {
    s.(currentPage := 1, hasMorePages := true, artworks := [], allArtworks := [], errorMessage := None)
  }

  /** The message shown when a search finds nothing. */
  function NoMatchMessage(query: string): string {
    "No artworks found matching '" + query + "'"
  }

  /**
   * `searchArtworks(_:)`. An empty query returns to the plain list and loads its first
   * page; any other query is searched once the debounce delay has passed uninterrupted.
   */
  function SearchArtworks(s: ListState, query: string, reply: Result<PaginatedResponse, RepositoryError>): (st: Step)
    ensures st.state.searchQuery == query
    ensures query == "" ==> !st.state.isSearching
    ensures query == "" && !s.isLoading ==>
      st.request == Some(FetchPage(1, PageSize)) &&
      (reply.Success? ==> st.state.artworks == reply.value.data && st.state.allArtworks == reply.value.data)
    ensures query == "" && s.isLoading ==>
      st.request.None? && st.state.artworks == [] && st.state.allArtworks == [] && st.state.currentPage == 1
    ensures query == "" && !s.isLoading && reply.Failure? ==> st.state.errorMessage == HandleError(reply.error)
    ensures query != "" ==>
      st.request == Some(SearchPage(query, 1, PageSize)) && st.state.isSearching && !st.state.isLoading &&
      st.state.currentPage == 1
    ensures query != "" && reply.Success? ==>
      st.state.artworks == reply.value.data &&
      (st.state.hasMorePages <==> MorePagesAfter(reply.value.pagination)) &&
      st.state.errorMessage == (if reply.value.data == [] then Some(NoMatchMessage(query)) else None)
    ensures query != "" && reply.Failure? ==>
      st.state.errorMessage == HandleError(reply.error) && st.state.artworks == s.artworks &&
      st.state.hasMorePages == s.hasMorePages
    ensures query != "" ==> st.state.allArtworks == s.allArtworks
    ensures st.state.selectedYearRange == s.selectedYearRange && st.state.isFilterActive == s.isFilterActive
  {
    var s1 := s.(searchQuery := query);
    if query == "" then
      LoadArtworks(ResetPagination(s1.(isSearching := false)), reply)
    else
      var busy := s1.(isSearching := true, isLoading := true, errorMessage := None, currentPage := 1);
      var done := match reply
        case Success(page) =>
          busy.(artworks := page.data, hasMorePages := MorePagesAfter(page.pagination),
                errorMessage := if page.data == [] then Some(NoMatchMessage(query)) else busy.errorMessage)
        case Failure(e) => busy.(errorMessage := HandleError(e));
      Step(done.(isLoading := false), Some(SearchPage(query, 1, PageSize)))
  }

  /** The `filter` closure: the artwork has a start year and the range contains it. */
  predicate InRange(a: Artwork, range: YearRange) {
    a.dateStart.Some? && range.lo <= a.dateStart.value <= range.hi
  }

  /** The `filter` step: the artworks the range contains, each as often as it occurs, in order. */
  function InYears(all: seq<Artwork>, range: YearRange): (r: seq<Artwork>)
    ensures forall a :: multiset(r)[a] == if InRange(a, range) then multiset(all)[a] else 0
    ensures forall k :: 0 <= k < |r| ==> InRange(r[k], range)
    ensures |r| <= |all|
  {
    if |all| == 0 then []
    else
      var a := all[0];
      var rest := InYears(all[1..], range);
      assert all == [a] + all[1..];
      if InRange(a, range) then [a] + rest else rest
  }

  /** The filter keeps the artworks it lets through in their original order. */
  lemma {:induction false} InYearsKeepsOrder(all: seq<Artwork>, range: YearRange)
    ensures ArtworkRepository.IsSubsequence(InYears(all, range), all)
    decreases |all|
  {
    if |all| > 0 {
      InYearsKeepsOrder(all[1..], range);
      if InRange(all[0], range) {
        var r := InYears(all, range);
        assert r[0] == all[0] && r[1..] == InYears(all[1..], range);
      } else {
        ArtworkRepository.SubsequenceOfTail(InYears(all[1..], range), all);
      }
    }
  }

  function NoYearsMessage(range: YearRange): string {
    "No artworks found in years " + IntToString(range.lo) + "-" + IntToString(range.hi)
  }

  /** `filterByYearRange(_:)`. */
  function FilterByYearRange(s: ListState, range: YearRange): (r: ListState)
    requires ValidRange(range)
    ensures r.selectedYearRange == Some(range) && r.isFilterActive
    ensures s.searchQuery == "" ==> r.artworks == InYears(s.allArtworks, range)
    ensures s.searchQuery != "" ==> r.artworks == s.artworks
    ensures r.artworks == [] ==> r.errorMessage == Some(NoYearsMessage(range))
    ensures r.artworks != [] ==> r.errorMessage == s.errorMessage
    ensures r.allArtworks == s.allArtworks && r.currentPage == s.currentPage && r.hasMorePages == s.hasMorePages
  {
    var s1 := s.(selectedYearRange := Some(range), isFilterActive := true);
    var s2 := if s1.searchQuery == "" then s1.(artworks := InYears(s1.allArtworks, range)) else s1;
    if s2.artworks == [] then s2.(errorMessage := Some(NoYearsMessage(range))) else s2
  }

  /** `clearFilter()`. */
  function ClearFilter(s: ListState): (r: ListState)
    ensures r.selectedYearRange.None? && !r.isFilterActive && r.errorMessage.None?
    ensures r.artworks == r.allArtworks
    ensures r.allArtworks == s.allArtworks && r.currentPage == s.currentPage
  {
    s.(selectedYearRange := None, isFilterActive := false, artworks := s.allArtworks, errorMessage := None)
  }

  /** Applying a filter and then clearing it shows every loaded artwork again. */
  lemma ClearUndoesFilter(s: ListState, range: YearRange)
    requires ValidRange(range)
    ensures ClearFilter(FilterByYearRange(s, range)).artworks == s.allArtworks
    ensures ClearFilter(FilterByYearRange(s, range)) == ClearFilter(s)
  {
  }

  /** Filtering twice by the same range changes nothing the second time. */
  lemma FilterIdempotent(s: ListState, range: YearRange)
    requires ValidRange(range) && s.searchQuery == ""
    ensures FilterByYearRange(FilterByYearRange(s, range), range) == FilterByYearRange(s, range)
  {
  }

  /** `refresh()`: back to the unfiltered, unsearched first page. */
  function Refresh(s: ListState, reply: Result<PaginatedResponse, RepositoryError>): (st: Step)
    ensures st.state.searchQuery == "" && !st.state.isSearching
    ensures st.state.selectedYearRange.None? && !st.state.isFilterActive
    ensures !s.isLoading ==> st.request == Some(FetchPage(1, PageSize))
    ensures !s.isLoading && reply.Success? ==>
      st.state.artworks == reply.value.data && st.state.allArtworks == reply.value.data && st.state.currentPage == 2
    ensures s.isLoading ==> st.request.None? && st.state.artworks == [] && st.state.allArtworks == []
  {
    var s1 := ResetPagination(s).(searchQuery := "", isSearching := false, selectedYearRange := None, isFilterActive := false);
    LoadArtworks(s1, reply)
  }

  /** `artworks.firstIndex(where: { $0.id == id })`. */
  function FirstIndexOfId(s: seq<Artwork>, id: int): (r: Option<nat>)
    ensures r.None? <==> forall k :: 0 <= k < |s| ==> s[k].id != id
    ensures r.Some? ==> r.value < |s| && s[r.value].id == id && forall k :: 0 <= k < r.value ==> s[k].id != id
  {
    if |s| == 0 then None
    else if s[0].id == id then Some(0)
    else
      match FirstIndexOfId(s[1..], id)
      case None => None
      case Some(k) => Some(k + 1)
  }

  /** The condition under which `loadMoreIfNeeded` asks for another page. */
  predicate NearEnd(s: ListState, item: Artwork) {
    var i := FirstIndexOfId(s.artworks, item.id);
    i.Some? && i.value >= |s.artworks| - 5 && !s.isLoading && s.hasMorePages
  }

  /** The guard of `loadMoreSearchResults`. */
  predicate CanLoadMoreResults(s: ListState) {
    !s.isLoading && s.hasMorePages && s.searchQuery != ""
  }

  /** `loadMoreSearchResults()` with the repository's reply for page `currentPage + 1`. */
  function LoadMoreSearchResults(s: ListState, reply: Result<PaginatedResponse, RepositoryError>): (st: Step)
    ensures !CanLoadMoreResults(s) ==> st == Step(s, None)
    ensures CanLoadMoreResults(s) ==>
      st.request == Some(SearchPage(s.searchQuery, s.currentPage + 1, PageSize)) && !st.state.isLoading
    ensures CanLoadMoreResults(s) && reply.Success? ==>
      st.state.artworks == s.artworks + reply.value.data && st.state.currentPage == s.currentPage + 1 &&
      st.state.allArtworks == s.allArtworks && (st.state.hasMorePages <==> MorePagesAfter(reply.value.pagination))
    ensures CanLoadMoreResults(s) && reply.Success? ==> st.state.errorMessage.None?
    ensures CanLoadMoreResults(s) && reply.Failure? ==> st.state == s.(errorMessage := HandleError(reply.error))
    ensures st.state.searchQuery == s.searchQuery && st.state.isSearching == s.isSearching
    ensures st.state.selectedYearRange == s.selectedYearRange && st.state.isFilterActive == s.isFilterActive
  {
    if !CanLoadMoreResults(s) then Step(s, None)
    else
      var busy := s.(isLoading := true, errorMessage := None);
      var done := match reply
        case Success(page) =>
          busy.(artworks := busy.artworks + page.data, currentPage := busy.currentPage + 1,
                hasMorePages := MorePagesAfter(page.pagination))
        case Failure(e) => busy.(errorMessage := HandleError(e));
      Step(done.(isLoading := false), Some(SearchPage(s.searchQuery, s.currentPage + 1, PageSize)))
  }

  /** `loadMoreIfNeeded(currentItem:)`. */
  function LoadMoreIfNeeded(s: ListState, item: Artwork, reply: Result<PaginatedResponse, RepositoryError>): (st: Step)
    ensures !NearEnd(s, item) ==> st == Step(s, None)
    ensures NearEnd(s, item) && s.isSearching ==> st == LoadMoreSearchResults(s, reply)
    ensures NearEnd(s, item) && !s.isSearching ==> st == LoadArtworks(s, reply)
  {
    if NearEnd(s, item) then
      if s.isSearching then LoadMoreSearchResults(s, reply) else LoadArtworks(s, reply)
    else Step(s, None)
  }

  /** A request goes out exactly when the item is among the last five shown and the list may grow. */
  lemma LoadMoreRequestsIff(s: ListState, item: Artwork, reply: Result<PaginatedResponse, RepositoryError>)
    ensures LoadMoreIfNeeded(s, item, reply).request.Some? <==>
      (exists k :: |s.artworks| - 5 <= k < |s.artworks| && 0 <= k && s.artworks[k].id == item.id &&
        forall j :: 0 <= j < k ==> s.artworks[j].id != item.id) &&
      !s.isLoading && s.hasMorePages && (s.isSearching <==> s.searchQuery != "")
  {
    var i := FirstIndexOfId(s.artworks, item.id);
    if i.Some? {
      assert s.artworks[i.value].id == item.id;
    }
  }

  /** `refresh()` is clearing the query with the year filter dropped first. */
  lemma RefreshIsEmptySearchWithoutFilter(s: ListState, reply: Result<PaginatedResponse, RepositoryError>)
    ensures Refresh(s, reply) == SearchArtworks(s.(selectedYearRange := None, isFilterActive := false), "", reply)
  {
  }

  /**
   * A search answered with more pages, then a request for more results: the second
   * request asks for page 2 of the same query, and its results are appended.
   */
  lemma SearchThenMoreResults(s: ListState, query: string, first: PaginatedResponse,
                              more: Result<PaginatedResponse, RepositoryError>)
    requires query != "" && MorePagesAfter(first.pagination)
    ensures var searched := SearchArtworks(s, query, Success(first)).state;
            var next := LoadMoreSearchResults(searched, more);
            && next.request == Some(SearchPage(query, 2, PageSize))
            && (more.Success? ==> next.state.artworks == first.data + more.value.data && next.state.currentPage == 2)
  {
  }

  /** Without a filter or a search, the list shown is every page loaded so far, and loading keeps it so. */
  lemma LoadKeepsFullList(s: ListState, reply: Result<PaginatedResponse, RepositoryError>)
    requires s.artworks == s.allArtworks
    ensures LoadArtworks(s, reply).state.artworks == LoadArtworks(s, reply).state.allArtworks
  {
  }
}
