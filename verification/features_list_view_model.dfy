/**
 * The SwiftUI variant's artwork list screen state (`Features/ArtworkList/ViewModels/ArtworkListViewModel`).
 * Each public call, together with the service reply it waits for, is one step on the main actor.
 */
module FeaturesArtworkList {
  import opened Wrappers
  import opened CoreModels

  const UnknownErrorMessage: string := "Unknown error"

  datatype ListState = ListState(
    artworks: seq<ArtworkSummary>,
    isLoading: bool,
    errorMessage: Option<string>,
    currentPage: int,
    hasMorePages: bool
  )

  const Initial: ListState := ListState([], false, None, 1, true)

  /** The service call a step makes; the list fetch uses the service's default of 20 per page. */
  datatype Request =
    | FetchPage(page: int)
    | Search(query: string)
    | FilterYears(startYear: int, endYear: int)

  /** A step: the new state and the service call it made, if any. */
  datatype Step = Step(state: ListState, request: Option<Request>)

  /**
   * `handleError`: the service throws only `APIError`, whose description is never nil, so
   * the message is always that description and never the "Unknown error" fallback.
   */
  function HandleError(e: ApiError): (m: string)
    ensures Some(m) == ErrorDescription(e)
    ensures m != UnknownErrorMessage
  {
    ErrorDescription(e).GetOr(UnknownErrorMessage)
  }

  /** The guard of `loadArtworks`. */
  predicate CanLoad(s: ListState) {
    !s.isLoading && s.hasMorePages
  }

  /** `loadArtworks()` with the service's reply to `fetchArtworks(page: currentPage)`. */
  function LoadArtworks(s: ListState, reply: Result<ArtworkListResponse, ApiError>): (st: Step)
    ensures !CanLoad(s) ==> st == Step(s, None)
    ensures CanLoad(s) ==> st.request == Some(FetchPage(s.currentPage)) && !st.state.isLoading
    ensures CanLoad(s) && reply.Success? ==>
      && st.state.artworks == s.artworks + reply.value.data
      && st.state.currentPage == s.currentPage + 1
      && (st.state.hasMorePages <==> s.currentPage < reply.value.pagination.totalPages)
      && st.state.errorMessage.None?
    ensures CanLoad(s) && reply.Failure? ==> st.state == s.(errorMessage := Some(HandleError(reply.error)))
  {
    if !CanLoad(s) then Step(s, None)
    else
      var busy := s.(isLoading := true, errorMessage := None);
      var done := match reply
        case Success(response) =>
          var appended := busy.(artworks := busy.artworks + response.data);
          var paged := appended.(hasMorePages := appended.currentPage < response.pagination.totalPages);
          paged.(currentPage := paged.currentPage + 1)
        case Failure(e) => busy.(errorMessage := Some(HandleError(e)));
      Step(done.(isLoading := false), Some(FetchPage(s.currentPage)))
  }

  /** `searchArtworks(query:)`: not guarded; the list is cleared and page 1 restored before the request. */
  function SearchArtworks(s: ListState, query: string, reply: Result<ArtworkListResponse, ApiError>): (st: Step)
    ensures st.request == Some(Search(query))
    ensures !st.state.isLoading && st.state.currentPage == 1
    ensures reply.Success? ==>
      st.state.artworks == reply.value.data && !st.state.hasMorePages && st.state.errorMessage.None?
    ensures reply.Failure? ==>
      && st.state.artworks == []
      && st.state.hasMorePages == s.hasMorePages
      && st.state.errorMessage == Some(HandleError(reply.error))
  {
    var busy := s.(isLoading := true, errorMessage := None, artworks := [], currentPage := 1);
    var done := match reply
      case Success(response) => busy.(artworks := response.data, hasMorePages := false)
      case Failure(e) => busy.(errorMessage := Some(HandleError(e)));
    Step(done.(isLoading := false), Some(Search(query)))
  }

  /** `filterByYear(startYear:endYear:)`: like a search, but the page counter is left as it was. */
  function FilterByYear(s: ListState, startYear: int, endYear: int, reply: Result<ArtworkListResponse, ApiError>)
    : (st: Step)
    ensures st.request == Some(FilterYears(startYear, endYear))
    ensures !st.state.isLoading && st.state.currentPage == s.currentPage
    ensures reply.Success? ==>
      st.state.artworks == reply.value.data && !st.state.hasMorePages && st.state.errorMessage.None?
    ensures reply.Failure? ==>
      && st.state.artworks == []
      && st.state.hasMorePages == s.hasMorePages
      && st.state.errorMessage == Some(HandleError(reply.error))
  {
    var busy := s.(isLoading := true, errorMessage := None, artworks := []);
    var done := match reply
      case Success(response) => busy.(artworks := response.data, hasMorePages := false)
      case Failure(e) => busy.(errorMessage := Some(HandleError(e)));
    Step(done.(isLoading := false), Some(FilterYears(startYear, endYear)))
  }

  /** `reset()`: back to the first page of an empty list; a load in flight keeps its flag. */
  function Reset(s: ListState): (r: ListState)
    ensures r.artworks == [] && r.currentPage == 1 && r.hasMorePages && r.errorMessage.None?
    ensures r.isLoading == s.isLoading
  {
    s.(artworks := [], currentPage := 1, hasMorePages := true, errorMessage := None)
  }

  /** After a reset the screen is indistinguishable from a fresh one, apart from a load in flight. */
  lemma ResetIsInitial(s: ListState)
    requires !s.isLoading
    ensures Reset(s) == Initial
  {
  }

  /** A failed load can be retried and asks for the same page again. */
  lemma RetryRequestsSamePage(s: ListState, e: ApiError, next: Result<ArtworkListResponse, ApiError>)
    requires CanLoad(s)
    ensures LoadArtworks(LoadArtworks(s, Failure(e)).state, next).request == Some(FetchPage(s.currentPage))
  {
  }

  /** A successful search or filter ends paging: the next load does nothing. */
  lemma ResultsStopPaging(s: ListState, query: string, startYear: int, endYear: int,
                          response: ArtworkListResponse, next: Result<ArtworkListResponse, ApiError>)
    ensures var t := SearchArtworks(s, query, Success(response)).state; LoadArtworks(t, next) == Step(t, None)
    ensures var t := FilterByYear(s, startYear, endYear, Success(response)).state; LoadArtworks(t, next) == Step(t, None)
  {
  }

  /**
   * A failed filter empties the list but keeps the page counter, so the next load fetches
   * the page after the last one shown, onto an empty list.
   */
  lemma FailedFilterResumesAtOldPage(s: ListState, startYear: int, endYear: int, e: ApiError,
                                     next: Result<ArtworkListResponse, ApiError>)
    requires CanLoad(s)
    ensures var t := FilterByYear(s, startYear, endYear, Failure(e)).state;
      t.artworks == [] && LoadArtworks(t, next).request == Some(FetchPage(s.currentPage))
  {
  }

  /** Loads one after another with the given replies; returns the last state and the pages requested. */
  function LoadRun(s: ListState, replies: seq<Result<ArtworkListResponse, ApiError>>): (r: (ListState, seq<int>))
    decreases |replies|
  {
    if |replies| == 0 then (s, [])
    else
      var st := LoadArtworks(s, replies[0]);
      var rest := LoadRun(st.state, replies[1..]);
      var pages := match st.request case Some(FetchPage(p)) => [p] case _ => [];
      (rest.0, pages + rest.1)
  }

  /** The items of every reply's page, in order. */
  function AllData(replies: seq<Result<ArtworkListResponse, ApiError>>): seq<ArtworkSummary>
    requires forall k :: 0 <= k < |replies| ==> replies[k].Success?
  {
    if |replies| == 0 then [] else replies[0].value.data + AllData(replies[1..])
  }

  /** Every reply succeeds and reports more pages after the one it answers. */
  predicate MoreAfterEach(first: int, replies: seq<Result<ArtworkListResponse, ApiError>>) {
    forall k :: 0 <= k < |replies| ==> replies[k].Success? && first + k < replies[k].value.pagination.totalPages
  }

  /**
   * While the API keeps reporting more pages, successive loads ask for consecutive pages
   * and the list is the concatenation of the pages in the order they arrived.
   */
  lemma {:induction false} LoadsFetchConsecutivePages(s: ListState, replies: seq<Result<ArtworkListResponse, ApiError>>)
    requires CanLoad(s) && MoreAfterEach(s.currentPage, replies)
    ensures LoadRun(s, replies).1 == seq(|replies|, k => s.currentPage + k)
    ensures LoadRun(s, replies).0.artworks == s.artworks + AllData(replies)
    ensures LoadRun(s, replies).0.currentPage == s.currentPage + |replies|
    ensures CanLoad(LoadRun(s, replies).0)
    decreases |replies|
  {
    if |replies| > 0 {
      var t := LoadArtworks(s, replies[0]).state;
      assert MoreAfterEach(t.currentPage, replies[1..]) by {
        forall k | 0 <= k < |replies[1..]|
          ensures replies[1..][k].Success? && t.currentPage + k < replies[1..][k].value.pagination.totalPages
        {
          assert replies[1..][k] == replies[k + 1];
        }
      }
      LoadsFetchConsecutivePages(t, replies[1..]);
      assert s.artworks + AllData(replies) == t.artworks + AllData(replies[1..]);
      assert seq(|replies|, k => s.currentPage + k) == [s.currentPage] + seq(|replies[1..]|, k => t.currentPage + k);
    }
  }
}
