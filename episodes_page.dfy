/** The episodes listing: a page of episode cards driven by the current page
    and a name search. A search asks for the first page of matches by name
    alone, and the pagination control is hidden while a search is active. */
module EpisodesPage {
  import opened Wrappers
  import opened Catalog
  import Text
  import Api
  import UrlEncoded
  import Pagination

  const LoadError := "Failed to load episodes. Please try again later."

  /** The endpoint the fetch effect requests: the search by name when a term
      is set, otherwise the list page. */
  function RequestEndpoint(page: int, term: string): string
  {
    if term != "" then Api.SearchEndpoint(Api.Episode, term) else Api.ListEndpoint(Api.Episode, page)
  }

  /** While a term is set the page plays no part in the request. */
  lemma SearchIgnoresPage(page1: int, page2: int, term: string)
    requires term != ""
    ensures RequestEndpoint(page1, term) == RequestEndpoint(page2, term)
  {
  }

  /** Without a term the request asks for exactly the current page; two
      different pages give two different requests. */
  lemma ListRequestCarriesPage(page: int)
    ensures var (path, query) := Api.SplitEndpoint(RequestEndpoint(page, ""));
      && path == Api.Path(Api.Episode)
      && UrlEncoded.Parse(query) == Some([("page", Text.IntToString(page))])
    ensures forall other :: RequestEndpoint(other, "") == RequestEndpoint(page, "") ==> other == page
  {
    Api.ListEndpointParses(Api.Episode, page);
    forall other | RequestEndpoint(other, "") == RequestEndpoint(page, "")
      ensures other == page
    {
      Api.ListEndpointParses(Api.Episode, other);
      Text.IntToStringInjective(other, page);
    }
  }

  /** The state of the page component. */
  class Coordinator {
    var episodes: seq<Episode>
    var loading: bool
    var error: Option<string>
    var currentPage: int
    var pageInfo: Option<Info>
    var searchTerm: string

    /** The spinner and the error are never both set, and the only error is
        the fixed message. */
    predicate Valid()
      reads this
    {
      (loading ==> error.None?) && (error.Some? ==> error.value == LoadError)
    }

    /** The values the fetch effect depends on. */
    function Inputs(): (int, string)
      reads this
    {
      (currentPage, searchTerm)
    }

    constructor()
      ensures Valid()
      ensures episodes == [] && loading && error.None? && currentPage == 1 && pageInfo.None?
      ensures searchTerm == ""
    {
      episodes := [];
      loading := true;
      error := None;
      currentPage := 1;
      pageInfo := None;
      searchTerm := "";
    }

    /** The first half of the fetch effect: spinner on, error cleared, and the
        search or the list page chosen. */
    method StartFetch() returns (endpoint: string)
      requires Valid()
      modifies this`loading, this`error
      ensures Valid()
      ensures loading && error.None?
      ensures endpoint == RequestEndpoint(currentPage, searchTerm)
    {
      loading := true;
      error := None;
      if searchTerm != "" {
        endpoint := Api.SearchEndpoint(Api.Episode, searchTerm);
      } else {
        endpoint := Api.ListEndpoint(Api.Episode, currentPage);
      }
    }

    /** The second half of the fetch effect: on success the results and
        metadata replace the old ones; on failure they stay and the fixed
        message is set. Either way the spinner goes off. */
    method FinishFetch(outcome: Outcome<Envelope<Episode>>)
      requires Valid()
      modifies this`episodes, this`pageInfo, this`loading, this`error
      ensures Valid()
      ensures !loading
      ensures outcome.Ok? ==>
        episodes == outcome.value.results && pageInfo == Some(outcome.value.info) && error == old(error)
      ensures outcome.Fail? ==>
        episodes == old(episodes) && pageInfo == old(pageInfo) && error == Some(LoadError)
      ensures old(error).None? && outcome.Ok? ==>
        CountLine() == Some((|outcome.value.results|, outcome.value.info.count))
      ensures outcome.Fail? ==> ShowsError() && CountLine().None? && !ShowsGrid() && !ShowsEmptyMessage()
    {
      match outcome {
        case Ok(data) =>
          episodes := data.results;
          pageInfo := Some(data.info);
          loading := false;
        case Fail =>
          error := Some(LoadError);
          loading := false;
      }
    }

    /** `handleSearch(term)`: a new search from page 1. */
    method HandleSearch(term: string) returns (refetch: bool)
      requires Valid()
      modifies this`searchTerm, this`currentPage
      ensures Valid()
      ensures searchTerm == term && currentPage == 1
      ensures refetch <==> Inputs() != old(Inputs())
    {
      var before := Inputs();
      searchTerm := term;
      currentPage := 1;
      refetch := Inputs() != before;
    }

    /** `handlePageChange(page)`. */
    method HandlePageChange(page: int) returns (refetch: bool)
      requires Valid()
      modifies this`currentPage
      ensures Valid()
      ensures currentPage == page
      ensures refetch <==> page != old(currentPage)
    {
      var before := Inputs();
      currentPage := page;
      refetch := Inputs() != before;
    }

    /** `clearSearch`: the term emptied and back to page 1, so the next
        request is the list of page 1. */
    method ClearSearch() returns (refetch: bool)
      requires Valid()
      modifies this`searchTerm, this`currentPage
      ensures Valid()
      ensures searchTerm == "" && currentPage == 1
      ensures !ShowsSearchChip()
      ensures RequestEndpoint(currentPage, searchTerm) == Api.ListEndpoint(Api.Episode, 1)
      ensures refetch <==> Inputs() != old(Inputs())
    {
      var before := Inputs();
      searchTerm := "";
      currentPage := 1;
      refetch := Inputs() != before;
    }

    /** The chip with the search term and the Clear Search button. */
    predicate ShowsSearchChip()
      reads this
    {
      searchTerm != ""
    }

    /** An error is shown when the error text is set and non-empty. */
    predicate ShowsError()
      reads this
    {
      error.Some? && error.value != ""
    }

    predicate ShowsSpinner()
      reads this
    {
      loading
    }

    /** "Showing X of Y episodes". */
    function CountLine(): Option<(int, int)>
      reads this
    {
      if !loading && !ShowsError() && pageInfo.Some? then Some((|episodes|, pageInfo.value.count))
      else None
    }

    predicate ShowsGrid()
      reads this
    {
      !loading && !ShowsError() && |episodes| > 0
    }

    /** "No episodes found matching your search." */
    predicate ShowsEmptyMessage()
      reads this
    {
      !loading && !ShowsError() && |episodes| == 0
    }

    /** The pagination control under the grid, only when no search is active. */
    function PaginationItems(): Option<seq<Pagination.Item>>
      reads this
    {
      if ShowsGrid() && pageInfo.Some? && searchTerm == "" then
        Some(Pagination.Layout(currentPage, pageInfo.value.pages))
      else None
    }
  }

  /** In every reachable state exactly one of the spinner, the error, the grid
      and the empty message is shown, and the count line only ever appears
      above the grid or the empty message. */
  lemma OneView(c: Coordinator)
    requires c.Valid()
    ensures c.ShowsSpinner() || c.ShowsError() || c.ShowsGrid() || c.ShowsEmptyMessage()
    ensures !(c.ShowsSpinner() && c.ShowsError())
    ensures !(c.ShowsGrid() && c.ShowsEmptyMessage())
    ensures (c.ShowsGrid() || c.ShowsEmptyMessage()) ==> !c.ShowsSpinner() && !c.ShowsError()
    ensures c.CountLine().Some? ==> c.ShowsGrid() || c.ShowsEmptyMessage()
  {
  }

  /** The pagination control never shows while a search is active, and
      otherwise shows exactly with the grid and known page metadata. */
  lemma PaginationHiddenWhileSearching(c: Coordinator)
    ensures c.searchTerm != "" ==> c.PaginationItems().None?
    ensures c.searchTerm == "" ==> (c.PaginationItems().Some? <==> c.ShowsGrid() && c.pageInfo.Some?)
  {
  }
}
