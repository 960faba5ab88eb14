/** The characters listing: a page of character cards driven by the current
    page, a name search and two filters (status and gender). Every change of
    one of those four values re-runs the fetch effect; the effect picks the
    plain list when no filter is set and the filter endpoint otherwise. */
module CharactersPage {
  import opened Wrappers
  import opened Catalog
  import Text
  import Api
  import UrlEncoded
  import Pagination

  const LoadError := "Failed to load characters. Please try again later."

  /** The parameters of a filtered request: `page` first, then `name`,
      `status` and `gender`, each only when its value is non-empty. */
  function FilterParams(page: int, name: string, status: string, gender: string): seq<(string, string)>
  {
    [("page", Text.IntToString(page))]
      + (if name != "" then [("name", name)] else [])
      + (if status != "" then [("status", status)] else [])
      + (if gender != "" then [("gender", gender)] else [])
  }

  /** The page comes first; after it each filter that is set appears once,
      with its value, and no parameter is sent for a filter that is empty. */
  lemma FilterParamsShape(page: int, name: string, status: string, gender: string)
    ensures var params := FilterParams(page, name, status, gender);
      && |params| >= 1 && params[0] == ("page", Text.IntToString(page))
      && (forall i :: 1 <= i < |params| ==> params[i].1 != "")
      && (forall i, j :: 0 <= i < j < |params| ==> params[i].0 != params[j].0)
      && (("name", name) in params <==> name != "")
      && (("status", status) in params <==> status != "")
      && (("gender", gender) in params <==> gender != "")
      && (|params| == 1 <==> name == "" && status == "" && gender == "")
  {
  }

  /** Whether any of the three filters is set. */
  predicate Filtered(name: string, status: string, gender: string)
  {
    name != "" || status != "" || gender != ""
  }

  /** The endpoint the fetch effect requests for the given page and filters. */
  function RequestEndpoint(page: int, name: string, status: string, gender: string): string
  {
    if Filtered(name, status, gender) then
      Api.FilterEndpoint(Api.Character, FilterParams(page, name, status, gender))
    else
      Api.ListEndpoint(Api.Character, page)
  }

  /** Whichever endpoint is chosen, the request asks the character path for
      exactly the page and the filters that are set, in that order. */
  lemma RequestCarriesFilters(page: int, name: string, status: string, gender: string)
    ensures var (path, query) := Api.SplitEndpoint(RequestEndpoint(page, name, status, gender));
      && path == Api.Path(Api.Character)
      && UrlEncoded.Parse(query) == Some(FilterParams(page, name, status, gender))
  {
    if Filtered(name, status, gender) {
      Api.FilterEndpointParses(Api.Character, FilterParams(page, name, status, gender));
    } else {
      assert FilterParams(page, name, status, gender) == [("page", Text.IntToString(page))];
      Api.ListEndpointParses(Api.Character, page);
    }
  }

  /** Choosing the plain list when no filter is set changes nothing: it is the
      filter endpoint with the page as its only parameter. */
  lemma UnfilteredRequestIsFilterRequest(page: int)
    ensures RequestEndpoint(page, "", "", "") == Api.FilterEndpoint(Api.Character, FilterParams(page, "", "", ""))
  {
    Api.ListIsFilterByPage(Api.Character, page);
  }

  /** Unlike the episode and location searches, a filtered request still
      carries the page: requests for two different pages always differ. */
  lemma RequestKeepsPage(page1: int, page2: int, name: string, status: string, gender: string)
    requires RequestEndpoint(page1, name, status, gender) == RequestEndpoint(page2, name, status, gender)
    ensures page1 == page2
  {
    RequestCarriesFilters(page1, name, status, gender);
    RequestCarriesFilters(page2, name, status, gender);
    FilterParamsShape(page1, name, status, gender);
    FilterParamsShape(page2, name, status, gender);
    assert FilterParams(page1, name, status, gender)[0] == FilterParams(page2, name, status, gender)[0];
    Text.IntToStringInjective(page1, page2);
  }

  /** The state of the page component: the fetched page of characters, the
      request status, and the four inputs the fetch effect depends on. */
  class Coordinator {
    var characters: seq<Character>
    var loading: bool
    var error: Option<string>
    var currentPage: int
    var pageInfo: Option<Info>
    var searchTerm: string
    var statusFilter: string
    var genderFilter: string

    /** The spinner and the error are never both set, and the only error is
        the fixed message. */
    predicate Valid()
      reads this
    {
      (loading ==> error.None?) && (error.Some? ==> error.value == LoadError)
    }

    /** The values the fetch effect depends on. */
    function Inputs(): (int, string, string, string)
      reads this
    {
      (currentPage, searchTerm, statusFilter, genderFilter)
    }

    /** The initial state: nothing fetched yet, the first fetch in progress. */
    constructor()
      ensures Valid()
      ensures characters == [] && loading && error.None? && currentPage == 1 && pageInfo.None?
      ensures searchTerm == "" && statusFilter == "" && genderFilter == ""
    {
      characters := [];
      loading := true;
      error := None;
      currentPage := 1;
      pageInfo := None;
      searchTerm := "";
      statusFilter := "";
      genderFilter := "";
    }

    /** The first half of the fetch effect: the spinner goes on, the error is
        cleared, the parameters are built key by key and the endpoint chosen. */
    method StartFetch() returns (endpoint: string)
      requires Valid()
      modifies this`loading, this`error
      ensures Valid()
      ensures loading && error.None?
      ensures endpoint == RequestEndpoint(currentPage, searchTerm, statusFilter, genderFilter)
    {
      loading := true;
      error := None;
      var params := [("page", Text.IntToString(currentPage))];
      if searchTerm != "" {
        params := params + [("name", searchTerm)];
      }
      if statusFilter != "" {
        params := params + [("status", statusFilter)];
      }
      if genderFilter != "" {
        params := params + [("gender", genderFilter)];
      }
      assert params == FilterParams(currentPage, searchTerm, statusFilter, genderFilter);
      if searchTerm != "" || statusFilter != "" || genderFilter != "" {
        endpoint := Api.FilterEndpoint(Api.Character, params);
      } else {
        endpoint := Api.ListEndpoint(Api.Character, currentPage);
      }
    }

    /** The second half of the fetch effect, given how the request settled: on
        success the page and its metadata replace the old ones; on failure the
        old ones stay and the fixed message is set. Either way the spinner goes
        off. */
    method FinishFetch(outcome: Outcome<Envelope<Character>>)
      requires Valid()
      modifies this`characters, this`pageInfo, this`loading, this`error
      ensures Valid()
      ensures !loading
      ensures outcome.Ok? ==>
        characters == outcome.value.results && pageInfo == Some(outcome.value.info) && error == old(error)
      ensures outcome.Fail? ==>
        characters == old(characters) && pageInfo == old(pageInfo) && error == Some(LoadError)
      ensures old(error).None? && outcome.Ok? ==>
        CountLine() == Some((|outcome.value.results|, outcome.value.info.count))
      ensures outcome.Fail? ==> ShowsError() && CountLine().None? && !ShowsGrid() && !ShowsEmptyMessage()
    {
      match outcome {
        case Ok(data) =>
          characters := data.results;
          pageInfo := Some(data.info);
          loading := false;
        case Fail =>
          error := Some(LoadError);
          loading := false;
      }
    }

    /** `handleSearch(term)`: a new search starts again from page 1. Returns
        whether the effect runs again, that is whether an input changed. */
    method HandleSearch(term: string) returns (refetch: bool)
      requires Valid()
      modifies this`searchTerm, this`currentPage
      ensures Valid()
      ensures searchTerm == term && currentPage == 1
      ensures refetch <==> Inputs() != old(Inputs())
    {
      var before := Inputs();
      searchTerm := term;
      currentPage := 1;
      refetch := Inputs() != before;
    }

    /** `handleStatusChange`: the selected status, from page 1. */
    method HandleStatusChange(value: string) returns (refetch: bool)
      requires Valid()
      modifies this`statusFilter, this`currentPage
      ensures Valid()
      ensures statusFilter == value && currentPage == 1
      ensures refetch <==> Inputs() != old(Inputs())
    {
      var before := Inputs();
      statusFilter := value;
      currentPage := 1;
      refetch := Inputs() != before;
    }

    /** `handleGenderChange`: the selected gender, from page 1. */
    method HandleGenderChange(value: string) returns (refetch: bool)
      requires Valid()
      modifies this`genderFilter, this`currentPage
      ensures Valid()
      ensures genderFilter == value && currentPage == 1
      ensures refetch <==> Inputs() != old(Inputs())
    {
      var before := Inputs();
      genderFilter := value;
      currentPage := 1;
      refetch := Inputs() != before;
    }

    /** `handlePageChange(page)`: only the page changes; the filters stay. */
    method HandlePageChange(page: int) returns (refetch: bool)
      requires Valid()
      modifies this`currentPage
      ensures Valid()
      ensures currentPage == page
      ensures refetch <==> page != old(currentPage)
    {
      var before := Inputs();
      currentPage := page;
      refetch := Inputs() != before;
    }

    /** `clearFilters`: all three filters emptied, back to page 1, so the next
        request is the plain list of page 1. */
    method ClearFilters() returns (refetch: bool)
      requires Valid()
      modifies this`searchTerm, this`statusFilter, this`genderFilter, this`currentPage
      ensures Valid()
      ensures searchTerm == "" && statusFilter == "" && genderFilter == "" && currentPage == 1
      ensures !ShowsFilterBar()
      ensures RequestEndpoint(currentPage, searchTerm, statusFilter, genderFilter) == Api.ListEndpoint(Api.Character, 1)
      ensures refetch <==> Inputs() != old(Inputs())
    {
      var before := Inputs();
      searchTerm := "";
      statusFilter := "";
      genderFilter := "";
      currentPage := 1;
      refetch := Inputs() != before;
    }

    /** The chips for the active filters and the Clear Filters button. */
    predicate ShowsFilterBar()
      reads this
    {
      Filtered(searchTerm, statusFilter, genderFilter)
    }

    /** An error is shown when the error text is set and non-empty. */
    predicate ShowsError()
      reads this
    {
      error.Some? && error.value != ""
    }

    predicate ShowsSpinner()
      reads this
    {
      loading
    }

    /** "Showing X of Y characters": the size of the fetched page and the
        total the server reported. */
    function CountLine(): Option<(int, int)>
      reads this
    {
      if !loading && !ShowsError() && pageInfo.Some? then Some((|characters|, pageInfo.value.count))
      else None
    }

    predicate ShowsGrid()
      reads this
    {
      !loading && !ShowsError() && |characters| > 0
    }

    /** "No characters found matching your criteria." */
    predicate ShowsEmptyMessage()
      reads this
    {
      !loading && !ShowsError() && |characters| == 0
    }

    /** The pagination control under the grid, for the current page and the
        server's page count, whether or not a filter is set. */
    function PaginationItems(): Option<seq<Pagination.Item>>
      reads this
    {
      if ShowsGrid() && pageInfo.Some? then Some(Pagination.Layout(currentPage, pageInfo.value.pages))
      else None
    }
  }

  /** In every reachable state exactly one of the spinner, the error, the grid
      and the empty message is shown, and the count line only ever appears
      above the grid or the empty message. */
  lemma OneView(c: Coordinator)
    requires c.Valid()
    ensures c.ShowsSpinner() || c.ShowsError() || c.ShowsGrid() || c.ShowsEmptyMessage()
    ensures !(c.ShowsSpinner() && c.ShowsError())
    ensures !(c.ShowsGrid() && c.ShowsEmptyMessage())
    ensures (c.ShowsGrid() || c.ShowsEmptyMessage()) ==> !c.ShowsSpinner() && !c.ShowsError()
    ensures c.CountLine().Some? ==> c.ShowsGrid() || c.ShowsEmptyMessage()
  {
  }

  /** The filters play no part in the pagination control: two pages that
      differ only in their name, status and gender filters show the same
      control. It is shown exactly when the grid is and page metadata is
      known, and then the count line is shown too. */
  lemma PaginationIgnoresFilters(c: Coordinator, d: Coordinator)
    requires c.characters == d.characters && c.loading == d.loading && c.error == d.error
    requires c.currentPage == d.currentPage && c.pageInfo == d.pageInfo
    ensures c.PaginationItems() == d.PaginationItems()
    ensures c.PaginationItems().Some? <==> c.ShowsGrid() && c.pageInfo.Some?
    ensures c.PaginationItems().Some? ==> c.CountLine().Some?
  {
  }
}
