# Rick and Morty wiki: a Dafny model of its page logic

The wiki is a React front-end over the public Rick and Morty catalog API. It
has three listing pages (characters, episodes, locations) with search, filters
and a pagination control. It has three detail pages, each of which loads one
record and then the records it refers to. Two cards classify a character's
status and a location's type.

This project models that logic in Dafny and proves what it promises. It covers:

- the catalog client's endpoint builders and `fetchData`;
- the `application/x-www-form-urlencoded` serializer that `URLSearchParams`
  applies to filter parameters (section 5.2 of the WHATWG URL Standard), with
  the section 5.1 parser as its reference and UTF-8 (RFC 3629) underneath;
- the pagination window algorithm and the Previous/Next rules;
- each listing page as a state machine over its React state;
- each detail page's load effect, with `Promise.all` as an all-or-nothing map;
- the status, icon and colour classifiers.

One module models each source file. `Wrappers`, `Text`, `UrlEncoded`,
`Catalog` and `Expansion` hold what several of them share.

The network is always a parameter. An `Api.HttpResponse` is the `ok` flag plus
the decoded body. The body is `None` when the request failed or the body did
not decode. A listing page's fetch outcome is an `Outcome` input.

Each effect is split at its `await`:

- `StartFetch` / `Start` turns the spinner on, clears the error, and returns
  the endpoint requested;
- `FinishFetch` / `Finish` applies the success or the failure transition.

So the loading state can be observed between the two halves. The handlers
return whether the state change re-runs the effect, that is, whether a value
in the effect's dependency array changed.

Four behaviours of the code are easy to miss:

- The character detail page fetches every episode, with no limit of 20.
- Reference fetches (`fetch(url).then(res => res.json())`) never look at the
  HTTP status. `Expansion.FetchJsonIgnoresStatus` states the difference from
  `fetchData`.
- The characters page shows pagination while filters are active. Only the
  episodes and locations pages hide it while searching.
- The "(Showing 20 of N)" notice states the total, not the number omitted.

Two more follow from how the code is written:

- A search endpoint interpolates the name unencoded. So for a name containing
  `&`, the query of the endpoint string holds two parameters
  (`Api.SearchNameWithAmpersandSplits`).
- A detail record that lists no references leaves the previously fetched list
  in place. When the route's id changes while the page stays mounted, a
  location with no residents, shown after one with residents, displays the old
  residents next to "No known residents"
  (`LocationDetailPage.StaleResidentsBesideNoResidents`). A fresh mount starts
  from an empty list.

## Model

| member | source | states |
|---|---|---|
| Pagination.WindowBounds | src/components/ui/Pagination.jsx:4-12 | the window starts at page 1 or later; for a positive page count it holds exactly min(5, total) pages inside [1, total] and contains the current page when it exists; it is centred on the current page when that page is at least two from either end; it is empty when there are no pages |
| Pagination.Window | src/components/ui/Pagination.jsx:4-12 | the first and last page of the window; what they are is stated by `WindowBounds` |
| Pagination.GetPageNumbers | src/components/ui/Pagination.jsx:2-36 | the list built by pushing page 1 and an ellipsis, looping over the window, then pushing an ellipsis and the last page, is exactly the layout whose properties the lemmas below prove |
| Pagination.Layout | src/components/ui/Pagination.jsx:14-33 | the entries `getPageNumbers` returns, as one expression; `GetPageNumbers` is proved equal to it and `LayoutProperties` states its order, bounds, ends, ellipses and length |
| Pagination.LayoutIncreasingWithinPages | src/components/ui/Pagination.jsx:6-33 | the page numbers strictly increase and all lie in [1, totalPages] |
| Pagination.LayoutEnds | src/components/ui/Pagination.jsx:14-33 | for totalPages >= 1 the first entry is page 1 and the last is totalPages; for no pages the list is empty |
| Pagination.LayoutLength | src/components/ui/Pagination.jsx:3-35 | at most nine entries |
| Pagination.LayoutShowsWindow | src/components/ui/Pagination.jsx:6-25 | every page of the window is shown, so the current page is shown whenever 1 <= currentPage <= totalPages |
| Pagination.LayoutEllipses | src/components/ui/Pagination.jsx:15-33 | an ellipsis follows page 1 iff startPage > 2, and precedes the last page iff endPage < totalPages - 1 |
| Pagination.LayoutGapsMarked | src/components/ui/Pagination.jsx:14-33 | an ellipsis is never first or last and never next to another; it always sits between two non-consecutive pages; pages shown side by side are consecutive |
| Pagination.NumberBounds | src/components/ui/Pagination.jsx:14-33 | each page number comes from the leading 1, from the window in order, or from the trailing last page |
| Pagination.LayoutProperties | src/components/ui/Pagination.jsx:2-36 | all of the above for the same layout together |
| Pagination.Click | src/components/ui/Pagination.jsx:43-97 | Previous does nothing iff currentPage == 1, Next does nothing iff currentPage == totalPages, and an ellipsis has no handler; otherwise Previous asks for currentPage - 1, Next for currentPage + 1, and a page button for its own page |
| Pagination.ClickStaysWithinPages | src/components/ui/Pagination.jsx:43-97 | from a page that exists, every click asks for a page in [1, totalPages] |
| Api.RequestUrl | src/services/api.js:1-6 | the URL requested is the base URL followed by the endpoint, and both can be read back from it |
| Api.Settle | src/services/api.js:7-14 | a response settles as success iff its status is ok and its body decodes, and then with that body; otherwise the error reaches the caller |
| Api.FetchData | src/services/api.js:4-15 | exactly one request, to base URL + endpoint, settled as above |
| Api.ListEndpoint | src/services/api.js:22-24 | the list endpoint; `ListEndpointParses` states that it asks the resource path for exactly one parameter, the page, and `ListIsFilterByPage` that it is the filter endpoint of the page alone |
| Api.ByIdEndpoint | src/services/api.js:27-29 | the by-id endpoint; `ByIdEndpointInjective` states that it determines the id |
| Api.SearchEndpoint | src/services/api.js:32-34 | the search endpoint, with the name unencoded; `SearchIsFilterByPlainName` and `SearchNameWithAmpersandSplits` state when it carries the name and when it does not |
| Api.FilterEndpoint | src/services/api.js:38-41 | the filter endpoint; `FilterEndpointParses` states that its query parses back to exactly the given pairs in order |
| Api.ListEndpointParses | src/services/api.js:22-24 | a list endpoint has the resource path and exactly one parameter, `page`, whose value is the page in decimal |
| Api.ListIsFilterByPage | src/services/api.js:22-41 | the list endpoint equals the filter endpoint with `page` as its only parameter |
| Api.ByIdEndpointInjective | src/services/api.js:27-29 | different ids give different by-id endpoints |
| Api.FilterEndpointParses | src/services/api.js:38-41 | a filter endpoint has the resource path, and its query parses back to exactly the given pairs in order, whatever characters they contain |
| Api.SearchIsFilterByPlainName | src/services/api.js:32-41 | a name made only of unreserved characters gives the same endpoint from search as from filter |
| Api.SearchNameWithAmpersandSplits | src/services/api.js:32-34 | for a plain name with an `&` in it, the query of the search endpoint string parses to the text before the `&` plus an extra empty-valued parameter, never to the name typed |
| UrlEncoded.Serialize | src/services/api.js:39 | the query is empty iff there are no pairs |
| UrlEncoded.SerializeString | src/services/api.js:39 | a serialized key or value never contains `&`, `=` or a space |
| UrlEncoded.ParseSerialize | src/services/api.js:38-41 | parsing a serialized list of pairs gives back the same pairs in order |
| UrlEncoded.DecodeSerializeString | src/services/api.js:39 | decoding a serialized string gives back the string |
| UrlEncoded.SerializeUnreserved | src/services/api.js:39 | a string made only of unreserved characters is serialized unchanged |
| UrlEncoded.Utf8RoundTrip | src/services/api.js:39 | decoding the UTF-8 encoding of a string gives back the string |
| Text.NatToStringRoundTrip | src/services/api.js:23 | the decimal digits of a number read back as that number |
| Text.IntToStringInjective | src/services/api.js:23 | different page numbers give different texts |
| Text.IntToString | src/services/api.js:23 | the decimal text of a page number; `NatToStringRoundTrip` states that its digits read back as the number and `IntToStringInjective` that different numbers give different texts |
| Text.Lower | src/components/ui/CharacterCard.jsx:6 | `toLowerCase` keeps the length, lower-cases each letter, and leaves no capital letter |
| Text.LowerIdempotent | src/components/ui/CharacterCard.jsx:6 | lower-casing twice is lower-casing once |
| Text.Contains | src/pages/LocationDetailPage.jsx:55-58 | `includes` is true iff the word occurs at some position |
| CharactersPage.FilterParamsShape | src/pages/CharactersPage.jsx:31-34 | the parameters are `page` first; each of name, status and gender appears, with its value, iff that value is non-empty; no key repeats |
| CharactersPage.FilterParams | src/pages/CharactersPage.jsx:31-34 | the parameter object; its shape is stated by `FilterParamsShape` |
| CharactersPage.RequestCarriesFilters | src/pages/CharactersPage.jsx:30-41 | whichever endpoint is chosen, the request asks the character path for exactly the page and the filters that are set |
| CharactersPage.UnfilteredRequestIsFilterRequest | src/pages/CharactersPage.jsx:36-41 | with no filter, the plain list endpoint chosen is the filter endpoint with only the page |
| CharactersPage.RequestKeepsPage | src/pages/CharactersPage.jsx:31-41 | a filtered request still depends on the page: different pages give different requests |
| CharactersPage.RequestEndpoint | src/pages/CharactersPage.jsx:36-41 | the endpoint chosen; `RequestCarriesFilters`, `UnfilteredRequestIsFilterRequest` and `RequestKeepsPage` state what it asks for |
| CharactersPage.Coordinator.constructor | src/pages/CharactersPage.jsx:10-19 | the initial state: no characters, loading, no error, page 1, no page metadata, empty search and filters |
| CharactersPage.Coordinator.StartFetch | src/pages/CharactersPage.jsx:24-41 | loading becomes true and error null; the parameters are built key by key; the endpoint is the filter endpoint iff some filter is non-empty, else the list endpoint for currentPage |
| CharactersPage.Coordinator.FinishFetch | src/pages/CharactersPage.jsx:43-49 | on success the characters and page metadata are replaced and the count line shows the new counts; on failure they are kept and the fixed characters message is shown instead of the grid; loading becomes false either way |
| CharactersPage.Coordinator.HandleSearch | src/pages/CharactersPage.jsx:56-59 | keeps the page state valid; sets the search term and page 1 |
| CharactersPage.Coordinator.HandleStatusChange | src/pages/CharactersPage.jsx:62-65 | keeps the page state valid; sets the status filter and page 1 |
| CharactersPage.Coordinator.HandleGenderChange | src/pages/CharactersPage.jsx:67-70 | keeps the page state valid; sets the gender filter and page 1 |
| CharactersPage.Coordinator.HandlePageChange | src/pages/CharactersPage.jsx:73-76 | keeps the page state valid; sets only the page; a refetch follows iff it changed |
| CharactersPage.Coordinator.ClearFilters | src/pages/CharactersPage.jsx:79-84 | keeps the page state valid; empties all three filters and sets page 1, which hides the filter chips; the next request is the list of page 1 |
| CharactersPage.OneView | src/pages/CharactersPage.jsx:177-227 | exactly one of the spinner, the error, the grid and the empty message is shown; the count line appears only with the grid or the empty message |
| CharactersPage.PaginationIgnoresFilters | src/pages/CharactersPage.jsx:194-211 | two pages that differ only in their filters show the same pagination control; it is shown iff the grid is shown and page metadata is known |
| CharactersPage.Coordinator.CountLine | src/pages/CharactersPage.jsx:177-181 | the results count; `OneView` states it appears only with the grid or the empty message, and `FinishFetch` that after a success it shows the new page size and total |
| CharactersPage.Coordinator.ShowsGrid | src/pages/CharactersPage.jsx:194-203 | the results grid; `OneView` states that it excludes the spinner, the error and the empty message |
| CharactersPage.Coordinator.ShowsEmptyMessage | src/pages/CharactersPage.jsx:213-225 | the no-results message; `OneView` states that exactly one of spinner, error, grid and this message shows |
| CharactersPage.Coordinator.PaginationItems | src/pages/CharactersPage.jsx:204-211 | the pagination control under the grid; `PaginationIgnoresFilters` states that the filters play no part in it |
| EpisodesPage.SearchIgnoresPage | src/pages/EpisodesPage.jsx:25-29 | while a term is set, the request does not depend on the page |
| EpisodesPage.ListRequestCarriesPage | src/pages/EpisodesPage.jsx:25-29 | without a term, the request asks for exactly the current page, and different pages give different requests |
| EpisodesPage.RequestEndpoint | src/pages/EpisodesPage.jsx:25-29 | the endpoint chosen; `SearchIgnoresPage` and `ListRequestCarriesPage` state what it asks for |
| EpisodesPage.Coordinator.constructor | src/pages/EpisodesPage.jsx:10-15 | the initial state: no episodes, loading, no error, page 1, no metadata, empty term |
| EpisodesPage.Coordinator.StartFetch | src/pages/EpisodesPage.jsx:19-29 | loading becomes true and error null; a search by the term when it is set, otherwise the list for currentPage |
| EpisodesPage.Coordinator.FinishFetch | src/pages/EpisodesPage.jsx:31-37 | on success episodes and metadata are replaced; on failure they are kept and the fixed episodes message is shown; loading becomes false either way |
| EpisodesPage.Coordinator.HandleSearch | src/pages/EpisodesPage.jsx:43-46 | keeps the page state valid; sets the term and page 1 |
| EpisodesPage.Coordinator.HandlePageChange | src/pages/EpisodesPage.jsx:48-51 | keeps the page state valid; sets only the page |
| EpisodesPage.Coordinator.ClearSearch | src/pages/EpisodesPage.jsx:53-56 | keeps the page state valid; empties the term and sets page 1; the next request is the list of page 1 |
| EpisodesPage.OneView | src/pages/EpisodesPage.jsx:96-146 | exactly one of the spinner, the error, the grid and the empty message is shown; the count line appears only with the grid or the empty message |
| EpisodesPage.PaginationHiddenWhileSearching | src/pages/EpisodesPage.jsx:124-130 | no pagination while a term is set; otherwise pagination iff grid and metadata |
| EpisodesPage.Coordinator.CountLine | src/pages/EpisodesPage.jsx:96-100 | the results count; `OneView` states it appears only with the grid or the empty message, and `FinishFetch` that after a success it shows the new page size and total |
| EpisodesPage.Coordinator.ShowsGrid | src/pages/EpisodesPage.jsx:113-122 | the results grid; `OneView` states that it excludes the spinner, the error and the empty message |
| EpisodesPage.Coordinator.ShowsEmptyMessage | src/pages/EpisodesPage.jsx:132-144 | the no-results message; `OneView` states that exactly one of spinner, error, grid and this message shows |
| EpisodesPage.Coordinator.PaginationItems | src/pages/EpisodesPage.jsx:123-130 | the pagination control under the grid; `PaginationHiddenWhileSearching` states that it is hidden while a term is set |
| LocationsPage.SearchIgnoresPage | src/pages/LocationsPage.jsx:25-29 | while a term is set, the request does not depend on the page |
| LocationsPage.ListRequestCarriesPage | src/pages/LocationsPage.jsx:25-29 | without a term, the request asks for exactly the current page, and different pages give different requests |
| LocationsPage.RequestEndpoint | src/pages/LocationsPage.jsx:25-29 | the endpoint chosen; `SearchIgnoresPage` and `ListRequestCarriesPage` state what it asks for |
| LocationsPage.Coordinator.constructor | src/pages/LocationsPage.jsx:10-15 | the initial state: no locations, loading, no error, page 1, no metadata, empty term |
| LocationsPage.Coordinator.StartFetch | src/pages/LocationsPage.jsx:19-29 | loading becomes true and error null; a search by the term when it is set, otherwise the list for currentPage |
| LocationsPage.Coordinator.FinishFetch | src/pages/LocationsPage.jsx:31-37 | on success locations and metadata are replaced; on failure they are kept and the fixed locations message is shown; loading becomes false either way |
| LocationsPage.Coordinator.HandleSearch | src/pages/LocationsPage.jsx:43-46 | keeps the page state valid; sets the term and page 1 |
| LocationsPage.Coordinator.HandlePageChange | src/pages/LocationsPage.jsx:48-51 | keeps the page state valid; sets only the page |
| LocationsPage.Coordinator.ClearSearch | src/pages/LocationsPage.jsx:53-56 | keeps the page state valid; empties the term and sets page 1; the next request is the list of page 1 |
| LocationsPage.OneView | src/pages/LocationsPage.jsx:96-146 | exactly one of the spinner, the error, the grid and the empty message is shown; the count line appears only with the grid or the empty message |
| LocationsPage.PaginationHiddenWhileSearching | src/pages/LocationsPage.jsx:124-130 | no pagination while a term is set; otherwise pagination iff grid and metadata |
| LocationsPage.Coordinator.CountLine | src/pages/LocationsPage.jsx:96-100 | the results count; `OneView` states it appears only with the grid or the empty message, and `FinishFetch` that after a success it shows the new page size and total |
| LocationsPage.Coordinator.ShowsGrid | src/pages/LocationsPage.jsx:113-122 | the results grid; `OneView` states that it excludes the spinner, the error and the empty message |
| LocationsPage.Coordinator.ShowsEmptyMessage | src/pages/LocationsPage.jsx:132-144 | the no-results message; `OneView` states that exactly one of spinner, error, grid and this message shows |
| LocationsPage.Coordinator.PaginationItems | src/pages/LocationsPage.jsx:123-130 | the pagination control under the grid; `PaginationHiddenWhileSearching` states that it is hidden while a term is set |
| Expansion.Slice | src/pages/EpisodeDetailPage.jsx:25 | `slice(0, 20)` keeps the first min(20, n) references, in order, and all of them when there are at most 20 |
| Expansion.FetchJson | src/pages/EpisodeDetailPage.jsx:26 | a reference fetch succeeds iff its body decodes, with that body |
| Expansion.All | src/pages/EpisodeDetailPage.jsx:25-28 | `Promise.all` succeeds iff every reference fetch succeeds, and then yields their bodies in URL order |
| Expansion.FetchJsonIgnoresStatus | src/pages/EpisodeDetailPage.jsx:26 | every response `fetchData` accepts is accepted with the same body, and an error status with a JSON body is accepted only here |
| Expansion.Notice | src/pages/EpisodeDetailPage.jsx:112 | the notice appears iff there are more than 20 references, and it reports their total |
| Expansion.NoticeMatchesSlice | src/pages/EpisodeDetailPage.jsx:24-28 | the notice appears iff the slice dropped references, and then its first number is the number fetched |
| CharacterDetailPage.Loader.constructor | src/pages/CharacterDetailPage.jsx:9-12 | initially no character, no episodes, loading, no error |
| CharacterDetailPage.Loader.Start | src/pages/CharacterDetailPage.jsx:16-20 | the spinner shows, the error is cleared, and the by-id endpoint of the route's id is requested |
| CharacterDetailPage.Loader.Finish | src/pages/CharacterDetailPage.jsx:19-36 | a failed primary fetch requests nothing, keeps the old state, and sets the fixed message; otherwise the character is stored and every episode URL is requested, in order and uncapped; an empty list requests nothing and keeps the old episodes; the fetched episodes replace the old ones iff every fetch succeeds, else the message is set; the content shows iff the primary fetch and the expansion both succeed |
| CharacterDetailPage.ErrorHidesStoredCharacter | src/pages/CharacterDetailPage.jsx:54-63 | after a failure the error panel shows even though a character is stored |
| CharacterDetailPage.Loader.View | src/pages/CharacterDetailPage.jsx:54-63 | which of spinner, error panel, nothing and content renders; `Start` states that the spinner shows, `Finish` when the content shows, and `ErrorHidesStoredCharacter` that an error hides a stored record |
| CharacterDetailPage.StatusColor | src/pages/CharacterDetailPage.jsx:43-52 | a missing status gives gray; any other status gets the card's colour, so case plays no part |
| EpisodeDetailPage.Loader.constructor | src/pages/EpisodeDetailPage.jsx:9-12 | initially no episode, no characters, loading, no error |
| EpisodeDetailPage.Loader.Start | src/pages/EpisodeDetailPage.jsx:16-20 | the spinner shows, the error is cleared, and the by-id endpoint is requested |
| EpisodeDetailPage.Loader.Finish | src/pages/EpisodeDetailPage.jsx:19-36 | as for the character page, but only the first min(20, n) character URLs are requested |
| EpisodeDetailPage.ErrorHidesStoredEpisode | src/pages/EpisodeDetailPage.jsx:42-51 | after a failure the error panel shows even though an episode is stored |
| EpisodeDetailPage.Loader.View | src/pages/EpisodeDetailPage.jsx:42-51 | which of spinner, error panel, nothing and content renders; `Start` states that the spinner shows, `Finish` when the content shows, and `ErrorHidesStoredEpisode` that an error hides a stored record |
| EpisodeDetailPage.FeaturedAfterLoad | src/pages/EpisodeDetailPage.jsx:109-112 | after a full load the featured section shows; the notice appears iff more than 20 characters are listed, and then reports the number shown |
| EpisodeDetailPage.Loader.ShowsFeatured | src/pages/EpisodeDetailPage.jsx:109 | the featured characters section; `FeaturedAfterLoad` states that it shows after a full load |
| EpisodeDetailPage.Loader.FeaturedNotice | src/pages/EpisodeDetailPage.jsx:112 | the "(Showing 20 of N)" notice; `FeaturedAfterLoad` states that it appears iff characters were left out, with the number shown |
| LocationDetailPage.Loader.constructor | src/pages/LocationDetailPage.jsx:9-12 | initially no location, no residents, loading, no error |
| LocationDetailPage.Loader.Start | src/pages/LocationDetailPage.jsx:16-20 | the spinner shows, the error is cleared, and the by-id endpoint is requested |
| LocationDetailPage.Loader.Finish | src/pages/LocationDetailPage.jsx:19-36 | as for the episode page, with the first min(20, n) resident URLs |
| LocationDetailPage.ErrorHidesStoredLocation | src/pages/LocationDetailPage.jsx:42-51 | after a failure the error panel shows even though a location is stored |
| LocationDetailPage.Loader.View | src/pages/LocationDetailPage.jsx:42-51 | which of spinner, error panel, nothing and content renders; `Start` states that the spinner shows, `Finish` when the content shows, and `ErrorHidesStoredLocation` that an error hides a stored record |
| LocationDetailPage.ResidentsAfterLoad | src/pages/LocationDetailPage.jsx:119-162 | after a full load of a location with residents: the residents section shows and the no-residents message does not; the notice appears iff more than 20 are listed, with the number shown |
| LocationDetailPage.StaleResidentsBesideNoResidents | src/pages/LocationDetailPage.jsx:119-162 | for a location listing no residents, "No known residents" shows, and the residents section shows as well iff residents fetched earlier remain |
| LocationDetailPage.Loader.ShowsResidents | src/pages/LocationDetailPage.jsx:119 | the residents section; `ResidentsAfterLoad` and `StaleResidentsBesideNoResidents` state when it shows |
| LocationDetailPage.Loader.ResidentsNotice | src/pages/LocationDetailPage.jsx:122 | the "(Showing 20 of N)" notice; `ResidentsAfterLoad` states that it appears iff residents were left out, with the number shown |
| LocationDetailPage.Loader.ShowsNoResidents | src/pages/LocationDetailPage.jsx:156-162 | the no-residents message, decided by the residents listed; `ResidentsAfterLoad` and `StaleResidentsBesideNoResidents` state when it shows |
| LocationDetailPage.LocationIcon | src/pages/LocationDetailPage.jsx:54-60 | planet iff the lower-cased type contains "planet"; star iff it contains "cluster" but none of planet, dimension or space |
| LocationDetailPage.CardIconAgrees | src/components/ui/LocationCard.jsx:26-28 | the card's icon equals the detail page's except that a cluster shows the globe on the card |
| LocationDetailPage.LocationIconIgnoresCase | src/pages/LocationDetailPage.jsx:54-60 | types that agree once lower-cased get the same icon |
| LocationDetailPage.ResidentBadge | src/pages/LocationDetailPage.jsx:142-145 | the resident badge equals the character card's status colour |
| LocationCard.CodeUnits | src/components/ui/LocationCard.jsx:15 | one or two UTF-16 code units per character, each below 0x10000; a character below U+10000 is its own single unit |
| LocationCard.ReduceIsTotal | src/components/ui/LocationCard.jsx:15 | the left fold of `reduce` equals the plain sum of the code units |
| LocationCard.Hash | src/components/ui/LocationCard.jsx:15 | the hash is the sum of the type's code units and is never negative |
| LocationCard.DimensionColor | src/components/ui/LocationCard.jsx:5-17 | always one of the six gradients, namely the one at hash mod 6; the empty type gets the first one |
| LocationCard.HashPermutation | src/components/ui/LocationCard.jsx:15 | rearranging a type's characters leaves its hash unchanged |
| LocationCard.DimensionColorPermutation | src/components/ui/LocationCard.jsx:15-16 | equal types, and types that are rearrangements of each other, get the same gradient |
| LocationCard.CardIcon | src/components/ui/LocationCard.jsx:26-28 | never the star; planet, galaxy and rocket iff the first of "planet", "dimension", "space" found in the lower-cased type is that keyword |
| LocationCard.CardIconIgnoresCase | src/components/ui/LocationCard.jsx:26-28 | the icon of a type equals the icon of its lower-cased form |
| CharacterCard.StatusColor | src/components/ui/CharacterCard.jsx:5-14 | green iff the lower-cased status is "alive", red iff it is "dead", gray otherwise |
| CharacterCard.StatusColorIgnoresCase | src/components/ui/CharacterCard.jsx:6-12 | statuses that agree once lower-cased get the same colour |
| CharacterCard.CatalogStatuses | src/components/ui/CharacterCard.jsx:6-12 | "Alive" is green, "Dead" is red and "unknown" is gray |

## Left out

- Real network I/O (`fetch`, `response.json()`, `console.error`) is left out. The network is a function parameter from URL to response.
- Request races are not modelled: requests are never cancelled, so a slower, superseded response can overwrite a newer one. Each effect half is one atomic step. `Promise.all` is a sequential all-or-nothing map, so its concurrency and its early rejection are not modelled.
- The search bar's 500 ms debounce (src/components/ui/SearchBar.jsx) is timer behaviour and is not part of this model. The model receives the term the search bar finally passes on.
- src/pages/HomePage.jsx, src/App.jsx, the navbar, the footer and the episode card contain markup and routing only, and are not part of this model.
- JSX markup and CSS classes are left out. Colours and icons are opaque labels, so the 500 and 600 shades of the badges are one `StatusBadge`.
- `window.scrollTo`, and the formatting of air dates and creation dates with `toLocaleDateString`, depend on the browser and the locale, and are left out.
- Text.Lower: only the ASCII capitals are lower-cased. The result of comparing or searching against the keywords used (alive, dead, planet, dimension, space, cluster) is still exact. The only non-ASCII characters that JavaScript lower-cases to ASCII letters are U+212A (to `k`) and U+0130 (to `i` followed by U+0307). No keyword contains `k`, and an `i` produced from U+0130 is always followed by U+0307, so neither can complete a match.
- Text.IntToString: does not model JavaScript's exponent notation for numbers of 10^21 and above. Page numbers are far smaller.
- The shape of the JSON is not checked: a body that decodes but lacks `results`, `info`, `episode` or `residents` is not modelled. A record's reference list is always present.
- UrlEncoded.Parse: the parser replaces malformed UTF-8 with U+FFFD in the standard. This model rejects such input instead. The serializer only ever produces well-formed input, so the round trip is unaffected.
- The URL parsing `fetch` applies to the requested URL is not modelled. It cuts the query at `#`, drops tabs and line breaks, trims leading and trailing spaces and controls, and percent-encodes spaces and non-ASCII characters. The endpoint lemmas speak of the endpoint string handed to `fetchData`, and `Api.IsPlainText` excludes `#` and the control characters.
- `URLSearchParams` built from an object takes the object's keys in property order. That order puts integer-like keys first. No key used here is integer-like, so insertion order is the order.
- Pagination.GetPageNumbers: its contract is equality with `Layout`. The ordering, bounds, ellipsis and length properties are stated about `Layout` by the lemmas that follow it.
- LocationCard.Hash: the sum is exact. JavaScript would lose precision only above 2^53, which needs a type of billions of characters.
