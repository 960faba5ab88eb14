/** The catalog client: one endpoint builder per resource and access pattern,
    and `fetchData`, which prefixes the base URL and turns a non-success
    response into a failure. The network is a parameter: a function from the
    requested URL to the response it produced. */
module Api {
  import opened Wrappers
  import Text
  import UrlEncoded

  const BaseUrl := "https://rickandmortyapi.com/api"

  datatype Resource = Character | Episode | Location

  function Path(r: Resource): string
  {
    match r
    case Character => "/character"
    case Episode => "/episode"
    case Location => "/location"
  }

  /** A settled HTTP exchange: the `ok` flag (a 2xx status) and the body decoded
      as JSON, `None` when the body is not JSON of the expected shape. */
  datatype HttpResponse<T> = HttpResponse(ok: bool, body: Option<T>)

  /** The URL `fetchData` requests: the base URL followed by the endpoint, so
      the endpoint can be read back from the URL. */
  function RequestUrl(endpoint: string): (url: string)
    ensures |url| == |BaseUrl| + |endpoint|
    ensures url[..|BaseUrl|] == BaseUrl && url[|BaseUrl|..] == endpoint
  {
    BaseUrl + endpoint
  }

  /** How `fetchData` settles a response: rejected unless the status is ok and
      the body decodes, otherwise resolved with the decoded body. */
  function Settle<T>(response: HttpResponse<T>): (r: Outcome<T>)
    ensures r.Ok? <==> response.ok && response.body.Some?
    ensures r.Ok? ==> Some(r.value) == response.body
  {
    if !response.ok then Fail
    else match response.body
      case None => Fail
      case Some(v) => Ok(v)
  }

  /** `fetchData(endpoint)`: exactly one request, to the base URL followed by
      the endpoint; its failure is passed on to the caller. */
  function FetchData<T>(endpoint: string, network: string -> HttpResponse<T>): (r: Outcome<T>)
    ensures var response := network(BaseUrl + endpoint);
      && (r.Ok? <==> response.ok && response.body.Some?)
      && (r.Ok? ==> Some(r.value) == response.body)
  {
    Settle(network(RequestUrl(endpoint)))
  }

  /** `get<Resource>s(page = 1)`. */
  function ListEndpoint(r: Resource, page: int := 1): string
  {
    Path(r) + "?page=" + Text.IntToString(page)
  }

  /** `get<Resource>ById(id)`: `id` comes from the route and is a string. */
  function ByIdEndpoint(r: Resource, id: string): string
  {
    Path(r) + "/" + id
  }

  /** `search<Resource>s(name)`: the name is interpolated as it is. */
  function SearchEndpoint(r: Resource, name: string): string
  {
    Path(r) + "?name=" + name
  }

  /** `filter<Resource>s(params)`: `new URLSearchParams(params).toString()`. */
  function FilterEndpoint(r: Resource, params: seq<(string, string)>): string
  {
    Path(r) + "?" + UrlEncoded.Serialize(params)
  }

  /** The path of an endpoint and its query: the text around the first `?`. */
  function SplitEndpoint(e: string): (string, string)
  {
    UrlEncoded.SplitAtFirst(e, '?')
  }

  lemma SplitPathAndQuery(r: Resource, query: string)
    ensures SplitEndpoint(Path(r) + "?" + query) == (Path(r), query)
  {
    UrlEncoded.SplitAtFirstSeparator(Path(r), '?', query);
    assert Path(r) + "?" + query == Path(r) + ['?'] + query;
  }

  lemma IntToStringUnreserved(i: int)
    ensures forall k :: 0 <= k < |Text.IntToString(i)| ==>
      UrlEncoded.IsUnreserved(Text.IntToString(i)[k] as int)
  {
  }

  /** A list endpoint asks the resource's path for exactly one parameter,
      `page`, whose value is the page number in decimal. */
  lemma ListEndpointParses(r: Resource, page: int)
    ensures var (path, query) := SplitEndpoint(ListEndpoint(r, page));
      && path == Path(r)
      && UrlEncoded.Parse(query) == Some([("page", Text.IntToString(page))])
  {
    ListIsFilterByPage(r, page);
    SplitPathAndQuery(r, UrlEncoded.Serialize([("page", Text.IntToString(page))]));
    UrlEncoded.ParseSerialize([("page", Text.IntToString(page))]);
  }

  /** The list endpoint is the filter endpoint with the page as its only
      parameter, so a filter request without filters asks for the same page. */
  lemma ListIsFilterByPage(r: Resource, page: int)
    ensures FilterEndpoint(r, [("page", Text.IntToString(page))]) == ListEndpoint(r, page)
  {
    UrlEncoded.SerializeUnreserved("page");
    IntToStringUnreserved(page);
    UrlEncoded.SerializeUnreserved(Text.IntToString(page));
  }

  /** A by-id endpoint determines the id: different ids give different endpoints. */
  lemma ByIdEndpointInjective(r: Resource, id1: string, id2: string)
    requires ByIdEndpoint(r, id1) == ByIdEndpoint(r, id2)
    ensures id1 == id2
  {
    var n := |Path(r)| + 1;
    assert id1 == ByIdEndpoint(r, id1)[n..];
    assert id2 == ByIdEndpoint(r, id2)[n..];
  }

  /** A filter endpoint asks the resource's path for exactly the given pairs,
      in order, whatever characters their keys and values contain. */
  lemma FilterEndpointParses(r: Resource, params: seq<(string, string)>)
    ensures var (path, query) := SplitEndpoint(FilterEndpoint(r, params));
      && path == Path(r)
      && UrlEncoded.Parse(query) == Some(params)
  {
    SplitPathAndQuery(r, UrlEncoded.Serialize(params));
    UrlEncoded.ParseSerialize(params);
  }

  /** A search endpoint asks for the name it was given only when the name needs
      no encoding; then it is the filter endpoint with that name alone. */
  lemma SearchIsFilterByPlainName(r: Resource, name: string)
    requires forall k :: 0 <= k < |name| ==> UrlEncoded.IsUnreserved(name[k] as int)
    ensures SearchEndpoint(r, name) == FilterEndpoint(r, [("name", name)])
  {
    UrlEncoded.SerializeUnreserved("name");
    UrlEncoded.SerializeUnreserved(name);
    assert UrlEncoded.Serialize([("name", name)]) == UrlEncoded.SerializePair(("name", name));
    assert UrlEncoded.SerializePair(("name", name)) == "name" + "=" + name;
  }

  /** Printable ASCII text in which no character has a meaning of its own in
      a query or a URL: no control character (a URL parser drops tabs and line
      breaks), no `#` (it starts a fragment), and none of `%`, `+`, `&`, `=`. */
  predicate IsPlainText(s: string)
  {
    forall i :: 0 <= i < |s| ==>
      0x20 <= s[i] as int < 0x7F && s[i] != '#' && s[i] != '%' && s[i] != '+' && s[i] != '&' && s[i] != '='
  }

  /** Because the name is not encoded, a name containing `&` makes an endpoint
      whose query holds more than one parameter: the endpoint for "Rick & Morty"
      has the name "Rick " plus an extra, empty parameter " Morty", never the
      name typed. */
  lemma SearchNameWithAmpersandSplits(r: Resource, before: string, after: string)
    requires IsPlainText(before) && IsPlainText(after) && after != ""
    ensures var (path, query) := SplitEndpoint(SearchEndpoint(r, before + "&" + after));
      && path == Path(r)
      && UrlEncoded.Parse(query) == Some([("name", before), (after, "")])
      && UrlEncoded.Parse(query) != Some([("name", before + "&" + after)])
  {
    var query := "name=" + before + "&" + after;
    assert SearchEndpoint(r, before + "&" + after) == Path(r) + "?" + query;
    SplitPathAndQuery(r, query);
    PlainQueryPieces(before, after);
    PlainQueryPairs(before, after);
    var first := "name=" + before;
    UrlEncoded.ParsePiecesCons(after, []);
    assert [after] + [] == [after];
    assert [(after, "")] + [] == [(after, "")];
    UrlEncoded.ParsePiecesCons(first, [after]);
    assert [first] + [after] == [first, after];
    assert [("name", before)] + [(after, "")] == [("name", before), (after, "")];
  }

  /** The query of such a search splits at its one `&` into two pieces. */
  lemma PlainQueryPieces(before: string, after: string)
    requires IsPlainText(before) && IsPlainText(after)
    ensures UrlEncoded.Split("name=" + before + "&" + after, '&') == ["name=" + before, after]
  {
    var first := "name=" + before;
    assert "name=" + before + "&" + after == first + ['&'] + after;
    assert '&' !in first by {
      assert forall i :: 0 <= i < |first| ==> first[i] != '&';
    }
    UrlEncoded.SplitAtSeparator(first, '&', after);
    UrlEncoded.SplitWithoutSeparator(after, '&');
  }

  /** The first piece is the name with the text before the `&`; the second,
      having no `=`, is a key with an empty value. */
  lemma PlainQueryPairs(before: string, after: string)
    requires IsPlainText(before) && IsPlainText(after) && after != ""
    ensures UrlEncoded.ParsePair("name=" + before) == Some(("name", before))
    ensures UrlEncoded.ParsePair(after) == Some((after, ""))
  {
    assert "name=" + before == "name" + ['='] + before;
    UrlEncoded.SplitAtFirstSeparator("name", '=', before);
    UrlEncoded.SplitAtFirstWithoutSeparator(after, '=');
    UrlEncoded.DecodePlain("name");
    UrlEncoded.DecodePlain(before);
    UrlEncoded.DecodePlain(after);
    UrlEncoded.DecodePlain("");
  }
}
