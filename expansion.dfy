/** How a detail page resolves the records another record refers to: each
    reference URL is fetched with `fetch(url).then(res => res.json())`, and the
    requests are joined with `Promise.all`, which fails as soon as one of them
    fails. */
module Expansion {
  import opened Wrappers
  import Api

  /** The episode and location pages fetch at most this many references. */
  const DetailLimit := 20

  /** `refs.slice(0, limit)`: the first `limit` references, or all of them
      when there are fewer. */
  function Slice<T>(refs: seq<T>, limit: nat): (r: seq<T>)
    ensures |r| == if |refs| < limit then |refs| else limit
    ensures forall i :: 0 <= i < |r| ==> r[i] == refs[i]
    ensures |refs| <= limit ==> r == refs
  {
    if |refs| <= limit then refs else refs[..limit]
  }

  /** One reference fetch: resolved with the body whenever it decodes. Unlike
      `fetchData`, the status of the response is never looked at. */
  function FetchJson<T>(response: Api.HttpResponse<T>): (r: Outcome<T>)
    ensures r.Ok? <==> response.body.Some?
    ensures r.Ok? ==> r.value == response.body.value
  {
    match response.body
    case None => Fail
    case Some(v) => Ok(v)
  }

  /** `Promise.all(urls.map(url => fetch(url).then(res => res.json())))`:
      the bodies in the order of the URLs when every one of them decodes, and
      a failure when any one does not. */
  function All<T>(urls: seq<string>, network: string -> Api.HttpResponse<T>): (r: Outcome<seq<T>>)
    ensures r.Ok? <==> forall i :: 0 <= i < |urls| ==> network(urls[i]).body.Some?
    ensures r.Ok? ==> |r.value| == |urls|
    ensures r.Ok? ==> forall i :: 0 <= i < |urls| ==> r.value[i] == network(urls[i]).body.value
  {
    if urls == [] then Ok([])
    else
      match FetchJson(network(urls[0]))
      case Fail => Fail
      case Ok(first) =>
        match All(urls[1..], network)
        case Fail => Fail
        case Ok(rest) => Ok([first] + rest)
  }

  /** Every response `fetchData` accepts is accepted here with the same body,
      but an error status with a JSON body is accepted here and not there. */
  lemma FetchJsonIgnoresStatus<T>(response: Api.HttpResponse<T>)
    ensures Api.Settle(response).Ok? ==> FetchJson(response) == Api.Settle(response)
    ensures !response.ok && response.body.Some? ==> FetchJson(response).Ok? && Api.Settle(response).Fail?
  {
  }

  /** "(Showing 20 of N)", shown beside the heading when the record refers to
      more than twenty others. */
  function Notice(total: int): (n: Option<(int, int)>)
    ensures n.Some? <==> total > DetailLimit
    ensures n.Some? ==> n.value.1 == total
  {
    if total > DetailLimit then Some((20, total)) else None
  }

  /** The notice appears exactly when the slice drops references, and then
      the number it shows is the number of references fetched. */
  lemma NoticeMatchesSlice<T>(refs: seq<T>)
    ensures Notice(|refs|).None? <==> Slice(refs, DetailLimit) == refs
    ensures Notice(|refs|).Some? ==> Notice(|refs|).value == (|Slice(refs, DetailLimit)|, |refs|)
  {
    if |refs| > DetailLimit {
      assert |Slice(refs, DetailLimit)| != |refs|;
    }
  }
}
