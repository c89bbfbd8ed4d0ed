/**
 * The network as the downloader sees it: a request carrying a User-Agent
 * header (`_req`), the outcome of opening it, and the header lookup that
 * `_getheader` performs on a response.
 */
module Net {
  import opened Wrappers
  import opened Text

  type Bytes = seq<bv8>

  /** `_req(url, ua_head)`: a request for `url` whose `User-Agent` header is `userAgent`. */
  datatype Request = Request(url: string, userAgent: string)

  /**
   * What `urlopen` gives for a request: a response (the URL reached after
   * following every redirect, the body that `read()` returns, and the header
   * list that `info()` exposes, `None` when `info()` itself fails), an
   * `HTTPError` with its status code, or a failure below HTTP (`URLError`),
   * which nothing in the downloader catches.
   */
  datatype FetchResult =
    | Response(finalUrl: string, body: Bytes, headers: Option<seq<(string, string)>>)
    | HttpError(code: int)
    | ConnectionError

  /** The network is a total function of the request. */
  type Fetcher = Request -> FetchResult

  /** Header names compare case-insensitively, as in Python's `email.message.Message`. */
  predicate SameHeaderName(a: string, b: string) { LowerString(a) == LowerString(b) }

  /** Index of the first header called `name`; `|headers|` when there is none. */
  function FirstHeader(headers: seq<(string, string)>, name: string): (k: nat)
    ensures k <= |headers|
    ensures forall j :: 0 <= j < k ==> !SameHeaderName(headers[j].0, name)
    ensures k < |headers| ==> SameHeaderName(headers[k].0, name)
  {
    if headers == [] || SameHeaderName(headers[0].0, name) then 0
    else 1 + FirstHeader(headers[1..], name)
  }

  /** What `_getheader` hands back: a header's value, Python's `None` for a missing header, or `"-"`. */
  datatype HeaderValue = Value(text: string) | Missing | Dash

  /**
   * `_getheader(resp, head)`: `resp.info()[head]` is the value of the first
   * header of that name, or `None` when there is none; the bare `except`
   * turns a failure of `resp.info()` into `"-"`.
   */
  function GetHeader(info: Option<seq<(string, string)>>, name: string): (v: HeaderValue)
    ensures v.Dash? <==> info.None?
    ensures v.Missing? <==> info.Some? && forall j :: 0 <= j < |info.value| ==> !SameHeaderName(info.value[j].0, name)
    ensures v.Value? ==> exists j :: 0 <= j < |info.value| && SameHeaderName(info.value[j].0, name)
                                   && v.text == info.value[j].1
                                   && forall i :: 0 <= i < j ==> !SameHeaderName(info.value[i].0, name)
  {
    match info
    case None => Dash
    case Some(headers) =>
      var k := FirstHeader(headers, name);
      if k < |headers| then Value(headers[k].1) else Missing
  }
}
