/**
 * Request routes of the TV catalogue API: a route is a path, an HTTP method
 * and an optional list of query items, and `UrlRequest` turns it into a
 * `URLRequest` against a base URL.
 */
module Routes {
  import opened Wrappers
  import opened Decimal
  import opened Urls

  /** `Route.Method`, an enum whose raw values are the HTTP method names. */
  datatype Method = Get {

    /** `method.rawValue`: the HTTP method name, which `Method(rawValue:)` maps back to this case. */
    function RawValue(): (s: string)
      ensures MethodFromRawValue(s) == Some(this)
      ensures this == Get ==> s == "GET"
    {
      match this
      case Get => "GET"
    }
  }

  /** `Route.Method(rawValue:)`, the failable initializer Swift derives from the raw values. */
  function MethodFromRawValue(s: string): Option<Method> {
    if s == "GET" then Some(Get) else None
  }

  /** The raw value names the method and nothing else names it. */
  lemma RawValueCharacterized(m: Method, s: string)
    ensures m.RawValue() == s <==> MethodFromRawValue(s) == Some(m)
    ensures Get.RawValue() == "GET"
  {
  }

  datatype Route = Route(path: string, httpMethod: Method, query: Option<seq<QueryItem>>)
  {
    /**
     * `urlRequest(withBaseURL:)`: append the path, append the route's query
     * items after those already present, fall back to the path-appended URL
     * when `URLComponents` cannot take it, and set the HTTP method.
     */
    method UrlRequest(baseURL: Url) returns (request: Request)
      ensures request == RequestFor(this, baseURL)
      ensures request.httpMethod == httpMethod.RawValue()
      ensures request.url.scheme == baseURL.scheme && request.url.host == baseURL.host
      ensures request.url.path == baseURL.path + PathSegments(path)
      ensures query.None? ==> request.url.query == baseURL.query
      ensures query.Some? && baseURL.rfc3986
          ==> request.url.query == Some(baseURL.query.GetOr([]) + query.value)
      ensures !baseURL.rfc3986 ==> request.url == AppendingPathComponent(baseURL, path)
    {
      var url := AppendingPathComponent(baseURL, path);
      var components := ComponentsOf(url);

      if query.Some? {
        var currentQuery := if components.Some? then components.value.queryItems.GetOr([]) else [];
        if components.Some? {
          components := Some(components.value.(queryItems := Some(currentQuery + query.value)));
        }
      }

      if components.Some? {
        url := components.value.AsUrl();
      }

      request := NewRequest(url);
      request := request.(httpMethod := httpMethod.RawValue());
    }
  }

  /** The query of the request: the base URL's items, then the route's, when `URLComponents` accepts the URL. */
  function MergedQuery(baseURL: Url, routeQuery: Option<seq<QueryItem>>): Option<seq<QueryItem>> {
    match routeQuery
    case None => baseURL.query
    case Some(items) => if baseURL.rfc3986 then Some(baseURL.query.GetOr([]) + items) else baseURL.query
  }

  /** The request `UrlRequest` builds, described field by field. */
  function RequestFor(route: Route, baseURL: Url): Request {
    Request(Url(baseURL.scheme, baseURL.host, baseURL.path + PathSegments(route.path),
                MergedQuery(baseURL, route.query), baseURL.rfc3986),
            route.httpMethod.RawValue())
  }

  /** `Route.shows(page)`: one page of the show catalogue. */
  function Shows(page: Int64): (r: Route)
    ensures r.path == "/shows" && r.httpMethod == Get
    ensures r.query.Some? && |r.query.value| == 1 && r.query.value[0].name == "page"
    ensures r.query.value[0].value.Some?
    ensures IsCanonicalInt(r.query.value[0].value.value)
    ensures ParseInt(r.query.value[0].value.value) == Some(page)
  {
    IntRoundTrip(page);
    Route("/shows", Get, Some([QueryItem("page", Some(IntToString(page)))]))
  }

  /** `Route.searchShows(term)`: the search endpoint, with the term passed through as is. */
  function SearchShows(term: string): (r: Route)
    ensures r.path == "/search/shows" && r.httpMethod == Get
    ensures r.query == Some([QueryItem("q", Some(term))])
  {
    Route("/search/shows", Get, Some([QueryItem("q", Some(term))]))
  }

  /** Different pages give different routes. */
  lemma ShowsInjective(p: Int64, q: Int64)
    requires Shows(p) == Shows(q)
    ensures p == q
  {
  }

  /** Different search terms give different routes. */
  lemma SearchShowsInjective(s: string, t: string)
    requires SearchShows(s) == SearchShows(t)
    ensures s == t
  {
  }

  /** The catalogue path has the single segment "shows". */
  lemma ShowsPathSegments()
    ensures PathSegments("/shows") == ["shows"]
  {
    assert RenderPath(["shows"]) == "/shows";
    PathRoundTrip(["shows"]);
  }

  /** The search path has the segments "search" and "shows". */
  lemma SearchShowsPathSegments()
    ensures PathSegments("/search/shows") == ["search", "shows"]
  {
    var segments := ["search", "shows"];
    assert segments[1..] == ["shows"];
    assert RenderPath(["shows"]) == "/shows";
    assert RenderPath(segments) == "/search" + "/shows" == "/search/shows";
    PathRoundTrip(segments);
  }

  /**
   * Merging keeps the base URL's items, in order, and puts the route's items
   * after them, in order; the count is the sum of the two counts.
   */
  lemma QueryMergeOrder(baseURL: Url, items: seq<QueryItem>)
    requires baseURL.rfc3986
    ensures var existing := baseURL.query.GetOr([]);
            var merged := MergedQuery(baseURL, Some(items));
            merged.Some? && |merged.value| == |existing| + |items|
            && merged.value[..|existing|] == existing && merged.value[|existing|..] == items
  {
  }

  /** The request's path is the base URL's path followed by the route's segments. */
  lemma RequestPathExtendsBase(route: Route, baseURL: Url)
    ensures var p := RequestFor(route, baseURL).url.path;
            |p| == |baseURL.path| + |PathSegments(route.path)|
            && p[..|baseURL.path|] == baseURL.path && p[|baseURL.path|..] == PathSegments(route.path)
  {
  }

  /**
   * The request for a catalogue page: a GET of the base path plus "shows",
   * whose last query item is "page" and reads back as the page number.
   */
  lemma ShowsRequest(page: Int64, baseURL: Url)
    ensures var r := RequestFor(Shows(page), baseURL);
            r.httpMethod == "GET" && r.url.path == baseURL.path + ["shows"]
    ensures var r := RequestFor(Shows(page), baseURL);
            var existing := baseURL.query.GetOr([]);
            baseURL.rfc3986 ==>
              r.url.query.Some? && |r.url.query.value| == |existing| + 1
              && r.url.query.value[..|existing|] == existing
              && var last := r.url.query.value[|existing|];
                 last.name == "page" && last.value == Some(IntToString(page))
                 && ParseInt(last.value.value) == Some(page)
    ensures !baseURL.rfc3986 ==> RequestFor(Shows(page), baseURL).url.query == baseURL.query
  {
    ShowsPathSegments();
    IntRoundTrip(page);
  }

  /**
   * The request for a search: a GET of the base path plus "search/shows",
   * whose last query item is ("q", term).
   */
  lemma SearchShowsRequest(term: string, baseURL: Url)
    ensures var r := RequestFor(SearchShows(term), baseURL);
            r.httpMethod == "GET" && r.url.path == baseURL.path + ["search", "shows"]
    ensures var r := RequestFor(SearchShows(term), baseURL);
            var existing := baseURL.query.GetOr([]);
            baseURL.rfc3986 ==>
              r.url.query == Some(existing + [QueryItem("q", Some(term))])
    ensures !baseURL.rfc3986 ==> RequestFor(SearchShows(term), baseURL).url.query == baseURL.query
  {
    SearchShowsPathSegments();
  }
}
