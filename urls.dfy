/**
 * An abstract model of the Foundation types that `Route.urlRequest` works with:
 * `URL`, `URLComponents`, `URLQueryItem` and `URLRequest`. A URL is a record of
 * its scheme, host, path segments and optional list of query items; text
 * parsing and percent-encoding are not modelled.
 */
module Urls {
  import opened Wrappers

  /** `URLQueryItem`: a name and an optional value. */
  datatype QueryItem = QueryItem(name: string, value: Option<string>)

  /**
   * `URL`. `query` is `None` when the URL has no '?' part. `rfc3986` records
   * whether the URL's text is one that `URLComponents(url:resolvingAgainstBaseURL:)`
   * accepts; `URL` admits some strings that it rejects.
   */
  datatype Url = Url(scheme: string, host: string, path: seq<Segment>,
                     query: Option<seq<QueryItem>>, rfc3986: bool)

  /** `URLComponents`, the decomposed, editable form of a URL. */
  datatype Components = Components(scheme: string, host: string, path: seq<Segment>,
                                   queryItems: Option<seq<QueryItem>>)
  {
    /**
     * `components.url`. A URL assembled from components is always one that
     * `URLComponents` accepts again.
     */
    function AsUrl(): (u: Url)
      ensures u.rfc3986
      ensures ComponentsOf(u) == Some(this)
    {
      Url(scheme, host, path, queryItems, true)
    }
  }

  /** `URLRequest`: the URL to load and the HTTP method, a string. */
  datatype Request = Request(url: Url, httpMethod: string)

  /** `URLRequest(url:)`, whose HTTP method defaults to "GET". */
  function NewRequest(url: Url): (r: Request)
    ensures r.url == url && r.httpMethod == "GET"
  {
    Request(url, "GET")
  }

  /** A path segment: non-empty and free of '/'. */
  predicate IsSegment(s: string) {
    |s| > 0 && '/' !in s
  }

  /**
   * A path segment of a URL. Since segments are non-empty, a path is either
   * empty or starts with a single '/', never with "//".
   */
  type Segment = s: string | IsSegment(s) witness "a"

  /**
   * The segments of a path string, read left to right; `current` holds the
   * characters of the segment being read. Empty segments ("//", a leading or
   * trailing '/') are dropped.
   */
  function SplitSegments(s: string, current: string): (r: seq<string>)
    requires '/' !in current
    ensures forall k :: 0 <= k < |r| ==> IsSegment(r[k])
  {
    if s == [] then
      if current == [] then [] else [current]
    else if s[0] == '/' then
      (if current == [] then [] else [current]) + SplitSegments(s[1..], [])
    else
      SplitSegments(s[1..], current + [s[0]])
  }

  /** The segments of a path string (the result type makes each one a proper segment). */
  function PathSegments(s: string): (r: seq<Segment>)
  {
    SplitSegments(s, [])
  }

  /** The text of a path: each segment preceded by '/'. */
  function RenderPath(segments: seq<string>): (s: string)
    ensures |s| >= |segments|
  {
    if segments == [] then "" else "/" + segments[0] + RenderPath(segments[1..])
  }

  /** `url.appendingPathComponent(component)`: the path grows by the component's segments. */
  function AppendingPathComponent(u: Url, component: string): (r: Url)
    ensures |r.path| == |u.path| + |PathSegments(component)|
    ensures r.path[..|u.path|] == u.path && r.path[|u.path|..] == PathSegments(component)
    ensures r.scheme == u.scheme && r.host == u.host && r.query == u.query && r.rfc3986 == u.rfc3986
  {
    u.(path := u.path + PathSegments(component))
  }

  /** `URLComponents(url:resolvingAgainstBaseURL: false)`, which fails on text it cannot parse. */
  function ComponentsOf(u: Url): (c: Option<Components>)
    ensures c.Some? <==> u.rfc3986
    ensures c.Some? ==> c.value.path == u.path && c.value.queryItems == u.query
    ensures c.Some? ==> c.value.scheme == u.scheme && c.value.host == u.host
  {
    if u.rfc3986 then Some(Components(u.scheme, u.host, u.path, u.query)) else None
  }

  /** Reading a segment's characters carries them over as part of the segment being read. */
  lemma {:induction false} SplitSkipsSegment(w: string, rest: string, current: string)
    requires '/' !in w && '/' !in current
    ensures SplitSegments(w + rest, current) == SplitSegments(rest, current + w)
  {
    if w != [] {
      assert w[0] in w;
      assert (w + rest)[0] == w[0] != '/' && (w + rest)[1..] == w[1..] + rest;
      assert '/' !in current + [w[0]];
      assert forall c :: c in w[1..] ==> c in w;
      assert current + [w[0]] + w[1..] == current + w;
      assert w + rest != [];
      assert SplitSegments(w + rest, current) == SplitSegments(w[1..] + rest, current + [w[0]]);
      SplitSkipsSegment(w[1..], rest, current + [w[0]]);
    } else {
      assert w + rest == rest && current + w == current;
    }
  }

  /** Splitting a rendered path, with `current` read so far, yields `current` (when any) and then the segments. */
  lemma {:induction false} SplitRendered(segments: seq<string>, current: string)
    requires forall k :: 0 <= k < |segments| ==> IsSegment(segments[k])
    requires '/' !in current
    ensures SplitSegments(RenderPath(segments), current)
         == (if current == [] then [] else [current]) + segments
  {
    if segments != [] {
      var rest := RenderPath(segments[1..]);
      assert IsSegment(segments[0]);
      assert RenderPath(segments) == "/" + (segments[0] + rest);
      SplitSkipsSegment(segments[0], rest, []);
      assert [] + segments[0] == segments[0];
      SplitRendered(segments[1..], segments[0]);
      assert [segments[0]] + segments[1..] == segments;
    }
  }

  /** A '/' ends the segment being read; what follows it is split afresh. */
  lemma {:induction false} SplitAtSlash(a: string, b: string, current: string)
    requires '/' !in current
    ensures SplitSegments(a + "/" + b, current) == SplitSegments(a, current) + SplitSegments(b, [])
  {
    var s := a + "/" + b;
    if a == [] {
      assert s == "/" + b && s[1..] == b;
    } else {
      assert s[0] == a[0] && s[1..] == a[1..] + "/" + b;
      if a[0] == '/' {
        SplitAtSlash(a[1..], b, []);
        assert SplitSegments(a[1..], []) + SplitSegments(b, []) == SplitSegments(a[1..] + "/" + b, []);
      } else {
        assert '/' !in current + [a[0]];
        SplitAtSlash(a[1..], b, current + [a[0]]);
      }
    }
  }

  /**
   * Appending "a/b" appends the segments of "a" and then those of "b", as
   * Foundation appends a component that contains '/' piece by piece.
   */
  lemma PathSegmentsConcat(a: string, b: string)
    ensures PathSegments(a + "/" + b) == PathSegments(a) + PathSegments(b)
  {
    SplitAtSlash(a, b, []);
  }

  /** Splitting is the inverse of rendering, for any list of proper segments. */
  lemma PathRoundTrip(segments: seq<string>)
    requires forall k :: 0 <= k < |segments| ==> IsSegment(segments[k])
    ensures PathSegments(RenderPath(segments)) == segments
  {
    SplitRendered(segments, []);
  }
}
