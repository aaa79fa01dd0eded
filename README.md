# TvMaze API routes in Dafny

This project models how the TvMaze client's API layer builds its HTTP requests.
A `Route` is a small request descriptor: a path, an HTTP method (`Route.Method`,
whose only case is `.get` with raw value `"GET"`) and an optional list of
`URLQueryItem`s. Two static constructors build the routes the client uses:
`shows(page)`, for one page of the show catalogue, and `searchShows(term)`, for
the search endpoint. `urlRequest(withBaseURL:)` turns a route into a
`URLRequest` in four steps:

1. It appends the route's path to the base URL.
2. It decomposes the result with `URLComponents`.
3. It appends the route's query items after the ones the URL already has.
4. It sets the HTTP method to the method's raw value.

If `URLComponents` cannot produce a URL, the request still gets the URL from step 1.

Files:

- `wrappers.dfy`: module `Wrappers`, an `Option` type standing for Swift's optionals. `GetOr` models `??`.
- `decimal.dfy`: module `Decimal`. `IntToString` models how Swift renders an `Int` in `"\(page)"`. `ParseInt` reads such text back the way Swift's `Int(_:)` does: an optional sign, then digits, and no value when the number does not fit in 64 bits. Lemmas prove the two are inverse. They also prove that the rendering is exactly the canonical text for the number.
- `urls.dfy`: module `Urls`, an abstract model of Foundation's `URL`, `URLComponents`, `URLQueryItem` and `URLRequest`. A URL is a record. It holds the scheme, the host, a list of path segments, an optional list of query items, and a flag saying whether `URLComponents` accepts the URL's text. Splitting a path string into segments is proved to invert rendering the segments.
- `routes.dfy`: module `Routes`. It holds `Method`, `Route`, the constructors `Shows` and `SearchShows`, and `Route.UrlRequest`. `UrlRequest` is a method that follows the Swift statements one by one, and its result is proved equal to `RequestFor`, a field-by-field description of the request. Lemmas about `RequestFor` cover the two routes the client uses.

`Route.shows` takes any Swift `Int`. A negative page is rendered with a leading `-`, so `Shows` is defined on every 64-bit integer.

## Model

| member | source | states |
|---|---|---|
| `Routes.Route.UrlRequest` | TvMazeAppLib/Sources/ApiClient/Internal/Route.swift:21-37 | The request equals `RequestFor(route, base)`. Its HTTP method is the route method's raw value. It keeps the base scheme and host. Its path is the base path followed by the route path's segments. With no route query, the query is the base URL's query unchanged. With a route query and a URL that `URLComponents` accepts, the query is the existing items (none if absent) followed by the route's items. Otherwise the URL is the path-appended URL. |
| `Routes.QueryMergeOrder` | TvMazeAppLib/Sources/ApiClient/Internal/Route.swift:25-28 | The merged query holds the existing items first, in their order, then the route's items, in their order. Its length is the sum of the two lengths. |
| `Routes.RequestPathExtendsBase` | TvMazeAppLib/Sources/ApiClient/Internal/Route.swift:22 | The request path starts with the base URL's path, and the rest is exactly the route path's segments. |
| `Routes.Method.RawValue` | TvMazeAppLib/Sources/ApiClient/Internal/Route.swift:15-17 | `.get` has raw value `"GET"`, and `Method(rawValue:)` maps the raw value back to the same case. `RawValueCharacterized` shows that no other text names a method. Line 35 sets this raw value as the request's HTTP method. |
| `Routes.RawValueCharacterized` | TvMazeAppLib/Sources/ApiClient/Internal/Route.swift:15-17 | A method's raw value is `s` exactly when `Method(rawValue: s)` gives that method back. `.get` has raw value `"GET"`. |
| `Routes.Shows` | TvMazeAppLib/Sources/ApiClient/Internal/Route.swift:41-43 | The route has path `"/shows"` and method GET. Its query is a single item named `"page"`. That item's value is canonical decimal text, and reading it back gives `page`. |
| `Routes.ShowsInjective` | TvMazeAppLib/Sources/ApiClient/Internal/Route.swift:42 | Different page numbers give different routes. |
| `Routes.ShowsPathSegments` | TvMazeAppLib/Sources/ApiClient/Internal/Route.swift:42 | The catalogue path `"/shows"` is the single segment `shows`. |
| `Routes.ShowsRequest` | TvMazeAppLib/Sources/ApiClient/Internal/Route.swift:41-43 | The request for `shows(page)` is a GET of the base path plus `shows`. When `URLComponents` accepts the base URL, the query is the base items followed by one item. That item is named `page`, and its value is the decimal text of `page`, which reads back as `page`. Otherwise the base query is unchanged. |
| `Routes.SearchShows` | TvMazeAppLib/Sources/ApiClient/Internal/Route.swift:45-53 | The route has path `"/search/shows"` and method GET. Its query is exactly `[("q", term)]`, with the term passed through unchanged. |
| `Routes.SearchShowsInjective` | TvMazeAppLib/Sources/ApiClient/Internal/Route.swift:50 | Different search terms give different routes. |
| `Routes.SearchShowsPathSegments` | TvMazeAppLib/Sources/ApiClient/Internal/Route.swift:47 | The search path `"/search/shows"` is the segments `search`, `shows`. |
| `Routes.SearchShowsRequest` | TvMazeAppLib/Sources/ApiClient/Internal/Route.swift:45-53 | The request for `searchShows(term)` is a GET of the base path plus `search/shows`. When `URLComponents` accepts the base URL, the query is the base items followed by `("q", term)`. Otherwise the base query is unchanged. |
| `Decimal.IntToString` | TvMazeAppLib/Sources/ApiClient/Internal/Route.swift:42 | `"\(page)"` is non-empty canonical decimal text with no superfluous leading zero. It starts with `-` exactly when the number is negative. |
| `Decimal.NatToString` | TvMazeAppLib/Sources/ApiClient/Internal/Route.swift:42 | The digits of a natural number are canonical. They start with `0` only for zero, and there is one digit exactly below ten. |
| `Decimal.IntRoundTrip` | TvMazeAppLib/Sources/ApiClient/Internal/Route.swift:42 | Reading the rendering of any 64-bit `Int` back gives the same `Int`. |
| `Decimal.IntToStringCharacterized` | TvMazeAppLib/Sources/ApiClient/Internal/Route.swift:42 | The rendering of `i` equals `s` if and only if `s` is canonical and reads back as `i`. |
| `Decimal.IntToStringInjective` | TvMazeAppLib/Sources/ApiClient/Internal/Route.swift:42 | Distinct integers render to distinct text. |
| `Urls.AppendingPathComponent` | TvMazeAppLib/Sources/ApiClient/Internal/Route.swift:22 | Appending a path component keeps the old path as a prefix and adds the component's segments after it. Scheme, host, query and parseability stay the same. |
| `Urls.ComponentsOf` | TvMazeAppLib/Sources/ApiClient/Internal/Route.swift:23 | `URLComponents(url:)` exists exactly when the URL's text is acceptable to it. Its parts then equal the URL's parts, and its `queryItems` equals the URL's query. |
| `Urls.Components.AsUrl` | TvMazeAppLib/Sources/ApiClient/Internal/Route.swift:30 | `components.url` is a URL that `URLComponents` accepts again and that decomposes back into the same components. |
| `Urls.NewRequest` | TvMazeAppLib/Sources/ApiClient/Internal/Route.swift:34 | `URLRequest(url:)` holds that URL, and its HTTP method defaults to `"GET"`. |
| `Urls.PathSegmentsConcat` | TvMazeAppLib/Sources/ApiClient/Internal/Route.swift:22 | The segments of `a + "/" + b` are the segments of `a` followed by those of `b`, so appending a component with `/` in it appends its pieces in order. |
| `Urls.PathRoundTrip` | TvMazeAppLib/Sources/ApiClient/Internal/Route.swift:22 | Splitting a rendered path gives back the same segments, for any list of non-empty segments without `/`. |
| `Wrappers.Option.GetOr` | TvMazeAppLib/Sources/ApiClient/Internal/Route.swift:26 | `x ?? default` is the wrapped value when there is one, and `default` otherwise. |

## Left out

- The pagination engine (the `PaginationSink` target in `TvMazeAppLib/Package.swift`) has no source in the files modelled here. Its load-next, reset and stale-completion logic is not part of this model.
- `TvMazeAppLib/Sources/ApiClient/ApiClient.swift` is not modelled. It does network I/O through `URLSession`, Combine publisher wiring, JSON decoding and debug logging, all foreign calls. It also echoes the page number into `FetchShowsResult`. The `.showsEpisodes` route it refers to is not defined in `Route.swift`, so that route's path is not modelled.
- The UI files (`Stack.swift`, `ShowItemCell.swift`, `ShowDetailViewController.swift`) and the build manifest `Package.swift` have no route logic.
- URL text is not modelled: no parsing, no rendering of a whole URL, and no percent-encoding. A search term is carried as raw characters. Foundation percent-encodes it when it writes the query string.
- Urls.ComponentsOf: a URL carries a flag telling whether `URLComponents` accepts its text. The model does not derive that flag from RFC 3986 rules.
- Urls.AppendingPathComponent: Foundation's handling of `/` (a leading or doubled slash, a trailing "directory" slash) is abstracted. The path is a list of segments, empty segments are dropped, and so `"/shows"` and `"shows"` append the same way.
- Urls.Components.AsUrl: always yields a URL. Foundation's `URLComponents.url` is `nil` in two cases: a host is present and the path is non-empty without a leading `/`, or there is no host and the path starts with `//`. A model path is a list of `Segment`s, a type whose values are non-empty and contain no `/`. Such a path is either empty, which is allowed with a host, or every segment is preceded by a single `/`, so it never starts with `//`. Neither case can arise, so the fallback in `urlRequest` is reached exactly when `URLComponents(url:)` fails.
- A URL's port, user, password and fragment are not represented. `urlRequest` keeps them through `appendingPathComponent` and through the `URLComponents` round trip, and the model cannot state that.
- `URLRequest` fields other than the URL and the HTTP method (headers, body, timeout, cache policy) are left out, because `urlRequest` does not touch them.
- Decimal.ParseInt is a reference reader used to state the round trip. It is not code of this repository. It follows Swift's `Int(_:)` for ASCII input only.
