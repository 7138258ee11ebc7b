/** The request filter in front of every route: CORS headers for API paths and a
    sign-in redirect for protected pages. */
module Middleware {
  import opened Model

  /** The allowlist used when `ALLOWED_ORIGINS` is not set. */
  const DefaultOrigins: seq<string> := [
    "https://nuxtjs-frontend.vercel.app",
    "https://nextjs-backend-flame.vercel.app",
    "http://localhost:3000",
    "http://localhost:3001"
  ]

  const AllowOrigin := "Access-Control-Allow-Origin"
  const AllowCredentials := "Access-Control-Allow-Credentials"
  const AllowMethods := "Access-Control-Allow-Methods"
  const AllowHeaders := "Access-Control-Allow-Headers"
  const AllowedMethods := "GET, POST, PUT, DELETE, OPTIONS"
  const AllowedHeaders := "Content-Type, Authorization, X-Requested-With, X-Challenge"

  /** JavaScript's `s.split(sep)` for a one-character separator: the pieces between
      separators, empty ones included (so "" splits into [""]). */
  function Split(s: string, sep: char): (parts: seq<string>)
    ensures |parts| >= 1
  {
    if s == [] then [""]
    else
      var rest := Split(s[1..], sep);
      if s[0] == sep then [""] + rest else [[s[0]] + rest[0]] + rest[1..]
  }

  /** `parts.join(sep)` */
  function Join(parts: seq<string>, sep: char): string
    requires |parts| >= 1
  {
    if |parts| == 1 then parts[0] else parts[0] + [sep] + Join(parts[1..], sep)
  }

  predicate SeparatorFree(parts: seq<string>, sep: char) {
    forall i :: 0 <= i < |parts| ==> sep !in parts[i]
  }

  /** Splitting loses nothing: the pieces hold no separator and join back to `s`. */
  lemma {:induction false} JoinSplit(s: string, sep: char)
    ensures SeparatorFree(Split(s, sep), sep)
    ensures Join(Split(s, sep), sep) == s
  {
    if s != [] {
      var rest := Split(s[1..], sep);
      JoinSplit(s[1..], sep);
      if s[0] == sep {
        assert Split(s, sep)[1..] == rest;
      } else {
        var parts := Split(s, sep);
        assert parts[0] == [s[0]] + rest[0];
        assert parts[1..] == rest[1..];
        forall i | 0 <= i < |parts| ensures sep !in parts[i] {
          if i > 0 {
            assert parts[i] == rest[i];
          }
        }
        if |rest| > 1 {
          assert Join(rest, sep) == rest[0] + [sep] + Join(rest[1..], sep);
        }
      }
    }
  }

  /** A separator-free prefix `p` joins the first piece of what follows it. */
  lemma {:induction false} SplitAfterPiece(p: string, t: string, sep: char)
    requires sep !in p
    ensures Split(p + t, sep) == [p + Split(t, sep)[0]] + Split(t, sep)[1..]
  {
    if p != [] {
      assert (p + t)[1..] == p[1..] + t;
      assert sep !in p[1..] by { assert forall x :: x in p[1..] ==> x in p; }
      SplitAfterPiece(p[1..], t, sep);
      assert [p[0]] + (p[1..] + Split(t, sep)[0]) == p + Split(t, sep)[0];
    } else {
      var parts := Split(t, sep);
      assert p + t == t && p + parts[0] == parts[0];
      assert parts == [parts[0]] + parts[1..];
    }
  }

  /** Joining separator-free pieces and splitting again gives the pieces back. */
  lemma {:induction false} SplitJoin(parts: seq<string>, sep: char)
    requires |parts| >= 1 && SeparatorFree(parts, sep)
    ensures Split(Join(parts, sep), sep) == parts
  {
    if |parts| == 1 {
      SplitAfterPiece(parts[0], "", sep);
      assert parts[0] + "" == parts[0];
    } else {
      var rest := Join(parts[1..], sep);
      SplitJoin(parts[1..], sep);
      assert ([sep] + rest)[1..] == rest;
      assert Split([sep] + rest, sep) == [""] + parts[1..];
      assert Join(parts, sep) == parts[0] + ([sep] + rest);
      SplitAfterPiece(parts[0], [sep] + rest, sep);
      assert parts[0] + "" == parts[0];
      assert [parts[0]] + parts[1..] == parts;
    }
  }

  /** `process.env.ALLOWED_ORIGINS?.split(',') || defaults`: a defined variable, even an
      empty one, replaces the defaults by its comma-separated pieces. */
  function AllowedOrigins(env: Option<string>): (origins: seq<string>)
    ensures env.None? ==> origins == DefaultOrigins
    ensures env.Some? ==> |origins| >= 1 && SeparatorFree(origins, ',') && Join(origins, ',') == env.value
  {
    match env
    case None => DefaultOrigins
    case Some(v) => JoinSplit(v, ','); Split(v, ',')
  }

  /** The headers the CORS response carries, for the `origin` request header. */
  function CorsHeaders(env: Option<string>, origin: Option<string>): (h: map<string, string>)
    ensures AllowOrigin in h <==> Truthy(origin) && origin.value in AllowedOrigins(env)
    ensures AllowOrigin in h ==> h[AllowOrigin] == origin.value
    ensures AllowCredentials in h && h[AllowCredentials] == "true"
    ensures AllowMethods in h && h[AllowMethods] == AllowedMethods
    ensures AllowHeaders in h && h[AllowHeaders] == AllowedHeaders
    ensures h.Keys <= {AllowOrigin, AllowCredentials, AllowMethods, AllowHeaders}
  {
    var fixed := map[AllowCredentials := "true", AllowMethods := AllowedMethods, AllowHeaders := AllowedHeaders];
    if Truthy(origin) && origin.value in AllowedOrigins(env) then fixed[AllowOrigin := origin.value] else fixed
  }

  /** `corsMiddleware`: sets the response headers one after another. */
  method CorsMiddleware(env: Option<string>, origin: Option<string>) returns (headers: map<string, string>)
    ensures headers == CorsHeaders(env, origin)
  {
    var allowed := AllowedOrigins(env);
    headers := map[];
    if Truthy(origin) && origin.value in allowed {
      headers := headers[AllowOrigin := origin.value];
    }
    headers := headers[AllowCredentials := "true"];
    headers := headers[AllowMethods := AllowedMethods];
    headers := headers[AllowHeaders := AllowedHeaders];
  }

  datatype Request = Request(pathname: string, httpMethod: string, origin: Option<string>, urlOrigin: string)

  datatype Decision =
    | Cors(headers: map<string, string>)
    | Redirect(location: string)
    | PassThrough

  predicate IsApiPath(path: string) {
    "/api/" <= path
  }

  predicate IsProtectedPath(path: string) {
    "/dashboard" <= path || "/admin" <= path
  }

  /** The default export: API paths get the CORS response (preflight or not), signed-out
      visits to dashboard or admin pages go to the sign-in page, the rest pass. */
  function Route(req: Request, loggedIn: bool, env: Option<string>): (d: Decision)
    ensures d.Cors? <==> IsApiPath(req.pathname)
    ensures d.Cors? ==> d.headers == CorsHeaders(env, req.origin)
    ensures d.Redirect? <==> !IsApiPath(req.pathname) && !loggedIn && IsProtectedPath(req.pathname)
    ensures d.Redirect? ==> d.location == req.urlOrigin + "/signin"
  {
    if IsApiPath(req.pathname) then Cors(CorsHeaders(env, req.origin))
    else if !loggedIn && IsProtectedPath(req.pathname) then Redirect(req.urlOrigin + "/signin")
    else PassThrough
  }

  /** The request method and the sign-in state never change what an API path gets. */
  lemma ApiRouteIgnoresMethodAndLogin(req: Request, method': string, loggedIn: bool, loggedIn': bool, env: Option<string>)
    requires IsApiPath(req.pathname)
    ensures Route(req, loggedIn, env) == Route(req.(httpMethod := method'), loggedIn', env)
  {
  }
}
