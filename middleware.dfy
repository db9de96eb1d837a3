/**
 * The Next.js middleware in front of `/api/items`: a request to a path under
 * `/api/items` without an Authorization or an X-API-Key header is answered
 * with 401 before it reaches the handler; everything else goes on. Only the
 * presence of a header is checked, never its content.
 */
module Middleware {
  import opened Wrappers
  import opened Store
  import opened Http
  import opened JsString
  import ItemsRoute

  const PROTECTED_PREFIX: string := "/api/items"

  /** `s.startsWith(prefix)`. */
  predicate StartsWith(s: string, prefix: string)
  {
    |prefix| <= |s| && s[..|prefix|] == prefix
  }

  /** `config.matcher: '/api/items/:path*'`: the path itself, or the path followed by `/` and more. */
  predicate Matched(path: string)
  {
    path == PROTECTED_PREFIX || StartsWith(path, PROTECTED_PREFIX + "/")
  }

  /** What the middleware does with a request: pass it on (`NextResponse.next()`) or answer it. */
  datatype Outcome = Next | Reject(status: int)

  /** The middleware's body, for any request it is invoked on. */
  function Check(path: string, h: Headers): (r: Outcome)
    ensures !StartsWith(path, PROTECTED_PREFIX) ==> r == Next
    ensures StartsWith(path, PROTECTED_PREFIX) ==>
      (r == Reject(401) <==> !Present(h.authorization) && !Present(h.xApiKey))
    ensures r == Next || r == Reject(401)
  {
    if !StartsWith(path, PROTECTED_PREFIX) then Next
    else
      // `headers.get('Authorization') || headers.get('X-API-Key')`
      var keyHeader := if Present(h.authorization) then h.authorization else h.xApiKey;
      if !Present(keyHeader) then Reject(401) else Next
  }

  /** A request as the framework routes it: the middleware runs only where the matcher matches. */
  function Handle(path: string, h: Headers): (r: Outcome)
    ensures !Matched(path) ==> r == Next
    ensures Matched(path) ==> r == Check(path, h)
  {
    if Matched(path) then Check(path, h) else Next
  }

  /** Every path the matcher selects passes the prefix test, so for them the test never lets a request through unchecked. */
  lemma MatchedPathsAreChecked(path: string)
    requires Matched(path)
    ensures StartsWith(path, PROTECTED_PREFIX)
  {
    if path != PROTECTED_PREFIX {
      assert path[..|PROTECTED_PREFIX|] == (PROTECTED_PREFIX + "/")[..|PROTECTED_PREFIX|];
    }
  }

  /**
   * A request is refused exactly when its path is matched and both key headers
   * are missing or empty; every other request goes on to its route.
   */
  lemma HandleRefusesExactlyKeyless(path: string, h: Headers)
    ensures Handle(path, h) == Reject(401) <==> Matched(path) && !Present(h.authorization) && !Present(h.xApiKey)
    ensures Handle(path, h) != Reject(401) ==> Handle(path, h) == Next
  {
    if Matched(path) {
      MatchedPathsAreChecked(path);
    }
  }

  /** A header that contains `Bearer ` is not empty. */
  lemma SplitNeedsText(a: string)
    requires Present(SplitSecond(a, BEARER))
    ensures a != ""
  {
    var i := IndexOf(a, BEARER).value;
    assert OccursAt(a, BEARER, i);
  }

  /** The middleware is never stricter than the handler: a request the handler finds a key in passes it. */
  lemma RouteKeyPassesMiddleware(path: string, h: Headers)
    requires Present(ItemsRoute.ExtractKey(h))
    ensures Handle(path, h) == Next
  {
    if h.authorization.Some? && Present(SplitSecond(h.authorization.value, BEARER)) {
      SplitNeedsText(h.authorization.value);
    }
  }

  /**
   * It is weaker, though: any non-empty Authorization value passes it, while
   * the handler only takes the text after `Bearer `, so `Authorization: Basic x`
   * without an X-API-Key gets through the middleware and is refused with 401 by
   * the handler, with nothing charged.
   */
  lemma OtherAuthorizationPassesThenRefused(path: string, authorization: string, t: Tables, body: Body, gateFault: bool, now: nat)
    requires authorization != "" && IndexOf(authorization, BEARER).None?
    ensures Handle(path, Headers(Some(authorization), None, None)) == Next
    ensures ItemsRoute.PostStep(t, Headers(Some(authorization), None, None), body, gateFault, now) == Step(Status(401), t)
  {
    ItemsRoute.OtherAuthorizationIgnored(authorization, None, None);
  }
}
