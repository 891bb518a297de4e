/**
 * The route guard (`middleware.ts`): requests for a secure route need a
 * session token that has not expired; otherwise they are redirected to
 * `/login` with the requested URL as the callback. Every other request
 * proceeds.
 */
module Middleware {
  import opened Base
  import opened Text

  /** `secureRoutes`. */
  const SecureRoutes: seq<string> := ["/feeds", "/recommended", "/popular"]

  /** The decoded session token; `exp` is in seconds since the epoch. */
  datatype Token = Token(exp: Option<int>)

  datatype Decision = Next | RedirectToLogin(callbackUrl: string)

  /** Lines 20-22: the path starts with one of the secure routes. */
  predicate IsSecureRoute(pathname: string) {
    exists i :: 0 <= i < |SecureRoutes| && StartsWith(pathname, SecureRoutes[i])
  }

  /** Line 35: `token.exp && Date.now() >= token.exp * 1000`; a missing or zero `exp` never expires. */
  predicate Expired(token: Token, now: int) {
    token.exp.Some? && token.exp.value != 0 && now >= token.exp.value * 1000
  }

  /** Lines 5-52: the decision for one request, `now` being `Date.now()`. */
  function Decide(pathname: string, requestUrl: string, token: Option<Token>, now: int): (d: Decision)
    ensures d.RedirectToLogin? <==> IsSecureRoute(pathname) && (token.None? || Expired(token.value, now))
    ensures d.RedirectToLogin? ==> d.callbackUrl == requestUrl
  {
    if IsSecureRoute(pathname) then
      if token.None? then RedirectToLogin(requestUrl)
      else if Expired(token.value, now) then RedirectToLogin(requestUrl)
      else Next
    else Next
  }

  /** Any path under a secure route is secure, and so is any path merely starting with its letters. */
  lemma SecurePrefixes(rest: string)
    ensures IsSecureRoute("/feeds" + rest)
    ensures IsSecureRoute("/recommended" + rest)
    ensures IsSecureRoute("/popular" + rest)
  {
    assert ("/feeds" + rest)[..|"/feeds"|] == "/feeds";
    assert ("/recommended" + rest)[..|"/recommended"|] == "/recommended";
    assert ("/popular" + rest)[..|"/popular"|] == "/popular";
    assert StartsWith("/feeds" + rest, SecureRoutes[0]);
    assert StartsWith("/recommended" + rest, SecureRoutes[1]);
    assert StartsWith("/popular" + rest, SecureRoutes[2]);
  }

  /** The login page and the home page are not secure. */
  lemma OpenPages()
    ensures !IsSecureRoute("/login")
    ensures !IsSecureRoute("/")
  {
    assert "/login"[..6][1] != SecureRoutes[0][1];
  }

  /** A request outside the secure routes always proceeds, with or without a token. */
  lemma OpenRoutesProceed(pathname: string, requestUrl: string, token: Option<Token>, now: int)
    requires !IsSecureRoute(pathname)
    ensures Decide(pathname, requestUrl, token, now) == Next
  {
  }

  /** A token expires at exactly `exp * 1000` milliseconds: one millisecond before, it is still good. */
  lemma ExpiryBoundary(pathname: string, requestUrl: string, exp: int)
    requires IsSecureRoute(pathname) && exp != 0
    ensures Decide(pathname, requestUrl, Some(Token(Some(exp))), exp * 1000) == RedirectToLogin(requestUrl)
    ensures Decide(pathname, requestUrl, Some(Token(Some(exp))), exp * 1000 - 1) == Next
  {
  }

  /** A token with `exp` 0 or no `exp` is never treated as expired. */
  lemma FalsyExpNeverExpires(token: Token, now: int)
    requires token.exp.None? || token.exp.value == 0
    ensures !Expired(token, now)
  {
  }
}
