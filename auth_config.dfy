/** The NextAuth `authorized` callback (`auth.config.ts`). */
module AuthConfig {
  import opened Text

  /** Lines 9-20: pages under `/dashboard` need a signed-in user; everything else is allowed. */
  function Authorized(isLoggedIn: bool, pathname: string): bool {
    var isOnDashboard := StartsWith(pathname, "/dashboard");
    if isOnDashboard then
      if isLoggedIn then true else false
    else if isLoggedIn then true
    else true
  }

  /** A request is authorised exactly when the user is signed in or the page is not under `/dashboard`. */
  lemma AuthorizedExactly(isLoggedIn: bool, pathname: string)
    ensures Authorized(isLoggedIn, pathname) <==> isLoggedIn || !StartsWith(pathname, "/dashboard")
  {
  }

  /** An anonymous visitor to a dashboard page is refused. */
  lemma AnonymousDashboardRefused(rest: string)
    ensures !Authorized(false, "/dashboard" + rest)
  {
    assert ("/dashboard" + rest)[..|"/dashboard"|] == "/dashboard";
  }
}
