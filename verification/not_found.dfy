/**
 * The not-found page: it reads the token once to decide whether the way back
 * leads to the dashboard or to the login page.
 */
module NotFound {
  import opened Common
  import AuthGate

  /** Reading the token from storage: a value (or `null`), or an exception. */
  datatype TokenRead = Read(token: Option<string>) | Throws

  datatype Page = Page(isLoggedIn: Option<bool>, isLoading: bool)

  const InitialPage: Page := Page(None, true)

  /** `checkAuthStatus`: logged in iff a token was read and it is not empty; loading ends either way. */
  function CheckAuthStatus(read: TokenRead): (r: Page)
    ensures !r.isLoading
    ensures r.isLoggedIn.Some?
    ensures r.isLoggedIn.value <==> read.Read? && Present(read.token)
  {
    match read
    case Read(token) => Page(Some(Present(token)), false)
    case Throws => Page(Some(false), false)
  }

  /** Where the page's link leads: the dashboard when logged in, else the login page. */
  function LinkTarget(p: Page): (r: string)
    ensures r == AuthGate.DashboardPath <==> p.isLoggedIn == Some(true)
    ensures r == AuthGate.DashboardPath || r == AuthGate.LoginPath
  {
    if p.isLoggedIn == Some(true) then "/dashboard" else "/login"
  }

  /** Following the link never triggers the route guard's redirect. */
  lemma LinkTargetNotRedirected(token: Option<string>, prev: Option<bool>)
    ensures var target := LinkTarget(CheckAuthStatus(Read(token)));
            AuthGate.AuthCheck(target, token, prev).redirect.None?
  {
  }

  /** A storage failure sends the user to log in. */
  lemma ThrowLeadsToLogin()
    ensures LinkTarget(CheckAuthStatus(Throws)) == AuthGate.LoginPath
  {
  }
}
