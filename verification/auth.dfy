/**
 * The route guard wrapped around every page: on each path change it reads
 * the stored token and decides whether to redirect, and it decides what to
 * render from the path and its `isAuthenticated` flag (`null` until the first
 * check).
 */
module AuthGate {
  import opened Common

  const LoginPath: string := "/login"
  const DashboardPath: string := "/dashboard"

  /** The effect's outcome: where to push, if anywhere, and the new `isAuthenticated`. */
  datatype Check = Check(redirect: Option<string>, isAuthenticated: Option<bool>)

  /**
   * The effect: a redirect happens exactly when being on the login page
   * agrees with holding a token. On `/login` with a token it goes to the
   * dashboard and leaves the flag alone; elsewhere without one it goes to
   * `/login` and clears the flag; otherwise the flag is set.
   */
  function AuthCheck(pathname: string, token: Option<string>, prev: Option<bool>): (r: Check)
    ensures r.redirect.Some? <==> ((pathname == LoginPath) == Present(token))
    ensures pathname == LoginPath && Present(token) ==> r == Check(Some(DashboardPath), prev)
    ensures pathname != LoginPath && !Present(token) ==> r == Check(Some(LoginPath), Some(false))
    ensures r.redirect.None? ==> r.isAuthenticated == Some(true)
  {
    if pathname == LoginPath && Present(token) then Check(Some(DashboardPath), prev)
    else if pathname != LoginPath && !Present(token) then Check(Some(LoginPath), Some(false))
    else Check(None, Some(true))
  }

  datatype View = Children | Spinner | Blank

  /** The render: the login page always shows; elsewhere a spinner until checked, then the page or nothing. */
  function Render(pathname: string, isAuthenticated: Option<bool>): (r: View)
    ensures pathname == LoginPath ==> r == Children
    ensures pathname != LoginPath ==> (r == Spinner <==> isAuthenticated.None?)
    ensures pathname != LoginPath ==> (r == Children <==> isAuthenticated == Some(true))
  {
    if pathname == LoginPath then Children
    else match isAuthenticated
      case None => Spinner
      case Some(b) => if b then Children else Blank
  }

  /** Once checked, a page other than the login page is shown iff there is a token. */
  lemma ProtectedPageNeedsToken(pathname: string, token: Option<string>, prev: Option<bool>)
    requires pathname != LoginPath
    ensures Render(pathname, AuthCheck(pathname, token, prev).isAuthenticated) == (if Present(token) then Children else Blank)
  {
  }

  /** A redirect never points at the page it leaves, and the page it leads to does not redirect again. */
  lemma RedirectSettles(pathname: string, token: Option<string>, prev: Option<bool>)
    requires AuthCheck(pathname, token, prev).redirect.Some?
    ensures var target := AuthCheck(pathname, token, prev).redirect.value;
            && target != pathname
            && AuthCheck(target, token, prev).redirect.None?
  {
  }
}
