/** The route guard (src/hooks/useProtectedRoute.tsx): what a protected
    page renders, when it asks for a token refresh, and `requireAuth`. */
module RouteGuard {
  import Auth

  /** What `ProtectedRoute` renders. */
  datatype View = LoadingView | RedirectToLogin | Children

  /** `ProtectedRoute`'s render decision; `requireToken` defaults to true. */
  function GuardView(isLoading: bool, isAuthenticated: bool, requireToken: bool := true): (r: View)
    ensures isLoading ==> r == LoadingView
    ensures !isLoading && requireToken && !isAuthenticated ==> r == RedirectToLogin
    ensures !isLoading && (!requireToken || isAuthenticated) ==> r == Children
  {
    if isLoading then LoadingView
    else if requireToken && !isAuthenticated then RedirectToLogin
    else Children
  }

  /** Without `requireToken` the guard behaves exactly as with it set to true. */
  lemma GuardDefaultRequiresToken(isLoading: bool, isAuthenticated: bool)
    ensures GuardView(isLoading, isAuthenticated) == GuardView(isLoading, isAuthenticated, true)
    ensures !isLoading && !isAuthenticated ==> GuardView(isLoading, isAuthenticated) == RedirectToLogin
  {
  }

  /** The children are shown exactly when loading is over and either no
      token is required or the user is authenticated. */
  lemma GuardChildrenIff(isLoading: bool, isAuthenticated: bool, requireToken: bool)
    ensures GuardView(isLoading, isAuthenticated, requireToken) == Children
        <==> !isLoading && (!requireToken || isAuthenticated)
  {
  }

  /** The effect's condition for attempting `refreshToken`. */
  predicate ShouldRefresh(isLoading: bool, isAuthenticated: bool)
  {
    !isLoading && !isAuthenticated
  }

  /** Every redirect is accompanied by a refresh attempt, and no refresh is
      attempted while the children are shown behind a required token. */
  lemma RedirectMeansRefresh(isLoading: bool, isAuthenticated: bool, requireToken: bool)
    ensures GuardView(isLoading, isAuthenticated, requireToken) == RedirectToLogin ==>
              ShouldRefresh(isLoading, isAuthenticated)
    ensures requireToken && GuardView(isLoading, isAuthenticated, requireToken) == Children ==>
              !ShouldRefresh(isLoading, isAuthenticated)
  {
  }

  /** What `requireAuth` returns. */
  datatype Routed<T> = Component(component: T) | NavigateToLogin

  /** `requireAuth`: the component when authenticated, else a redirect. */
  function RequireAuth<T>(isAuthenticated: bool, component: T): (r: Routed<T>)
    ensures r.Component? <==> isAuthenticated
    ensures r.Component? ==> r.component == component
  {
    if isAuthenticated then Component(component) else NavigateToLogin
  }

  /** `requireAuth` and a guard that requires a token agree once loading is over. */
  lemma RequireAuthMatchesGuard<T>(isAuthenticated: bool, component: T)
    ensures RequireAuth(isAuthenticated, component).Component?
        <==> GuardView(false, isAuthenticated) == Children
  {
  }

  /** On a page whose session has a user but no valid token, the guard
      redirects to the login page and asks for a refresh in the same
      render; the refreshed state would pass the guard, but the redirect
      has already left the page. */
  lemma RefreshOpensPage(s: Auth.AuthState, nowMs: int)
    requires !s.isLoading && s.user.Some? && !Auth.IsAuthenticated(s, nowMs)
    ensures GuardView(s.isLoading, Auth.IsAuthenticated(s, nowMs)) == RedirectToLogin
    ensures ShouldRefresh(s.isLoading, Auth.IsAuthenticated(s, nowMs))
    ensures var r := Auth.RefreshStep(s, nowMs).0;
            GuardView(r.isLoading, Auth.IsAuthenticated(r, nowMs)) == Children
  {
    Auth.RefreshAuthenticatesIff(s, nowMs);
  }
}
