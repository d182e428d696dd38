/** The two route guards of middleware/auth.js. */
module Guards {
  import opened Base
  import opened Http

  /** The guard's notion of a logged-in session: `session.user` is set and its `userId` is truthy. */
  predicate LoggedIn(s: Session)
  {
    s.user.Some? && s.user.value.userId != ""
  }

  /**
   * `requireLogin`: passes a logged-in session on untouched; otherwise
   * remembers the requested URL in the session and sends the client to the
   * login page.
   */
  function RequireLogin(s: Session, url: string): (r: (Session, Outcome))
    ensures r.1 == Proceed <==> LoggedIn(s)
    ensures r.1 == Proceed ==> r.0 == s
    ensures r.1 != Proceed ==> r.1 == Redirect("/login") && r.0 == s.(redirectTo := Some(url))
  {
    if s.user.Some? && s.user.value.userId != "" then (s, Proceed)
    else (s.(redirectTo := Some(url)), Redirect("/login"))
  }

  /**
   * `preventLoggedInAccess`: a session carrying any `user` is sent to the
   * dashboard; every other session is passed on. The session is never changed.
   */
  function PreventLoggedInAccess(s: Session): (r: (Session, Outcome))
    ensures r.0 == s
    ensures r.1 == Redirect("/dashboard") <==> s.user.Some?
    ensures r.1 != Redirect("/dashboard") ==> r.1 == Proceed
  {
    if s.user.Some? then (s, Redirect("/dashboard")) else (s, Proceed)
  }

  /** No session passes both guards: one admitted by `requireLogin` is turned away by `preventLoggedInAccess`. */
  lemma GuardsExclusive(s: Session, url: string)
    ensures RequireLogin(s, url).1 == Proceed ==> PreventLoggedInAccess(s).1 == Redirect("/dashboard")
  {
  }

  /**
   * A session whose `user` has an empty `userId` is turned away by both
   * guards: `requireLogin` sends it to /login and `preventLoggedInAccess`
   * sends it to /dashboard.
   */
  lemma EmptyUserIdRejectedByBoth(s: Session, url: string)
    requires s.user.Some? && s.user.value.userId == ""
    ensures RequireLogin(s, url).1 == Redirect("/login")
    ensures PreventLoggedInAccess(s).1 == Redirect("/dashboard")
  {
  }
}
