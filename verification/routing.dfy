/**
 The route table of src/App.tsx as one decision function: given the requested
 path and the authentication flag, either a page renders, the router
 redirects (`<Navigate replace>`), or the catch-all route shows NotFound.
 */
module Routing {
  import opened Optional

  datatype Page =
    | LoginPage | DashboardPage | ProfilePage | ResultsPage
    | CoursesPage | TimetablePage | NotificationsPage | FeesPage | NotFoundPage

  /* How a route wraps its page: `PublicRoute` or `ProtectedRoute`. */
  datatype Guard = PublicOnly | ProtectedOnly

  datatype Route = Route(path: string, guard: Guard, page: Page)

  datatype Decision = Render(page: Page) | Redirect(target: string)

  /* The `<Route>` entries of `AppRoutes`, matched on the exact path; the
     `*` catch-all is the `None` case. */
  function Lookup(path: string): (r: Option<Route>)
    ensures r.Some? ==> r.value.path == path
    ensures path == "/" ==> r == Some(Route("/", PublicOnly, LoginPage))
    ensures forall i :: 0 <= i < |protectedPaths| && path == protectedPaths[i] ==>
      r == Some(Route(path, ProtectedOnly, protectedPages[i]))
    ensures r.None? <==> path !in tablePaths
    ensures r.Some? ==> (r.value.guard == PublicOnly <==> r.value.page == LoginPage)
    ensures r.Some? ==> r.value.page != NotFoundPage
  {
    if path == "/" then Some(Route("/", PublicOnly, LoginPage))
    else if path == "/dashboard" then Some(Route("/dashboard", ProtectedOnly, DashboardPage))
    else if path == "/profile" then Some(Route("/profile", ProtectedOnly, ProfilePage))
    else if path == "/results" then Some(Route("/results", ProtectedOnly, ResultsPage))
    else if path == "/courses" then Some(Route("/courses", ProtectedOnly, CoursesPage))
    else if path == "/timetable" then Some(Route("/timetable", ProtectedOnly, TimetablePage))
    else if path == "/notifications" then Some(Route("/notifications", ProtectedOnly, NotificationsPage))
    else if path == "/fees" then Some(Route("/fees", ProtectedOnly, FeesPage))
    else None
  }

  const protectedPaths: seq<string> :=
    ["/dashboard", "/profile", "/results", "/courses", "/timetable", "/notifications", "/fees"]

  /* The page each protected path shows, position by position. */
  const protectedPages: seq<Page> :=
    [DashboardPage, ProfilePage, ResultsPage, CoursesPage, TimetablePage, NotificationsPage, FeesPage]

  /* `ProtectedRoute` sends a signed-out user to `/`; `PublicRoute` sends a
     signed-in user to `/dashboard`; otherwise the child page renders. */
  function Guarded(guard: Guard, isAuthenticated: bool, page: Page): (d: Decision)
    ensures d.Redirect? <==> (guard == ProtectedOnly) != isAuthenticated
    ensures d.Render? ==> d.page == page
    ensures d.Redirect? ==> d.target == (if isAuthenticated then "/dashboard" else "/")
  {
    match guard
    case ProtectedOnly => if !isAuthenticated then Redirect("/") else Render(page)
    case PublicOnly => if isAuthenticated then Redirect("/dashboard") else Render(page)
  }

  /* What the router shows for `path`: the matched route's guarded page, or
     NotFound (unguarded) when no route matches. */
  function Resolve(path: string, isAuthenticated: bool): (d: Decision)
    ensures d == Render(NotFoundPage) <==> path !in tablePaths
  {
    match Lookup(path)
    case Some(r) => Guarded(r.guard, isAuthenticated, r.page)
    case None => Render(NotFoundPage)
  }

  /* The paths the table names. */
  const tablePaths: set<string> := {"/"} + set p | p in protectedPaths

  /* Each of the seven protected paths renders its own page for a signed-in
     user and redirects a signed-out user to `/`. */
  lemma ProtectedPathsGuarded(i: int, isAuthenticated: bool)
    requires 0 <= i < |protectedPaths|
    ensures isAuthenticated ==> Resolve(protectedPaths[i], isAuthenticated) == Render(protectedPages[i])
    ensures isAuthenticated ==> protectedPages[i] != LoginPage && protectedPages[i] != NotFoundPage
    ensures !isAuthenticated ==> Resolve(protectedPaths[i], isAuthenticated) == Redirect("/")
  {
  }

  /* The sign-in page: Login for a signed-out user, `/dashboard` otherwise. */
  lemma RootGuarded(isAuthenticated: bool)
    ensures Resolve("/", isAuthenticated) ==
      (if isAuthenticated then Redirect("/dashboard") else Render(LoginPage))
  {
  }

  /* A path outside the table shows NotFound whatever the session. */
  lemma UnknownPathNotFound(path: string, isAuthenticated: bool)
    requires path !in tablePaths
    ensures Resolve(path, isAuthenticated) == Render(NotFoundPage)
  {
  }

  /* No redirect loop: following a redirect once, with the same session,
     reaches a page that renders, and that page is not NotFound. */
  lemma NoRedirectLoop(path: string, isAuthenticated: bool)
    ensures Resolve(path, isAuthenticated).Redirect? ==>
      var next := Resolve(Resolve(path, isAuthenticated).target, isAuthenticated);
      next.Render? && next.page != NotFoundPage
  {
  }
}
