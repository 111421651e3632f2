/**
 The route table of src/App.tsx: which paths exist, which are guarded by
 `PrivateRoute`, and what each path shows for a given authentication state.

 Paths are matched as exact strings; `/developer/:id` takes any non-empty
 segment without a slash.
 */
module Routing {

  import opened Types

  datatype Route =
    | Root
    | Login
    | SignUp
    | DashboardPage
    | Ideas
    | ApplicationsPage
    | Profile
    | DeveloperProfile(id: string)

  /** A value `:id` can take: one non-empty path segment. */
  predicate IsSegment(s: string)
  {
    s != "" && '/' !in s
  }

  predicate ValidRoute(r: Route)
  {
    r.DeveloperProfile? ==> IsSegment(r.id)
  }

  const DeveloperPrefix := "/developer/"

  function RoutePath(r: Route): string
  {
    match r
    case Root => "/"
    case Login => "/login"
    case SignUp => "/signup"
    case DashboardPage => "/dashboard"
    case Ideas => "/ideas"
    case ApplicationsPage => "/applications"
    case Profile => "/profile"
    case DeveloperProfile(id) => DeveloperPrefix + id
  }

  /** The route a path selects, if any; a path outside the table selects none. */
  function ParseRoute(path: string): (r: Option<Route>)
    ensures r.Some? ==> ValidRoute(r.value) && RoutePath(r.value) == path
  {
    if path == "/" then Some(Root)
    else if path == "/login" then Some(Login)
    else if path == "/signup" then Some(SignUp)
    else if path == "/dashboard" then Some(DashboardPage)
    else if path == "/ideas" then Some(Ideas)
    else if path == "/applications" then Some(ApplicationsPage)
    else if path == "/profile" then Some(Profile)
    else if |path| > |DeveloperPrefix| && path[..|DeveloperPrefix|] == DeveloperPrefix && '/' !in path[|DeveloperPrefix|..] then
      assert DeveloperPrefix + path[|DeveloperPrefix|..] == path;
      Some(DeveloperProfile(path[|DeveloperPrefix|..]))
    else None
  }

  /** Every route is selected by its own path. */
  lemma ParseRoutePath(r: Route)
    requires ValidRoute(r)
    ensures ParseRoute(RoutePath(r)) == Some(r)
  {
    if r.DeveloperProfile? {
      var p := RoutePath(r);
      assert p[..|DeveloperPrefix|] == DeveloperPrefix;
      assert p[|DeveloperPrefix|..] == r.id;
      assert |p| > 11 && p[1] == 'd' && p[2] == 'e';
      assert p != "/" && p != "/login" && p != "/signup" && p != "/dashboard";
      assert p != "/ideas" && p != "/applications" && p != "/profile";
    }
  }

  /** The routes wrapped in `PrivateRoute`. */
  predicate Gated(r: Route)
  {
    !(r == Root || r == Login || r == SignUp)
  }

  /** What the authentication context reports. */
  datatype AuthState = AuthState(user: Option<User>, loading: bool)

  /** What a route shows. */
  datatype View =
    | LoadingView
    | PageView(page: Route)
    | HomeView
    | RedirectTo(path: string)

  /**
   `PrivateRoute`: while the user is being resolved, the loading view,
   whatever the user value; afterwards the page for a present user and a
   redirect to `/login` otherwise.
   */
  function PrivateRoute(auth: AuthState, child: Route): (v: View)
    ensures auth.loading ==> v == LoadingView
    ensures !auth.loading ==> (v == PageView(child) <==> auth.user.Some?)
    ensures !auth.loading && auth.user.None? ==> v == RedirectTo("/login")
  {
    if auth.loading then LoadingView
    else if auth.user.Some? then PageView(child)
    else RedirectTo("/login")
  }

  /**
   The element of `/`: a present user goes to `/dashboard`, anyone else sees
   Home. This route does not wait for the loading flag.
   */
  function RootView(user: Option<User>): (v: View)
    ensures v == RedirectTo("/dashboard") <==> user.Some?
    ensures v == HomeView <==> user.None?
  {
    if user.Some? then RedirectTo("/dashboard") else HomeView
  }

  /** `AppRoutes`: the view a route shows. */
  function Resolve(auth: AuthState, r: Route): View
  {
    match r
    case Root => RootView(auth.user)
    case Login => PageView(Login)
    case SignUp => PageView(SignUp)
    case _ => PrivateRoute(auth, r)
  }

  /**
   A gated page is shown only to a resolved, present user; `/login` and
   `/signup` are shown to anyone.
   */
  lemma GatedPagesNeedUser(auth: AuthState, r: Route)
    ensures Gated(r) && Resolve(auth, r) == PageView(r) ==> auth.user.Some? && !auth.loading
    ensures Gated(r) && !auth.loading && auth.user.None? ==> Resolve(auth, r) == RedirectTo("/login")
    ensures !Gated(r) && r != Root ==> Resolve(auth, r) == PageView(r)
  {
  }

  /**
   A visitor without a session who opens `/dashboard` is sent to `/login`;
   once signed in, the same path shows the dashboard.
   */
  lemma DashboardAfterLogin(u: User)
    ensures Resolve(AuthState(None, false), ParseRoute("/dashboard").value) == RedirectTo("/login")
    ensures Resolve(AuthState(Some(u), false), ParseRoute("/dashboard").value) == PageView(DashboardPage)
  {
  }

  /**
   Redirects settle in one step: the target of a redirect is a path of the
   table, and opening it in the same state does not redirect again.
   */
  lemma RedirectsSettle(auth: AuthState, r: Route, target: string)
    requires Resolve(auth, r) == RedirectTo(target)
    ensures ParseRoute(target).Some?
    ensures !Resolve(auth, ParseRoute(target).value).RedirectTo?
  {
    if r == Root {
      assert target == "/dashboard";
    } else {
      assert target == "/login";
    }
  }
}
