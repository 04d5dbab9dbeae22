/** The client's route table (`client/src/App.js`): which pages exist
    depends on whether a student session token is stored. */
module AppRoutes {
  import opened Basics
  import AdminTabs

  /** The pages a path can lead to. `NoPage` is a path no route matches. */
  datatype Page = Home | LoginPage | SignupPage | ResetPasswordPage | ClientDashboard | AdminPanel | RedirectHome | NoPage

  /** The mount effect's test: a student is authenticated when `authToken`
      is stored with a non-empty value (`if (authToken)` is a truthiness
      test). */
  predicate IsAuthenticated(storage: Storage) {
    "authToken" in storage && storage["authToken"] != ""
  }

  /** The app's React state. Routing reads this flag, not local storage. */
  datatype App = App(isAuthenticated: bool)

  /** `useState(false)`: the first render treats every session as a visitor. */
  const FirstRender := App(false)

  /** The mount effect: the flag is read from local storage once, when the
      app is mounted (a page load), and never again. */
  function Mount(storage: Storage): App {
    App(IsAuthenticated(storage))
  }

  /** The routes declared for a session state, in declaration order. */
  function Routes(authenticated: bool): (r: seq<(string, Page)>)
    ensures ("/", Home) in r && ("/admin", AdminPanel) in r
  {
    [("/", Home)]
    + (if !authenticated then [("/login", LoginPage), ("/signup", SignupPage), ("/reset-password", ResetPasswordPage)] else [])
    + (if authenticated then [("/dashboard", ClientDashboard)] else [("*", RedirectHome)])
    + [("/admin", AdminPanel)]
  }

  /** The page of the first route declared with exactly this path. */
  function Find(routes: seq<(string, Page)>, path: string): Option<Page> {
    if |routes| == 0 then None
    else if routes[0].0 == path then Some(routes[0].1)
    else Find(routes[1..], path)
  }

  /** `Find` reports the first route declared for the path. */
  lemma {:induction false} FindAt(routes: seq<(string, Page)>, path: string, k: nat)
    requires k < |routes| && routes[k].0 == path
    requires forall i :: 0 <= i < k ==> routes[i].0 != path
    ensures Find(routes, path) == Some(routes[k].1)
  {
    if k > 0 {
      FindAt(routes[1..], path, k - 1);
    }
  }

  /** `Find` reports nothing for a path no route declares. */
  lemma {:induction false} FindNone(routes: seq<(string, Page)>, path: string)
    requires forall i :: 0 <= i < |routes| ==> routes[i].0 != path
    ensures Find(routes, path).None?
  {
    if |routes| > 0 {
      FindNone(routes[1..], path);
    }
  }

  /** The page for `path` among `routes`: a route declared for that exact
      path first; failing that the catch-all `*`, when one is declared;
      otherwise nothing. */
  function Lookup(routes: seq<(string, Page)>, path: string): Page {
    match Find(routes, path)
    case Some(p) => p
    case None =>
      match Find(routes, "*")
      case Some(p) => p
      case None => NoPage
  }

  /** The page the router shows for `path` in app state `app`. */
  function Route(path: string, app: App): Page {
    Lookup(Routes(app.isAuthenticated), path)
  }

  /** Once mounted, the home page and the admin panel are reachable in every
      session state; login, signup and password reset exist only for
      visitors; the student dashboard only for authenticated students, whose
      other paths fall on nothing while a visitor's unknown paths redirect
      home. */
  lemma RouteTable(storage: Storage, path: string)
    ensures Route("/", Mount(storage)) == Home
    ensures Route("/admin", Mount(storage)) == AdminPanel
    ensures Route("/login", Mount(storage)) == (if IsAuthenticated(storage) then NoPage else LoginPage)
    ensures Route("/signup", Mount(storage)) == (if IsAuthenticated(storage) then NoPage else SignupPage)
    ensures Route("/reset-password", Mount(storage)) == (if IsAuthenticated(storage) then NoPage else ResetPasswordPage)
    ensures Route("/dashboard", Mount(storage)) == (if IsAuthenticated(storage) then ClientDashboard else RedirectHome)
    ensures path !in {"/", "/admin", "/login", "/signup", "/reset-password", "/dashboard"} ==>
      Route(path, Mount(storage)) == (if IsAuthenticated(storage) then NoPage else RedirectHome)
  {
    if IsAuthenticated(storage) {
      StudentRoutes(path);
    } else {
      VisitorRoutes(path);
    }
  }

  /** The first render, before the mount effect, routes every session with
      the visitor's table, whatever local storage holds. */
  lemma FirstRenderIsVisitor(storage: Storage, path: string)
    ensures Route(path, FirstRender) == Route(path, Mount(map[]))
    ensures Route("/dashboard", FirstRender) == RedirectHome
  {
    VisitorRoutes(path);
  }

  /** The path a page load ends on. On the first render an unmatched path
      hits the catch-all, whose `<Navigate to="/">` runs its effect before
      the app's own mount effect (child effects run first), so the load
      moves to `/`; the mount effect then sets the flag. */
  function LandingPath(path: string): string {
    if Route(path, FirstRender) == RedirectHome then "/" else path
  }

  /** The page shown once a load of `path` has settled. */
  function Landing(path: string, storage: Storage): Page {
    Route(LandingPath(path), Mount(storage))
  }

  /** A student who loads `/dashboard` directly lands on the home page: the
      first render's redirect wins over the stored token. */
  lemma DirectDashboardLandsHome(storage: Storage)
    ensures Landing("/dashboard", storage) == Home
  {
    VisitorRoutes("/dashboard");
    RouteTable(storage, "/");
  }

  /** The flag is not refreshed by a logout that removes `authToken` and
      navigates without a reload: the mounted state still routes the
      dashboard and no login page, although storage no longer authenticates;
      only a new mount gives the visitor's table. */
  lemma StaleAfterLogout(storage: Storage)
    requires IsAuthenticated(storage)
    ensures !IsAuthenticated(storage - {"authToken"})
    ensures Route("/dashboard", Mount(storage)) == ClientDashboard
    ensures Route("/login", Mount(storage)) == NoPage
    ensures Route("/login", Mount(storage - {"authToken"})) == LoginPage
  {
    RouteTable(storage, "/");
    RouteTable(storage - {"authToken"}, "/");
  }

  /** The visitor's table, in declaration order. */
  lemma VisitorTable()
    ensures Routes(false) == [("/", Home), ("/login", LoginPage), ("/signup", SignupPage),
                              ("/reset-password", ResetPasswordPage), ("*", RedirectHome), ("/admin", AdminPanel)]
  {
  }

  /** The visitor's pages for the paths the table declares. */
  lemma VisitorDeclared()
    ensures Lookup(Routes(false), "/") == Home
    ensures Lookup(Routes(false), "/login") == LoginPage
    ensures Lookup(Routes(false), "/signup") == SignupPage
    ensures Lookup(Routes(false), "/reset-password") == ResetPasswordPage
    ensures Lookup(Routes(false), "*") == RedirectHome
    ensures Lookup(Routes(false), "/admin") == AdminPanel
  {
    VisitorTable();
    var routes := Routes(false);
    FindAt(routes, "/", 0);
    FindAt(routes, "/login", 1);
    FindAt(routes, "/signup", 2);
    FindAt(routes, "/reset-password", 3);
    FindAt(routes, "*", 4);
    FindAt(routes, "/admin", 5);
  }

  /** The route table a visitor gets. */
  lemma VisitorRoutes(path: string)
    ensures Lookup(Routes(false), "/") == Home
    ensures Lookup(Routes(false), "/login") == LoginPage
    ensures Lookup(Routes(false), "/signup") == SignupPage
    ensures Lookup(Routes(false), "/reset-password") == ResetPasswordPage
    ensures Lookup(Routes(false), "/dashboard") == RedirectHome
    ensures Lookup(Routes(false), "/admin") == AdminPanel
    ensures path !in {"/", "/admin", "/login", "/signup", "/reset-password", "/dashboard"} ==>
      Lookup(Routes(false), path) == RedirectHome
  {
    VisitorDeclared();
    VisitorUndeclared("/dashboard");
    if path !in {"/", "/admin", "/login", "/signup", "/reset-password", "/dashboard"} && path != "*" {
      VisitorUndeclared(path);
    }
  }

  /** A visitor's path that no route declares goes to the catch-all. */
  lemma VisitorUndeclared(path: string)
    requires path !in {"/", "/admin", "/login", "/signup", "/reset-password", "*"}
    ensures Lookup(Routes(false), path) == RedirectHome
  {
    VisitorTable();
    FindAt(Routes(false), "*", 4);
    FindNone(Routes(false), path);
  }

  /** The route table an authenticated student gets. */
  lemma StudentRoutes(path: string)
    ensures Lookup(Routes(true), "/") == Home
    ensures Lookup(Routes(true), "/dashboard") == ClientDashboard
    ensures Lookup(Routes(true), "/admin") == AdminPanel
    ensures path !in {"/", "/admin", "/dashboard"} ==> Lookup(Routes(true), path) == NoPage
  {
    var routes := Routes(true);
    assert routes == [("/", Home), ("/dashboard", ClientDashboard), ("/admin", AdminPanel)];
    FindAt(routes, "/", 0);
    FindAt(routes, "/dashboard", 1);
    FindAt(routes, "/admin", 2);
    FindNone(routes, "*");
    if path !in {"/", "/admin", "/dashboard"} {
      FindNone(routes, path);
    }
  }

  /** The student session and the admin session are kept under different
      keys: changing the admin `token` never changes student routing, and
      changing `authToken` never changes the admin login state. */
  lemma SessionsIndependent(storage: Storage, value: string)
    ensures IsAuthenticated(storage["token" := value]) == IsAuthenticated(storage)
    ensures IsAuthenticated(storage - {"token"}) == IsAuthenticated(storage)
    ensures AdminTabs.IsLoggedIn(storage["authToken" := value]) == AdminTabs.IsLoggedIn(storage)
    ensures AdminTabs.IsLoggedIn(storage - {"authToken"}) == AdminTabs.IsLoggedIn(storage)
  {
  }
}
