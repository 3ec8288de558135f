/** The client route table and its two guards: `RequireAdmin`
    (frontend/src/components/RequireAdmin.jsx) and `ProtectedLoginRoute` and
    the `<Routes>` of frontend/src/App.jsx. A guard either renders the page it
    wraps or issues a `<Navigate replace>` redirect; the decision reads only
    the session's `isAuthenticated` and `userRole`. */
module Routes {
  import opened Base
  import opened Js
  import opened Session

  /** The pages the table mounts. */
  datatype Page =
    | Home | LiveFireMap | Predict | HowItWorks | FireStats | Contact | Login
    | UserDashboard | VerifyEmail | OtpVerification | ForgotPassword | ResetPassword
    | AdminDashboard | SensorStackChart

  /** What a guarded element produces: the wrapped page, or a redirect. */
  datatype View = Render(page: Page) | Redirect(to: string, replace: bool)

  /** `RequireAdmin` (RequireAdmin.jsx lines 6-12): the children exactly for an
      authenticated admin, otherwise a replace-redirect to /login. */
  function RequireAdmin(st: AuthState, children: Page): (v: View)
    ensures v == Render(children) <==> st.isAuthenticated && st.userRole == Some("admin")
    ensures v.Redirect? ==> v == Redirect("/login", true)
  {
    if !st.isAuthenticated || st.userRole != Some("admin") then Redirect("/login", true)
    else Render(children)
  }

  /** `ProtectedLoginRoute` (App.jsx lines 25-38): the children exactly when
      nobody is signed in; an admin goes to /admin-dashboard and any other
      signed-in role, `null` included, to /user-dashboard. */
  function ProtectedLoginRoute(st: AuthState, children: Page): (v: View)
    ensures v == Render(children) <==> !st.isAuthenticated
    ensures st.isAuthenticated && st.userRole == Some("admin") ==> v == Redirect("/admin-dashboard", true)
    ensures st.isAuthenticated && st.userRole != Some("admin") ==> v == Redirect("/user-dashboard", true)
  {
    if st.isAuthenticated then
      if st.userRole == Some("admin") then Redirect("/admin-dashboard", true)
      else Redirect("/user-dashboard", true)
    else Render(children)
  }

  /** How a route's element is wrapped. */
  datatype Guard = Open | AdminOnly | LoginOnly

  datatype Route = Route(path: string, page: Page, guard: Guard)

  /** The `<Routes>` of App.jsx lines 46-73, in order. */
  const Table: seq<Route> := [
    Route("/", Home, Open),
    Route("/live-map", LiveFireMap, Open),
    Route("/predict", Predict, Open),
    Route("/how-it-works", HowItWorks, Open),
    Route("/stats", FireStats, Open),
    Route("/contact", Contact, Open),
    Route("/login", Login, LoginOnly),
    Route("/user-dashboard", UserDashboard, Open),
    Route("/verify-email", VerifyEmail, Open),
    Route("/verify-otp", OtpVerification, Open),
    Route("/forgot-password", ForgotPassword, Open),
    Route("/reset-password", ResetPassword, Open),
    Route("/admin-dashboard", AdminDashboard, AdminOnly),
    Route("/sensor-stack-chart", SensorStackChart, AdminOnly)
  ]

  /** The element a route renders under its guard. */
  function Element(r: Route, st: AuthState): (v: View)
    ensures r.guard == Open ==> v == Render(r.page)
    ensures r.guard == AdminOnly ==> v == RequireAdmin(st, r.page)
    ensures r.guard == LoginOnly ==> v == ProtectedLoginRoute(st, r.page)
  {
    match r.guard
    case Open => Render(r.page)
    case AdminOnly => RequireAdmin(st, r.page)
    case LoginOnly => ProtectedLoginRoute(st, r.page)
  }

  /** React Router compares paths with ASCII letters folded to lower case
      (a route is case-insensitive unless it says otherwise, and App.jsx sets
      no `caseSensitive`). */
  function LowerAscii(c: char): (d: char)
    ensures 'A' <= c <= 'Z' ==> d as int == c as int + 32
    ensures !('A' <= c <= 'Z') ==> d == c
    ensures !('A' <= d <= 'Z')
  {
    if 'A' <= c <= 'Z' then (c as int + 32) as char else c
  }

  function Lower(s: string): (r: string)
    ensures |r| == |s|
  {
    seq(|s|, i requires 0 <= i < |s| => LowerAscii(s[i]))
  }

  /** A route matches its path followed by any number of slashes. */
  function StripSlashes(s: string): (r: string)
    ensures r <= s
  {
    if |s| > 0 && s[|s| - 1] == '/' then StripSlashes(s[..|s| - 1]) else s
  }

  /** What the route matcher compares: the path without its trailing
      slashes, letters folded. */
  function Key(path: string): (k: string)
    ensures |k| <= |path|
  {
    Lower(StripSlashes(path))
  }

  /** Whether route `r` matches the browser path `path` (which always starts
      with a slash; the empty path matches nothing, not even "/"). */
  predicate Matches(r: Route, path: string)
  {
    path != [] && Key(r.path) == Key(path)
  }

  /** The key route `i` is compared under: its path as written, except that
      "/" (which matches any run of slashes) has the empty key. TableKeys
      shows this is `Key` of the route's path. */
  function TableKey(i: nat): (k: string)
    requires i < |Table|
  {
    if Table[i].path == "/" then [] else Table[i].path
  }

  /** The first table entry from position `i` whose key is `key`, if any. */
  function FindRoute(key: string, i: nat): (k: Option<nat>)
    requires i <= |Table|
    ensures k.Some? ==> i <= k.value < |Table| && TableKey(k.value) == key
    ensures k.Some? ==> forall j :: i <= j < k.value ==> TableKey(j) != key
    ensures k.None? <==> forall j :: i <= j < |Table| ==> TableKey(j) != key
    decreases |Table| - i
  {
    if i == |Table| then None
    else if TableKey(i) == key then Some(i)
    else FindRoute(key, i + 1)
  }

  /** Visiting `path`: the guarded element of the first route it matches, or
      nothing when no route matches (there is no catch-all route). */
  function Visit(path: string, st: AuthState): (v: Option<View>)
    ensures v.None? <==> path == [] || forall j :: 0 <= j < |Table| ==> TableKey(j) != Key(path)
  {
    if path == [] then None
    else match FindRoute(Key(path), 0)
      case None => None
      case Some(k) => Some(Element(Table[k], st))
  }

  /** In React Router's terms: a visit shows nothing exactly when no route
      matches the path, and otherwise the element of a route that matches. */
  lemma VisitMatches(path: string, st: AuthState)
    ensures Visit(path, st).None? <==> forall j :: 0 <= j < |Table| ==> !Matches(Table[j], path)
    ensures Visit(path, st).Some? ==>
              exists j :: 0 <= j < |Table| && Matches(Table[j], path) && Visit(path, st).value == Element(Table[j], st)
  {
    TableKeys();
    if path != [] && FindRoute(Key(path), 0).Some? {
      var k := FindRoute(Key(path), 0).value;
      assert Matches(Table[k], path);
    }
  }

  /** A path with no capital letter and no trailing slash is its own key. */
  lemma KeyOfPlain(p: string)
    requires p == [] || p[|p| - 1] != '/'
    requires forall i :: 0 <= i < |p| ==> !('A' <= p[i] <= 'Z')
    ensures Key(p) == p
  {
    assert StripSlashes(p) == p;
    assert Lower(p) == p;
  }

  /** The key of every listed path: "/" has the empty key, every other path
      is written in lower case without a trailing slash and is its own key. */
  lemma TableKeys()
    ensures forall i :: 0 <= i < |Table| ==> Key(Table[i].path) == TableKey(i)
  {
    forall i | 0 <= i < |Table|
      ensures Key(Table[i].path) == TableKey(i)
    {
      KeyAt(i);
    }
  }

  lemma KeyAt(i: nat)
    requires i < |Table|
    ensures Key(Table[i].path) == TableKey(i)
  {
    if i < 3 {
      KeysA(i);
    } else if i < 6 {
      KeysB(i);
    } else if i < 9 {
      KeysC(i);
    } else if i < 12 {
      KeysD(i);
    } else {
      KeysE(i);
    }
  }

  lemma KeysA(i: nat)
    requires i < 3
    ensures Key(Table[i].path) == TableKey(i)
  {
    match i
    case 0 => assert StripSlashes("/") == StripSlashes([]) == [];
    case 1 => KeyOfPlain("/live-map");
    case 2 => KeyOfPlain("/predict");
  }

  lemma KeysB(i: nat)
    requires 3 <= i < 6
    ensures Key(Table[i].path) == TableKey(i)
  {
    match i
    case 3 => KeyOfPlain("/how-it-works");
    case 4 => KeyOfPlain("/stats");
    case 5 => KeyOfPlain("/contact");
  }

  lemma KeysC(i: nat)
    requires 6 <= i < 9
    ensures Key(Table[i].path) == TableKey(i)
  {
    match i
    case 6 => KeyOfPlain("/login");
    case 7 => KeyOfPlain("/user-dashboard");
    case 8 => KeyOfPlain("/verify-email");
  }

  lemma KeysD(i: nat)
    requires 9 <= i < 12
    ensures Key(Table[i].path) == TableKey(i)
  {
    match i
    case 9 => KeyOfPlain("/verify-otp");
    case 10 => KeyOfPlain("/forgot-password");
    case 11 => KeyOfPlain("/reset-password");
  }

  lemma KeysE(i: nat)
    requires 12 <= i < |Table|
    ensures Key(Table[i].path) == TableKey(i)
  {
    match i
    case 12 => KeyOfPlain("/admin-dashboard");
    case 13 => KeyOfPlain("/sensor-stack-chart");
  }

  /** Every route has its own key, so the first match is the only one. */
  lemma PathsUnique()
    ensures forall i, j :: 0 <= i < j < |Table| ==> TableKey(i) != TableKey(j)
  {
  }

  /** Two paths that differ only in letter case or trailing slashes reach the
      same element. */
  lemma VisitByKey(p: string, q: string, st: AuthState)
    requires p != [] && q != [] && Key(p) == Key(q)
    ensures Visit(p, st) == Visit(q, st)
  {
  }

  /** For example "/Login/" is the login route. */
  lemma CapitalLoginWithSlash(st: AuthState)
    ensures Visit("/Login/", st) == Visit("/login", st)
  {
    var p: string := "/Login/";
    assert StripSlashes(p) == StripSlashes(p[..6]) == "/Login";
    assert Lower("/Login") == "/login";
    KeyOfPlain("/login");
    VisitByKey(p, "/login", st);
  }

  /** Exactly /admin-dashboard and /sensor-stack-chart are wrapped in
      `RequireAdmin`, exactly /login in `ProtectedLoginRoute`, and every
      other route is unguarded (App.jsx lines 47-73). */
  lemma GuardsOfTable()
    ensures forall i :: 0 <= i < |Table| ==>
              (Table[i].guard == AdminOnly <==> Table[i].path == "/admin-dashboard" || Table[i].path == "/sensor-stack-chart")
    ensures forall i :: 0 <= i < |Table| ==> (Table[i].guard == LoginOnly <==> Table[i].path == "/login")
  {
  }

  /** Following the redirects of at most `hops` visits from `path`, all
      under the one session state `st`. A page load, whose first render sees
      the state before the start-up check, is `Load` below. */
  function Settle(path: string, st: AuthState, hops: nat): (v: Option<View>)
    ensures v.Some? && v.value.Render? ==> exists j :: 0 <= j < |Table| && Table[j].page == v.value.page
    decreases hops
  {
    match Visit(path, st)
    case None => None
    case Some(Render(p)) =>
      Some(Render(p))
    case Some(Redirect(to, replace)) =>
      if hops == 0 then Some(Redirect(to, replace)) else Settle(to, st, hops - 1)
  }

  /** The entries the redirects aim at. */
  lemma Landmarks()
    ensures Table[6] == Route("/login", Login, LoginOnly)
    ensures Table[7] == Route("/user-dashboard", UserDashboard, Open)
    ensures Table[12] == Route("/admin-dashboard", AdminDashboard, AdminOnly)
  {
  }

  /** Looking up a listed path finds its own entry. */
  lemma FindListed(k: nat, st: AuthState)
    requires k < |Table|
    ensures FindRoute(TableKey(k), 0) == Some(k)
    ensures Visit(Table[k].path, st) == Some(Element(Table[k], st))
  {
    FindOwnKey(k);
    KeyAt(k);
    assert Table[k].path != [];
  }

  lemma FindOwnKey(k: nat)
    requires k < |Table|
    ensures FindRoute(TableKey(k), 0) == Some(k)
  {
    PathsUnique();
  }

  /** The user dashboard is unguarded. */
  lemma UserDashboardOpen(st: AuthState, hops: nat)
    ensures Settle("/user-dashboard", st, hops) == Some(Render(UserDashboard))
  {
    Landmarks();
    FindListed(7, st);
  }

  /** The admin dashboard renders for a signed-in admin. */
  lemma AdminDashboardForAdmin(st: AuthState, hops: nat)
    requires st.isAuthenticated && st.userRole == Some("admin")
    ensures Settle("/admin-dashboard", st, hops) == Some(Render(AdminDashboard))
  {
    Landmarks();
    FindListed(12, st);
  }

  /** A visit to /login meets `ProtectedLoginRoute` around the login page. */
  lemma LoginVisit(st: AuthState)
    ensures Visit("/login", st) == Some(ProtectedLoginRoute(st, Login))
  {
    Landmarks();
    FindListed(6, st);
  }

  /** A redirect is followed while hops remain. */
  lemma SettleFollows(path: string, st: AuthState, hops: nat, to: string)
    requires hops >= 1 && Visit(path, st) == Some(Redirect(to, true))
    ensures Settle(path, st, hops) == Settle(to, st, hops - 1)
  {
  }

  /** Where a visit to /login settles after at most one redirect. */
  lemma LoginSettles(st: AuthState, hops: nat)
    requires hops >= 1
    ensures Settle("/login", st, hops) == Some(Render(
              if !st.isAuthenticated then Login
              else if st.userRole == Some("admin") then AdminDashboard
              else UserDashboard))
  {
    LoginVisit(st);
    if !st.isAuthenticated {
      assert ProtectedLoginRoute(st, Login) == Render(Login);
    } else if st.userRole == Some("admin") {
      SettleFollows("/login", st, hops, "/admin-dashboard");
      AdminDashboardForAdmin(st, hops - 1);
    } else {
      SettleFollows("/login", st, hops, "/user-dashboard");
      UserDashboardOpen(st, hops - 1);
    }
  }

  /** The guards never loop: from any listed path at most two redirects reach
      a rendered page. An admin lands on the admin pages, a signed-in
      non-admin asking for one ends on the user dashboard (via /login), and a
      visitor asking for one ends on the login page. */
  lemma SettlesWithinTwoHops(k: nat, st: AuthState)
    requires k < |Table|
    ensures Settle(Table[k].path, st, 2).Some? && Settle(Table[k].path, st, 2).value.Render?
    ensures Table[k].guard == AdminOnly ==>
              Settle(Table[k].path, st, 2) == Some(Render(
                if !st.isAuthenticated then Login
                else if st.userRole == Some("admin") then Table[k].page
                else UserDashboard))
  {
    var r := Table[k];
    FindListed(k, st);
    match r.guard
    case Open =>
      assert Settle(r.path, st, 2) == Some(Render(r.page));
    case LoginOnly =>
      GuardsOfTable();
      LoginSettles(st, 2);
    case AdminOnly =>
      if st.isAuthenticated && st.userRole == Some("admin") {
        assert Settle(r.path, st, 2) == Some(Render(r.page));
      } else {
        assert Visit(r.path, st) == Some(Redirect("/login", true));
        LoginSettles(st, 1);
      }
  }

  /** A full page load of `path` over `store` (a reload, a bookmark or a
      typed address). The first render runs under the provider's initial
      state (AuthContext.jsx lines 14-16), before the start-up check. If
      that render mounts a `<Navigate>`, its effect moves the address even
      though the start-up effect signs the session in during the same
      commit, so the next render happens at the redirect target. Every
      later render sees the started session; from there redirects are
      followed as in `Settle`, at most two in all. */
  function Boot(first: Option<View>, path: string, store: Storage): (v: Option<View>)
    ensures first.Some? && first.value.Redirect? ==> v == Settle(first.value.to, Restart(store).state, 1)
    ensures !(first.Some? && first.value.Redirect?) ==> v == Settle(path, Restart(store).state, 2)
  {
    match first
    case Some(Redirect(to, _)) => Settle(to, Restart(store).state, 1)
    case _ => Settle(path, Restart(store).state, 2)
  }

  /** A page load with the guards as written: `RequireAdmin` ignores
      `isLoading` (RequireAdmin.jsx lines 6-9), so on the first render it
      sends every admin page to /login. */
  function Load(path: string, store: Storage): (v: Option<View>)
  {
    Boot(Visit(path, Initial), path, store)
  }

  /** `RequireAdmin` as it should be: render nothing while the start-up
      check is pending, and decide as written once it has run. `None` is
      the `null` element. */
  function RequireAdminAfterLoad(st: AuthState, children: Page): (v: Option<View>)
    ensures st.isLoading ==> v == None
    ensures !st.isLoading ==> v == Some(RequireAdmin(st, children))
  {
    if st.isLoading then None else Some(RequireAdmin(st, children))
  }

  /** The element a route renders with the corrected admin guard. */
  function ElementAfterLoad(r: Route, st: AuthState): (v: Option<View>)
    ensures r.guard == AdminOnly ==> v == RequireAdminAfterLoad(st, r.page)
    ensures r.guard != AdminOnly ==> v == Some(Element(r, st))
  {
    match r.guard
    case AdminOnly => RequireAdminAfterLoad(st, r.page)
    case _ => Some(Element(r, st))
  }

  /** Visiting `path` with the corrected admin guard. */
  function VisitAfterLoad(path: string, st: AuthState): (v: Option<View>)
  {
    if path == [] then None
    else match FindRoute(Key(path), 0)
      case None => None
      case Some(k) => ElementAfterLoad(Table[k], st)
  }

  /** Once the start-up check has run, the corrected guard decides exactly
      as the written one. */
  lemma AfterLoadAgrees(path: string, st: AuthState)
    requires !st.isLoading
    ensures VisitAfterLoad(path, st) == Visit(path, st)
  {
  }

  /** Under the initial state the corrected table redirects nowhere: the
      admin routes wait and the login route shows the login page. */
  lemma NoRedirectBeforeStartup(path: string)
    ensures !(VisitAfterLoad(path, Initial).Some? && VisitAfterLoad(path, Initial).value.Redirect?)
  {
    if path != [] && FindRoute(Key(path), 0).Some? {
      var k := FindRoute(Key(path), 0).value;
      assert VisitAfterLoad(path, Initial) == ElementAfterLoad(Table[k], Initial);
    }
  }

  /** A page load with the corrected admin guard. */
  function LoadCorrected(path: string, store: Storage): (v: Option<View>)
  {
    Boot(VisitAfterLoad(path, Initial), path, store)
  }

  /** With the corrected guard, a page load of any path ends where the
      started session sends it. */
  lemma LoadCorrectedIsSettle(path: string, store: Storage)
    ensures LoadCorrected(path, store) == Settle(path, Restart(store).state, 2)
  {
    NoRedirectBeforeStartup(path);
  }

  /** With the guards as written, loading an admin page always passes
      through /login first: an admin lands on the admin dashboard whichever
      admin page was asked for. Every other listed path loads as the started
      session sends it. */
  lemma LoadAsWritten(k: nat, store: Storage)
    requires k < |Table|
    ensures var st := Restart(store).state;
            Table[k].guard == AdminOnly ==>
              Load(Table[k].path, store) == Some(Render(
                if !st.isAuthenticated then Login
                else if st.userRole == Some("admin") then AdminDashboard
                else UserDashboard))
    ensures Table[k].guard != AdminOnly ==> Load(Table[k].path, store) == Settle(Table[k].path, Restart(store).state, 2)
  {
    var st := Restart(store).state;
    FindListed(k, Initial);
    match Table[k].guard
    case AdminOnly =>
      assert Visit(Table[k].path, Initial) == Some(Redirect("/login", true));
      LoginSettles(st, 1);
    case Open =>
    case LoginOnly =>
      assert Visit(Table[k].path, Initial) == Some(ProtectedLoginRoute(Initial, Table[k].page));
  }

  /** The input that shows it: with an admin token stored, reloading
      /sensor-stack-chart ends on the admin dashboard, while the started
      session alone would show the chart. */
  lemma AsWrittenReloadLosesChart(store: Storage)
    requires HasToken(store, AdminKey)
    ensures Load("/sensor-stack-chart", store) == Some(Render(AdminDashboard))
    ensures Settle("/sensor-stack-chart", Restart(store).state, 2) == Some(Render(SensorStackChart))
    ensures LoadCorrected("/sensor-stack-chart", store) == Some(Render(SensorStackChart))
  {
    var st := Restart(store).state;
    assert Table[13] == Route("/sensor-stack-chart", SensorStackChart, AdminOnly);
    LoadAsWritten(13, store);
    FindListed(13, st);
    LoadCorrectedIsSettle("/sensor-stack-chart", store);
  }
}
