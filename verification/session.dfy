/** The client session store (frontend/src/context/AuthContext.jsx): three
    pieces of React state over two local-storage keys, `adminToken` and
    `userToken`. A page load runs the provider's start-up check once; `login`
    and `logout` change both the state and the storage. */
module Session {
  import opened Base
  import opened Js

  const AdminKey := "adminToken"
  const UserKey := "userToken"

  /** The provider's state: `isAuthenticated`, `userRole` (`null` is `None`)
      and `isLoading`. */
  datatype AuthState = AuthState(isAuthenticated: bool, userRole: Option<string>, isLoading: bool)

  /** The state and the browser storage it is kept in. */
  datatype Session = Session(state: AuthState, store: Storage)

  /** The state before the start-up check (AuthContext.jsx lines 14-16). */
  const Initial := AuthState(false, None, true)

  /** The start-up effect (AuthContext.jsx lines 18-32): a truthy admin token
      signs in as admin, else a truthy user token signs in as user, else the
      state is kept; either way loading ends. A stored empty string is falsy
      and so counts as no token. */
  function Startup(store: Storage, s: AuthState): (r: AuthState)
    ensures !r.isLoading
    ensures HasToken(store, AdminKey) ==> r.isAuthenticated && r.userRole == Some("admin")
    ensures !HasToken(store, AdminKey) && HasToken(store, UserKey) ==> r.isAuthenticated && r.userRole == Some("user")
    ensures !HasToken(store, AdminKey) && !HasToken(store, UserKey) ==> r.isAuthenticated == s.isAuthenticated && r.userRole == s.userRole
  {
    if HasToken(store, AdminKey) then AuthState(true, Some("admin"), false)
    else if HasToken(store, UserKey) then AuthState(true, Some("user"), false)
    else s.(isLoading := false)
  }

  /** A fresh page load over the given storage: the provider mounts with the
      initial state and runs the start-up check. */
  function Restart(store: Storage): (r: Session)
    ensures r.store == store && !r.state.isLoading
    ensures r.state.isAuthenticated <==> r.state.userRole.Some?
  {
    Session(Startup(store, Initial), store)
  }

  /** The storage key `login` writes for a role: `adminToken` exactly for the
      role 'admin', `userToken` for every other role. */
  function TokenKey(role: string): (k: string)
    ensures k == AdminKey <==> role == "admin"
    ensures k == AdminKey || k == UserKey
  {
    if role == "admin" then AdminKey else UserKey
  }

  /** `login(token, role)` (AuthContext.jsx lines 34-42). */
  function Login(s: Session, token: string, role: string): (r: Session)
    ensures r.state.isAuthenticated && r.state.userRole == Some(role)
    ensures r.state.isLoading == s.state.isLoading
    ensures r.store.Keys == s.store.Keys + {TokenKey(role)}
    ensures r.store[TokenKey(role)] == token
    ensures forall k :: k in s.store && k != TokenKey(role) ==> r.store[k] == s.store[k]
  {
    Session(AuthState(true, Some(role), s.state.isLoading), s.store[TokenKey(role) := token])
  }

  /** `logout()` (AuthContext.jsx lines 44-49). */
  function Logout(s: Session): (r: Session)
    ensures !r.state.isAuthenticated && r.state.userRole == None
    ensures r.state.isLoading == s.state.isLoading
    ensures AdminKey !in r.store && UserKey !in r.store
    ensures forall k :: k != AdminKey && k != UserKey ==> (k in r.store <==> k in s.store)
    ensures forall k :: k in r.store ==> r.store[k] == s.store[k]
  {
    Session(AuthState(false, None, s.state.isLoading), s.store - {AdminKey, UserKey})
  }

  /** The start-up check decides the role by the admin token first: the
      session is authenticated iff some token is truthy, and its role is
      'admin' iff the admin token is, whatever the user token holds
      (AuthContext.jsx lines 20-29). */
  lemma RestartIff(store: Storage)
    ensures Restart(store).state.isAuthenticated <==>
              (AdminKey in store && store[AdminKey] != "") || (UserKey in store && store[UserKey] != "")
    ensures Restart(store).state.userRole == Some("admin") <==> AdminKey in store && store[AdminKey] != ""
    ensures Restart(store).state.userRole == Some("user") <==>
              !(AdminKey in store && store[AdminKey] != "") && UserKey in store && store[UserKey] != ""
  {
    HasTokenIff(store, AdminKey);
    HasTokenIff(store, UserKey);
  }

  /** Starting from empty storage, a login with a non-empty token survives a
      page reload with the role it was given, folded to 'admin' or 'user'
      (AuthContext.jsx lines 35-39 and 23-28). */
  lemma LoginSurvivesRestart(s: Session, token: string, role: string)
    requires s.store == map[]
    requires token != ""
    ensures Restart(Login(s, token, role).store).state
            == AuthState(true, Some(if role == "admin" then "admin" else "user"), false)
  {
    var st := Login(s, token, role).store;
    HasTokenIff(st, AdminKey);
    HasTokenIff(st, UserKey);
  }

  /** `login` never removes the other key: after an admin login, a user login
      followed by a reload comes back as admin. */
  lemma StaleAdminTokenWins(s: Session, adminToken: string, userToken: string)
    requires adminToken != ""
    ensures var after := Login(Login(s, adminToken, "admin"), userToken, "user");
            after.state.userRole == Some("user")
            && Restart(after.store).state.userRole == Some("admin")
  {
    var st := Login(Login(s, adminToken, "admin"), userToken, "user").store;
    assert st[AdminKey] == adminToken;
    HasTokenIff(st, AdminKey);
  }

  /** An empty token is written to storage but is falsy on reload: the session
      it started does not survive a restart from empty storage. */
  lemma EmptyTokenForgotten(s: Session, role: string)
    requires s.store == map[]
    ensures Login(s, "", role).state.isAuthenticated
    ensures !Restart(Login(s, "", role).store).state.isAuthenticated
  {
    var st := Login(s, "", role).store;
    HasTokenIff(st, AdminKey);
    HasTokenIff(st, UserKey);
  }

  /** After `logout` a reload finds no session, and the storage keeps every
      other key (AuthContext.jsx lines 44-49). */
  lemma LogoutThenRestart(s: Session)
    ensures Restart(Logout(s).store).state == AuthState(false, None, false)
    ensures Logout(s).store == s.store - {AdminKey, UserKey}
  {
    var st := Logout(s).store;
    HasTokenIff(st, AdminKey);
    HasTokenIff(st, UserKey);
  }

  /** What `useAuth` hands to a component: the context value. */
  datatype AuthContextValue = AuthContextValue(state: AuthState)

  const OutsideProvider := "useAuth must be used within an AuthProvider"

  /** `useAuth()` (AuthContext.jsx lines 5-10): the context created without a
      default is `undefined` outside a provider and `useAuth` throws there;
      inside one it returns the provider's value. */
  function UseAuth(context: Option<AuthContextValue>): (r: Result<AuthContextValue, string>)
    ensures r.Err? <==> context.None?
    ensures r.Err? ==> r.error == OutsideProvider
    ensures r.Ok? ==> r.value == context.value
  {
    match context
    case None => Err(OutsideProvider)
    case Some(v) => Ok(v)
  }
}
