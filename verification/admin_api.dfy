/** The admin HTTP client (frontend/src/config/adminApi.js): an axios instance
    rooted at http://localhost:8000 whose request interceptor attaches the
    stored admin token as a bearer credential, and the four alert endpoints.
    Sending the request is not part of this model; a request is the value the
    interceptor hands on. */
module AdminApi {
  import opened Base
  import opened Js
  import opened Session

  const BaseUrl := "http://localhost:8000"
  const AlertsPath := "/admin/alerts"
  const BearerPrefix := "Bearer "

  datatype Method = Get | Post | Put | Delete

  /** The parts of an axios request config the client sets or reads. */
  datatype Config = Config(verb: Method, url: string, headers: map<string, string>, data: Option<JsValue>)

  /** The header value `Bearer ${token}`. */
  function BearerHeader(token: string): (h: string)
    ensures |h| == |BearerPrefix| + |token|
    ensures h[..|BearerPrefix|] == BearerPrefix && h[|BearerPrefix|..] == token
  {
    BearerPrefix + token
  }

  /** The credential of a bearer header, if it is one. */
  function BearerToken(h: string): (t: Option<string>)
    ensures t.Some? <==> |h| >= |BearerPrefix| && h[..|BearerPrefix|] == BearerPrefix
    ensures t.Some? ==> BearerHeader(t.value) == h
  {
    if |h| >= |BearerPrefix| && h[..|BearerPrefix|] == BearerPrefix then Some(h[|BearerPrefix|..]) else None
  }

  /** The request interceptor (adminApi.js lines 8-12): with a truthy
      `adminToken` in storage, `Authorization` is set to the bearer header;
      otherwise the headers are left as they are, neither set nor cleared.
      Every other part of the config passes through. */
  function Intercept(c: Config, store: Storage): (r: Config)
    ensures r.verb == c.verb && r.url == c.url && r.data == c.data
    ensures HasToken(store, AdminKey) ==> r.headers == c.headers["Authorization" := BearerHeader(store[AdminKey])]
    ensures !HasToken(store, AdminKey) ==> r.headers == c.headers
  {
    if HasToken(store, AdminKey) then c.(headers := c.headers["Authorization" := BearerHeader(store[AdminKey])])
    else c
  }

  /** The credential the server receives is exactly the stored admin token
      when that token is non-empty; any other header is untouched either way. */
  lemma InterceptCredential(c: Config, store: Storage)
    ensures AdminKey in store && store[AdminKey] != "" ==>
              "Authorization" in Intercept(c, store).headers
              && BearerToken(Intercept(c, store).headers["Authorization"]) == Some(store[AdminKey])
    ensures forall h :: h != "Authorization" ==>
              (h in Intercept(c, store).headers <==> h in c.headers)
    ensures forall h :: h != "Authorization" && h in c.headers ==> Intercept(c, store).headers[h] == c.headers[h]
  {
    HasTokenIff(store, AdminKey);
  }

  /** The path of one alert, `/admin/alerts/${id}`. */
  function AlertPath(id: string): (p: string)
    ensures |p| == |AlertsPath| + 1 + |id|
    ensures p[..|AlertsPath|] == AlertsPath && p[|AlertsPath|] == '/'
  {
    AlertsPath + "/" + id
  }

  /** The id named by a one-alert path, if the path is one. */
  function AlertIdOf(p: string): (id: Option<string>)
    ensures id.Some? ==> AlertPath(id.value) == p
  {
    if |p| > |AlertsPath| && p[..|AlertsPath|] == AlertsPath && p[|AlertsPath|] == '/'
    then Some(p[|AlertsPath| + 1..])
    else None
  }

  /** A one-alert path names the alert it was built from, and no two alerts
      share a path. */
  lemma AlertPathRoundTrip(id: string, other: string)
    ensures AlertIdOf(AlertPath(id)) == Some(id)
    ensures AlertPath(id) == AlertPath(other) ==> id == other
  {
    assert AlertPath(id)[|AlertsPath| + 1..] == id;
    if AlertPath(id) == AlertPath(other) {
      assert AlertPath(other)[|AlertsPath| + 1..] == other;
    }
  }

  /** A request before interception: an empty header map. */
  function Request(m: Method, path: string, data: Option<JsValue>): (c: Config)
    ensures c.verb == m && c.data == data && c.headers == map[]
    ensures |c.url| == |BaseUrl| + |path|
    ensures c.url[..|BaseUrl|] == BaseUrl && c.url[|BaseUrl|..] == path
  {
    Config(m, BaseUrl + path, map[], data)
  }

  /** `fetchAlerts()` (adminApi.js line 14). */
  function FetchAlerts(): (c: Config)
    ensures c.verb == Get && c.url == BaseUrl + AlertsPath && c.data == None && c.headers == map[]
  {
    Request(Get, AlertsPath, None)
  }

  /** `createAlert(data)` (adminApi.js line 15). */
  function CreateAlert(data: JsValue): (c: Config)
    ensures c.verb == Post && c.url == BaseUrl + AlertsPath && c.data == Some(data) && c.headers == map[]
  {
    Request(Post, AlertsPath, Some(data))
  }

  /** `updateAlert(id, data)` (adminApi.js line 16). */
  function UpdateAlert(id: string, data: JsValue): (c: Config)
    ensures c.verb == Put && c.url == BaseUrl + AlertPath(id) && c.data == Some(data) && c.headers == map[]
  {
    Request(Put, AlertPath(id), Some(data))
  }

  /** `deleteAlert(id)` (adminApi.js line 17). */
  function DeleteAlert(id: string): (c: Config)
    ensures c.verb == Delete && c.url == BaseUrl + AlertPath(id) && c.data == None && c.headers == map[]
  {
    Request(Delete, AlertPath(id), None)
  }

  /** Listing and creating share the collection URL; updating and deleting an
      alert share its own URL, under the collection, on the fixed server. */
  lemma EndpointUrls(id: string, data: JsValue)
    ensures FetchAlerts().url == CreateAlert(data).url == BaseUrl + AlertsPath
    ensures UpdateAlert(id, data).url == DeleteAlert(id).url == BaseUrl + AlertsPath + "/" + id
    ensures AlertIdOf(UpdateAlert(id, data).url[|BaseUrl|..]) == Some(id)
  {
    assert UpdateAlert(id, data).url[|BaseUrl|..] == AlertPath(id);
    AlertPathRoundTrip(id, id);
  }

  /** After an admin signs in with a non-empty token, every admin request
      carries that token; after logout no request gains a credential. */
  lemma SessionCredentials(s: Session, token: string, c: Config)
    requires token != ""
    ensures BearerToken(Intercept(c, Login(s, token, "admin").store).headers["Authorization"]) == Some(token)
    ensures Intercept(c, Logout(s).store) == c
  {
    HasTokenIff(Login(s, token, "admin").store, AdminKey);
    HasTokenIff(Logout(s).store, AdminKey);
  }

  /** A user login writes only the user token, so the admin client keeps
      sending whatever admin token was stored before, or none. */
  lemma UserLoginKeepsAdminCredential(s: Session, token: string, c: Config)
    ensures Intercept(c, Login(s, token, "user").store) == Intercept(c, s.store)
  {
    var st := Login(s, token, "user").store;
    assert AdminKey in st <==> AdminKey in s.store;
    assert AdminKey in st ==> st[AdminKey] == s.store[AdminKey];
  }
}
