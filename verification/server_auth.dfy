/** The server-side authorisation dependencies (backend/auth/dependencies.py):
    the user record built from a verified JWT's claims, and the two guards
    that admit a request only for an admin role or for an approved user.
    Token verification itself (`jwt_required`, signature and expiry checks)
    belongs to the JWT library and is not part of this model: the input here
    is a token that has already passed it. */
module ServerAuth {
  import opened Base

  /** A JSON value as Python sees it after decoding the token's payload. */
  datatype Json =
    | JNull
    | JBool(b: bool)
    | JNum(n: real)
    | JStr(s: string)
    | JArr(items: seq<Json>)
    | JObj(props: map<string, Json>)

  /** Python truthiness of a decoded JSON value: `None`, `False`, `0`, `""`,
      `[]` and `{}` are false, everything else is true. */
  predicate PyTruthy(v: Json)
  {
    match v
    case JNull => false
    case JBool(b) => b
    case JNum(n) => n != 0.0
    case JStr(s) => s != ""
    case JArr(items) => items != []
    case JObj(props) => props != map[]
  }

  /** A verified token: its subject and the claims of its raw payload. */
  datatype Token = Token(subject: string, claims: map<string, Json>)

  /** The dictionary `get_current_user` returns. */
  datatype CurrentUser = CurrentUser(email: string, role: Json, isApproved: Json)

  /** `HTTPException(status_code, detail)`. */
  datatype HttpError = HttpError(status: int, detail: string)

  /** `dict.get(key, default)`. */
  function ClaimOr(claims: map<string, Json>, key: string, default: Json): (v: Json)
    ensures key in claims ==> v == claims[key]
    ensures key !in claims ==> v == default
  {
    if key in claims then claims[key] else default
  }

  /** `get_current_user` (dependencies.py lines 4-12): the subject as email, the
      `role` claim or `None`, and the `is_approved` claim or `False`. */
  function GetCurrentUser(t: Token): (u: CurrentUser)
    ensures u.email == t.subject
    ensures "role" in t.claims ==> u.role == t.claims["role"]
    ensures "role" !in t.claims ==> u.role == JNull
    ensures "is_approved" in t.claims ==> u.isApproved == t.claims["is_approved"]
    ensures "is_approved" !in t.claims ==> u.isApproved == JBool(false)
  {
    CurrentUser(t.subject, ClaimOr(t.claims, "role", JNull), ClaimOr(t.claims, "is_approved", JBool(false)))
  }

  const AdminDenied := HttpError(403, "Admin access required")
  const NotApproved := HttpError(403, "User not approved yet")

  /** `admin_required` (dependencies.py lines 14-17): a user whose role is not
      the string "admin" is refused with 403; anyone else passes through. */
  function AdminRequired(u: CurrentUser): (r: Result<CurrentUser, HttpError>)
    ensures r.Ok? <==> u.role == JStr("admin")
    ensures r.Ok? ==> r.value == u
    ensures r.Err? ==> r.error.status == 403 && r.error.detail == "Admin access required"
  {
    if u.role != JStr("admin") then Err(AdminDenied) else Ok(u)
  }

  /** `approved_user_required` (dependencies.py lines 19-22): a user whose
      `is_approved` is falsy is refused with 403; anyone else passes through. */
  function ApprovedUserRequired(u: CurrentUser): (r: Result<CurrentUser, HttpError>)
    ensures r.Err? <==> !PyTruthy(u.isApproved)
    ensures r.Ok? ==> r.value == u
    ensures r.Err? ==> r.error.status == 403 && r.error.detail == "User not approved yet"
  {
    if !PyTruthy(u.isApproved) then Err(NotApproved) else Ok(u)
  }

  /** End to end, a token reaches an admin endpoint exactly when it carries the
      claim `role: "admin"`; a token without a role claim (such as the one
      `admin_login` mints from the subject alone) is always refused. */
  lemma AdminTokenIff(t: Token)
    ensures AdminRequired(GetCurrentUser(t)).Ok? <==> "role" in t.claims && t.claims["role"] == JStr("admin")
    ensures "role" !in t.claims ==> AdminRequired(GetCurrentUser(t)) == Err(AdminDenied)
  {
  }

  /** End to end, a token passes the approval check exactly when it carries a
      truthy `is_approved` claim; without the claim it is never approved. */
  lemma ApprovedTokenIff(t: Token)
    ensures ApprovedUserRequired(GetCurrentUser(t)).Ok? <==> "is_approved" in t.claims && PyTruthy(t.claims["is_approved"])
    ensures "is_approved" !in t.claims ==> ApprovedUserRequired(GetCurrentUser(t)) == Err(NotApproved)
  {
  }

  /** The approval check tests truthiness, not `is True`: a claim holding the
      string "false" or the number 1 is accepted, the number 0 refused. */
  lemma ApprovalIsTruthiness(email: string, role: Json)
    ensures ApprovedUserRequired(CurrentUser(email, role, JStr("false"))).Ok?
    ensures ApprovedUserRequired(CurrentUser(email, role, JNum(1.0))).Ok?
    ensures ApprovedUserRequired(CurrentUser(email, role, JNum(0.0))).Err?
  {
  }

  /** The two guards are independent: an admin need not be approved, and an
      approved user need not be an admin. */
  lemma GuardsIndependent(email: string)
    ensures AdminRequired(CurrentUser(email, JStr("admin"), JBool(false))).Ok?
    ensures ApprovedUserRequired(CurrentUser(email, JStr("admin"), JBool(false))).Err?
    ensures AdminRequired(CurrentUser(email, JStr("user"), JBool(true))).Err?
    ensures ApprovedUserRequired(CurrentUser(email, JStr("user"), JBool(true))).Ok?
  {
  }
}
