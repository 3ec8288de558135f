/** The admin dashboard's alert panel (frontend/src/pages/AdminDashboard.jsx):
    a draft for new alerts, delete by id, and an edit row tracked by list
    position. Each handler yields the new state, the request it sends (built
    by the admin client) and the `alert()` text it shows; a request is
    represented by its outcome, `window.confirm` by the user's answer. Alert
    ids are the strings the server assigns. */
module AdminDashboard {
  import opened Base
  import opened Js
  import opened Alerts
  import AdminApi
  import Session
  import Routes

  const FieldsRequiredText := "All fields required"
  const CreateFailedText := "Create failed."
  const DeleteFailedText := "Delete failed."
  const UpdateFailedText := "Update failed."

  /** The create form, `newAlert` (AdminDashboard.jsx line 16). */
  datatype Draft = Draft(title: string, message: string)

  const EmptyDraft := Draft("", "")

  /** The alert panel's state (AdminDashboard.jsx lines 15-18): the list, the
      draft, the position of the row being edited (`null` is `None`) and the
      edited copy. */
  datatype Dash = Dash(alerts: seq<JsValue>, draft: Draft, editIndex: Option<nat>, edited: JsValue)

  const InitialDash := Dash([], EmptyDraft, None, Obj(map[]))

  /** What a handler did: the new state, the request it sent, if any, and
      the `alert()` it showed, if any. */
  datatype Step = Step(dash: Dash, sent: Option<AdminApi.Config>, notice: Option<string>)

  /** The draft as the object `createAlert` sends. */
  function DraftBody(d: Draft): (body: JsValue)
    ensures Prop(body, "title") == Str(d.title) && Prop(body, "message") == Str(d.message)
    ensures body.Obj? && body.props.Keys == {"title", "message"}
  {
    Obj(map["title" := Str(d.title), "message" := Str(d.message)])
  }

  /** `handleCreate` (AdminDashboard.jsx lines 41-52). A draft with an empty
      title or message sends nothing; otherwise the draft is posted, and on
      success the server's alert is appended and the draft cleared, while a
      failure keeps everything and says so. `created` is `res.data`, `None`
      when the request failed. */
  function HandleCreate(d: Dash, created: Option<JsValue>): (r: Step)
    ensures d.draft.title == "" || d.draft.message == "" ==> r == Step(d, None, Some(FieldsRequiredText))
    ensures d.draft.title != "" && d.draft.message != "" ==>
              && r.sent == Some(AdminApi.CreateAlert(DraftBody(d.draft)))
              && (created.Some? ==> r.dash == d.(alerts := d.alerts + [created.value], draft := EmptyDraft) && r.notice == None)
              && (created.None? ==> r.dash == d && r.notice == Some(CreateFailedText))
  {
    if d.draft.title == "" || d.draft.message == "" then Step(d, None, Some(FieldsRequiredText))
    else
      var sent := Some(AdminApi.CreateAlert(DraftBody(d.draft)));
      match created
      case Some(alert) => Step(d.(alerts := d.alerts + [alert], draft := EmptyDraft), sent, None)
      case None => Step(d, sent, Some(CreateFailedText))
  }

  /** A request is sent exactly for a draft with both fields filled, and
      what it posts is a truthy title and message to the collection URL; a
      success puts the new alert last and leaves every earlier one in place. */
  lemma CreateSendsOnlyComplete(d: Dash, created: Option<JsValue>)
    ensures var r := HandleCreate(d, created);
            && (r.sent.Some? <==> d.draft.title != "" && d.draft.message != "")
            && (r.sent.Some? ==> && r.sent.value.url == AdminApi.BaseUrl + AdminApi.AlertsPath
                                 && Truthy(Prop(r.sent.value.data.value, "title"))
                                 && Truthy(Prop(r.sent.value.data.value, "message")))
            && (r.sent.Some? && created.Some? ==>
                  && |r.dash.alerts| == |d.alerts| + 1
                  && r.dash.alerts[..|d.alerts|] == d.alerts
                  && r.dash.alerts[|d.alerts|] == created.value)
  {
    var r := HandleCreate(d, created);
    if r.sent.Some? && created.Some? {
      assert r.dash.alerts == d.alerts + [created.value];
    }
  }

  /** `handleDelete` (AdminDashboard.jsx lines 54-63): a declined confirmation
      does nothing; a confirmed one sends the delete, and on success drops
      the alerts with that id. The edit row is left as it was. */
  function HandleDelete(d: Dash, id: string, confirmed: bool, ok: bool): (r: Step)
    ensures !confirmed ==> r == Step(d, None, None)
    ensures confirmed ==> r.sent == Some(AdminApi.DeleteAlert(id))
    ensures confirmed && ok ==> r.dash == d.(alerts := WithoutId(d.alerts, Str(id))) && r.notice == None
    ensures confirmed && !ok ==> r.dash == d && r.notice == Some(DeleteFailedText)
  {
    if !confirmed then Step(d, None, None)
    else if ok then Step(d.(alerts := WithoutId(d.alerts, Str(id))), Some(AdminApi.DeleteAlert(id)), None)
    else Step(d, Some(AdminApi.DeleteAlert(id)), Some(DeleteFailedText))
  }

  /** A confirmed, successful delete keeps exactly the alerts with another
      id, in their order, and deleting again changes nothing. */
  lemma DeleteKeepsOthers(d: Dash, id: string, a: seq<JsValue>, b: seq<JsValue>)
    requires d.alerts == a + b
    ensures var r := HandleDelete(d, id, true, true).dash.alerts;
            && (forall x :: x in r <==> x in d.alerts && IdOf(x) != Str(id))
            && r == WithoutId(a, Str(id)) + WithoutId(b, Str(id))
            && HandleDelete(HandleDelete(d, id, true, true).dash, id, true, true).dash.alerts == r
  {
    WithoutIdMembers(d.alerts, Str(id));
    WithoutIdAppend(a, b, Str(id));
    WithoutIdStable(d.alerts, Str(id));
  }

  /** `startEdit(i)` (AdminDashboard.jsx lines 65-68): the row index and a
      shallow copy of that alert (`{...undefined}` is `{}` past the end). */
  function StartEdit(d: Dash, i: nat): (r: Dash)
    ensures r.editIndex == Some(i) && r.alerts == d.alerts && r.draft == d.draft
    ensures r.edited.Obj?
    ensures i < |d.alerts| ==> forall k :: Prop(r.edited, k) == Prop(d.alerts[i], k)
  {
    Dash(d.alerts, d.draft, Some(i), Obj(Spread(if i < |d.alerts| then d.alerts[i] else Undefined)))
  }

  /** `cancelEdit` (AdminDashboard.jsx lines 69-72). */
  function CancelEdit(d: Dash): (r: Dash)
    ensures r.editIndex == None && r.edited == Obj(map[]) && r.alerts == d.alerts && r.draft == d.draft
  {
    d.(editIndex := None, edited := Obj(map[]))
  }

  /** Typing in the edit row: `setEditedAlert({ ...editedAlert, [key]: value })`. */
  function EditField(d: Dash, key: string, value: string): (r: Dash)
    ensures Prop(r.edited, key) == Str(value)
    ensures forall k :: k != key ==> Prop(r.edited, k) == Prop(d.edited, k)
    ensures r.alerts == d.alerts && r.editIndex == d.editIndex
  {
    d.(edited := Merge(d.edited, Obj(map[key := Str(value)])))
  }

  /** Opening and closing the edit row without saving leaves nothing behind
      but the closed row: the list and the draft are as before. */
  lemma StartThenCancel(d: Dash, i: nat)
    ensures CancelEdit(StartEdit(d, i)) == d.(editIndex := None, edited := Obj(map[]))
    ensures CancelEdit(StartEdit(d, i)) == CancelEdit(d)
  {
  }

  /** The body `saveEdit` sends: only the edited title and message. */
  function EditBody(edited: JsValue): (body: JsValue)
    ensures body.Obj? && body.props.Keys == {"title", "message"}
    ensures Prop(body, "title") == Prop(edited, "title") && Prop(body, "message") == Prop(edited, "message")
  {
    Obj(map["title" := Prop(edited, "title"), "message" := Prop(edited, "message")])
  }

  /** `saveEdit(id)` (AdminDashboard.jsx lines 73-87). Save shows only in the
      row at `editIndex`, so that row exists. The update goes to `id`; on
      success the server's alert replaces the entry at `editIndex`, not the
      one found by id, and the edit row closes; a failure keeps everything. */
  function SaveEdit(d: Dash, id: string, updated: Option<JsValue>): (r: Step)
    requires d.editIndex.Some? && d.editIndex.value < |d.alerts|
    ensures r.sent == Some(AdminApi.UpdateAlert(id, EditBody(d.edited)))
    ensures updated.Some? ==> r.dash == CancelEdit(d.(alerts := d.alerts[d.editIndex.value := updated.value])) && r.notice == None
    ensures updated.None? ==> r.dash == d && r.notice == Some(UpdateFailedText)
  {
    var sent := Some(AdminApi.UpdateAlert(id, EditBody(d.edited)));
    match updated
    case Some(alert) => Step(CancelEdit(d.(alerts := d.alerts[d.editIndex.value := alert])), sent, None)
    case None => Step(d, sent, Some(UpdateFailedText))
  }

  /** A successful save keeps the list length, puts the server's alert at
      the edited position and leaves every other position unchanged, and
      what it sent is the row's title and message and nothing else. */
  lemma SaveReplacesAtIndex(d: Dash, id: string, alert: JsValue)
    requires d.editIndex.Some? && d.editIndex.value < |d.alerts|
    ensures var r := SaveEdit(d, id, Some(alert)).dash;
            && |r.alerts| == |d.alerts|
            && r.alerts[d.editIndex.value] == alert
            && (forall j :: 0 <= j < |d.alerts| && j != d.editIndex.value ==> r.alerts[j] == d.alerts[j])
            && r.editIndex == None
    ensures SaveEdit(d, id, Some(alert)).sent.value.data.value.props.Keys == {"title", "message"}
  {
  }

  /** Editing a row end to end: start on row `i`, change the title, save
      (the row's Save button passes that row's own id). The request is a PUT
      to that alert's address carrying the new title and the row's old
      message, and the server's answer lands at row `i`. */
  lemma EditRowRoundTrip(d: Dash, i: nat, id: string, title: string, alert: JsValue)
    requires i < |d.alerts| && IdOf(d.alerts[i]) == Str(id)
    ensures var e := EditField(StartEdit(d, i), "title", title);
            var r := SaveEdit(e, id, Some(alert));
            && r.sent.value.verb == AdminApi.Put
            && r.sent.value.url == AdminApi.BaseUrl + AdminApi.AlertPath(id)
            && AdminApi.AlertIdOf(r.sent.value.url[|AdminApi.BaseUrl|..]) == Some(id)
            && r.sent.value.data == Some(EditBody(e.edited))
            && Prop(r.sent.value.data.value, "title") == Str(title)
            && Prop(r.sent.value.data.value, "message") == Prop(d.alerts[i], "message")
            && r.dash.alerts == d.alerts[i := alert]
  {
    var e := EditField(StartEdit(d, i), "title", title);
    assert Prop(e.edited, "message") == Prop(StartEdit(d, i).edited, "message");
    AdminApi.AlertPathRoundTrip(id, id);
  }

  /** The edit row follows a position, not an alert: deleting an alert above
      the edited row leaves `editIndex` and the edited copy in place, so row
      `i` now shows the alert that followed, and its Save button (which
      passes that row's id, AdminDashboard.jsx line 215) sends the old row's
      edited title and message to the following alert and puts the answer
      in its place. */
  lemma DeleteAboveShiftsEditTarget(d: Dash, j: nat, i: nat, id: string, next: string, alert: JsValue)
    requires j < i && i + 1 < |d.alerts| && d.editIndex == Some(i)
    requires IdOf(d.alerts[j]) == Str(id)
    requires forall k :: 0 <= k < |d.alerts| && k != j ==> IdOf(d.alerts[k]) != Str(id)
    requires IdOf(d.alerts[i + 1]) == Str(next)
    ensures var after := HandleDelete(d, id, true, true).dash;
            && after.editIndex == Some(i)
            && after.edited == d.edited
            && |after.alerts| == |d.alerts| - 1
            && after.alerts[i] == d.alerts[i + 1]
            && IdOf(after.alerts[i]) == Str(next)
    ensures var after := HandleDelete(d, id, true, true).dash;
            var r := SaveEdit(after, next, Some(alert));
            && r.sent.value.verb == AdminApi.Put
            && r.sent.value.url == AdminApi.BaseUrl + AdminApi.AlertPath(next)
            && Prop(r.sent.value.data.value, "title") == Prop(d.edited, "title")
            && Prop(r.sent.value.data.value, "message") == Prop(d.edited, "message")
            && r.dash.alerts[i] == alert
  {
    WithoutUniqueId(d.alerts, j);
    var rest := d.alerts[..j] + d.alerts[j + 1..];
    assert WithoutId(d.alerts, Str(id)) == rest;
    assert |rest| == |d.alerts| - 1;
    assert rest[i] == d.alerts[j + 1..][i - j] == d.alerts[i + 1];
    var after := d.(alerts := rest);
    assert HandleDelete(d, id, true, true).dash == after;
    assert SaveEdit(after, next, Some(alert)).dash.alerts == rest[i := alert];
  }

  /** What the Logout button does: the storage left behind and the address
      the window is sent to (a full page load). */
  datatype Exit = Exit(store: Storage, target: string)

  /** `handleLogout` as written (AdminDashboard.jsx lines 90-93): the admin
      token is removed and the window goes to /admin-login. */
  function SignOutAsWritten(store: Storage): (r: Exit)
    ensures Session.AdminKey !in r.store
    ensures forall k :: k in store && k != Session.AdminKey ==> k in r.store && r.store[k] == store[k]
  {
    Exit(store - {Session.AdminKey}, "/admin-login")
  }

  /** The route table has no /admin-login, so the page loaded after a logout
      as written matches no route: the route outlet stays empty (only the
      navigation bar, drawn outside the routes, shows), whoever is signed in. */
  lemma AsWrittenSignOutLandsNowhere(store: Storage)
    ensures Routes.Visit(SignOutAsWritten(store).target, Session.Restart(SignOutAsWritten(store).store).state) == None
  {
    Routes.KeyOfPlain("/admin-login");
    assert forall j :: 0 <= j < |Routes.Table| ==> Routes.TableKey(j) != "/admin-login";
  }

  /** The logout with the login page as its target. */
  function SignOut(store: Storage): (r: Exit)
    ensures Session.AdminKey !in r.store
    ensures forall k :: k in store && k != Session.AdminKey ==> k in r.store && r.store[k] == store[k]
    ensures forall k :: k in r.store ==> k in store
  {
    Exit(store - {Session.AdminKey}, "/login")
  }

  /** After the corrected logout the reloaded app never shows an admin page:
      it settles on the login page, or on the user dashboard when a user
      token is still stored. The page load itself, first render included,
      ends there too. */
  lemma SignOutLandsOnLogin(store: Storage)
    ensures var e := SignOut(store);
            Routes.Settle(e.target, Session.Restart(e.store).state, 1)
            == Some(Routes.Render(if HasToken(store, Session.UserKey) then Routes.UserDashboard else Routes.Login))
    ensures var e := SignOut(store);
            Routes.Load(e.target, e.store)
            == Some(Routes.Render(if HasToken(store, Session.UserKey) then Routes.UserDashboard else Routes.Login))
  {
    var e := SignOut(store);
    var st := Session.Restart(e.store).state;
    Session.RestartIff(e.store);
    HasTokenIff(store, Session.UserKey);
    Routes.LoginSettles(st, 1);
    Routes.Landmarks();
    Routes.LoadAsWritten(6, e.store);
    Routes.LoginSettles(st, 2);
  }
}
