/** The alerts-management page (frontend/src/pages/AlertsManagement.jsx):
    the list fetched on mount, delete and in-place update of single alerts,
    the edit row, the colour badges and the four statistics tiles. A request
    is represented by its outcome; `window.confirm` by the user's answer. */
module AlertsManagement {
  import opened Base
  import opened Js
  import opened Lists
  import opened Alerts

  const FetchFailedText := "Failed to fetch alerts"
  const DeleteFailedText := "Failed to delete alert"
  const UpdateFailedText := "Failed to update alert"

  const Red := "#dc2626"
  const Amber := "#f59e0b"
  const Green := "#10b981"
  const Grey := "#6b7280"

  /** The page's state variables (AlertsManagement.jsx lines 11-15);
      `editing` is `editingAlert`, `null` when no row is being edited. */
  datatype Page = Page(alerts: seq<JsValue>, loading: bool, error: string, editing: JsValue, showMap: bool)

  /** The first render: no alerts, loading, no error, no edit row, list view. */
  const InitialPage := Page([], true, "", Null, false)

  /** The mount-time fetch settling (AlertsManagement.jsx lines 21-34): the
      body becomes the list, or the error is set and the list kept; loading
      ends either way. `fetched` is the array the server sent, `None` when
      the request failed. */
  function FetchSettled(p: Page, fetched: Option<seq<JsValue>>): (r: Page)
    ensures !r.loading
    ensures fetched.Some? ==> r.alerts == fetched.value && r.error == p.error
    ensures fetched.None? ==> r.alerts == p.alerts && r.error == FetchFailedText
    ensures r.editing == p.editing && r.showMap == p.showMap
  {
    match fetched
    case Some(items) => p.(alerts := items, loading := false)
    case None => p.(error := FetchFailedText, loading := false)
  }

  /** The spinner shows only before the fetch settles: the page starts
      loading, and no outcome of the fetch leaves it loading. */
  lemma LoadingUntilFetched(fetched: Option<seq<JsValue>>)
    ensures InitialPage.loading
    ensures !FetchSettled(InitialPage, fetched).loading
    ensures FetchSettled(InitialPage, fetched).alerts == (if fetched.Some? then fetched.value else [])
  {
  }

  /** `handleDeleteAlert` (AlertsManagement.jsx lines 36-51): a declined
      confirmation does nothing; a successful request drops the alerts with
      that id; a failed one keeps the list and sets the error. */
  function DeleteAlert(p: Page, id: JsValue, confirmed: bool, ok: bool): (r: Page)
    ensures !confirmed ==> r == p
    ensures confirmed && ok ==> r.alerts == WithoutId(p.alerts, id) && r.error == p.error
    ensures confirmed && !ok ==> r.alerts == p.alerts && r.error == DeleteFailedText
    ensures r.loading == p.loading && r.editing == p.editing && r.showMap == p.showMap
  {
    if !confirmed then p
    else if ok then p.(alerts := WithoutId(p.alerts, id))
    else p.(error := DeleteFailedText)
  }

  /** After a confirmed, successful delete no alert with that id is left,
      every other alert stays in its order, and the list is shorter by the
      number of alerts that carried the id. */
  lemma DeleteRemovesExactly(p: Page, id: JsValue)
    ensures var r := DeleteAlert(p, id, true, true);
            && (forall a :: a in r.alerts <==> a in p.alerts && IdOf(a) != id)
            && |r.alerts| + CountIf(p.alerts, HasId(id)) == |p.alerts|
            && DeleteAlert(r, id, true, true) == r
  {
    WithoutIdMembers(p.alerts, id);
    WithoutIdCount(p.alerts, id);
    WithoutIdStable(p.alerts, id);
  }

  /** `{ ...alert, ...updatedData }` on every alert whose id matches. */
  function UpdateList(alerts: seq<JsValue>, id: JsValue, data: JsValue): (r: seq<JsValue>)
    ensures |r| == |alerts|
    ensures forall i :: 0 <= i < |r| && IdOf(alerts[i]) != id ==> r[i] == alerts[i]
    ensures forall i :: 0 <= i < |r| && IdOf(alerts[i]) == id ==> r[i] == Merge(alerts[i], data)
  {
    seq(|alerts|, i requires 0 <= i < |alerts| => if IdOf(alerts[i]) == id then Merge(alerts[i], data) else alerts[i])
  }

  /** `handleUpdateAlert` (AlertsManagement.jsx lines 53-68): on success the
      matching alerts take the new fields and the edit row closes; on
      failure the list and the edit row stay and the error is set. */
  function UpdateAlert(p: Page, id: JsValue, data: JsValue, ok: bool): (r: Page)
    ensures ok ==> r.alerts == UpdateList(p.alerts, id, data) && r.editing == Null && r.error == p.error
    ensures !ok ==> r.alerts == p.alerts && r.editing == p.editing && r.error == UpdateFailedText
    ensures r.loading == p.loading && r.showMap == p.showMap
  {
    if ok then p.(alerts := UpdateList(p.alerts, id, data), editing := Null)
    else p.(error := UpdateFailedText)
  }

  /** Field by field, an updated alert reads the new value for every key
      the update carries and its old value for every other key. */
  lemma UpdateFields(alerts: seq<JsValue>, id: JsValue, data: JsValue, i: nat, key: string)
    requires i < |alerts| && IdOf(alerts[i]) == id
    ensures key in Spread(data) ==> Prop(UpdateList(alerts, id, data)[i], key) == Spread(data)[key]
    ensures key !in Spread(data) ==> Prop(UpdateList(alerts, id, data)[i], key) == Prop(alerts[i], key)
  {
  }

  /** Sending the same update twice changes nothing the first did not,
      provided the update keeps the alert's id. */
  lemma UpdateIdempotent(alerts: seq<JsValue>, id: JsValue, data: JsValue)
    requires "id" in Spread(data) ==> Spread(data)["id"] == id
    ensures UpdateList(UpdateList(alerts, id, data), id, data) == UpdateList(alerts, id, data)
  {
    var once := UpdateList(alerts, id, data);
    forall i | 0 <= i < |alerts|
      ensures UpdateList(once, id, data)[i] == once[i]
    {
      if IdOf(alerts[i]) == id {
        assert IdOf(once[i]) == id by {
          if "id" !in Spread(data) {
            assert IdOf(once[i]) == Prop(alerts[i], "id");
          }
        }
        assert Spread(once[i]) + Spread(data) == Spread(once[i]);
      }
    }
  }

  /** Opening the edit row on an alert (`setEditingAlert(alert)`). */
  function StartEditing(p: Page, alert: JsValue): (r: Page)
    ensures r.editing == alert && r.alerts == p.alerts
  {
    p.(editing := alert)
  }

  /** Typing in one of the edit row's fields:
      `setEditingAlert({ ...editingAlert, [key]: value })`. */
  function EditField(p: Page, key: string, value: string): (r: Page)
    ensures Prop(r.editing, key) == Str(value)
    ensures forall k :: k in Spread(p.editing) && k != key ==> Prop(r.editing, k) == Spread(p.editing)[k]
    ensures r.alerts == p.alerts
  {
    p.(editing := Merge(p.editing, Obj(map[key := Str(value)])))
  }

  /** The Cancel button (`setEditingAlert(null)`). */
  function CancelEditing(p: Page): (r: Page)
    ensures r.editing == Null && r.alerts == p.alerts && r.error == p.error
  {
    p.(editing := Null)
  }

  /** The edit flow end to end: open the row on an alert, change one field,
      save with the alert's own id. When the save succeeds, that alert holds
      the new value under that key and every other property as before,
      alerts with other ids are untouched, and the row closes. */
  lemma EditThenSave(p: Page, i: nat, key: string, value: string)
    requires i < |p.alerts| && p.alerts[i].Obj?
    ensures var alert := p.alerts[i];
            var editing := EditField(StartEditing(p, alert), key, value).editing;
            var r := UpdateAlert(p, IdOf(alert), editing, true);
            && r.alerts[i] == Obj(alert.props[key := Str(value)])
            && (forall j :: 0 <= j < |p.alerts| && IdOf(p.alerts[j]) != IdOf(alert) ==> r.alerts[j] == p.alerts[j])
            && r.editing == Null
  {
    var alert := p.alerts[i];
    var editing := Merge(alert, Obj(map[key := Str(value)]));
    assert alert.props + (alert.props + map[key := Str(value)]) == alert.props[key := Str(value)];
  }

  /** `getRiskColor` (AlertsManagement.jsx lines 83-90). */
  function RiskColor(risk: JsValue): (c: string)
    ensures c == Red || c == Amber || c == Green || c == Grey
  {
    if risk == Str("High") then Red
    else if risk == Str("Moderate") then Amber
    else if risk == Str("Low") then Green
    else Grey
  }

  /** `getStatusColor` (AlertsManagement.jsx lines 92-99). */
  function StatusColor(status: JsValue): (c: string)
    ensures c == Green || c == Grey || c == Red
  {
    if status == Str("active") then Green
    else if status == Str("expired") then Grey
    else if status == Str("cancelled") then Red
    else Grey
  }

  /** The four colours are pairwise different. */
  lemma PaletteDistinct()
    ensures Red != Amber && Red != Green && Red != Grey
    ensures Amber != Green && Amber != Grey && Green != Grey
  {
    assert Red[1] == 'd' && Amber[1] == 'f' && Green[1] == '1' && Grey[1] == '6';
  }

  /** Each risk level has its own colour, and only the three known levels
      (compared strictly, so case and type matter) get one; everything else
      is grey. */
  lemma RiskColorIff(risk: JsValue)
    ensures RiskColor(risk) == Red <==> risk == Str("High")
    ensures RiskColor(risk) == Amber <==> risk == Str("Moderate")
    ensures RiskColor(risk) == Green <==> risk == Str("Low")
    ensures RiskColor(risk) == Grey <==> risk !in {Str("High"), Str("Moderate"), Str("Low")}
  {
    PaletteDistinct();
  }

  /** Active alerts are green and cancelled ones red; expired alerts share
      the grey of every unknown status, so the badge cannot tell them apart. */
  lemma StatusColorIff(status: JsValue)
    ensures StatusColor(status) == Green <==> status == Str("active")
    ensures StatusColor(status) == Red <==> status == Str("cancelled")
    ensures StatusColor(status) == Grey <==> status != Str("active") && status != Str("cancelled")
    ensures StatusColor(Str("expired")) == StatusColor(Str("unknown"))
  {
    PaletteDistinct();
  }

  /** The four statistics tiles (AlertsManagement.jsx lines 147-170). */
  datatype Stats = Stats(total: nat, active: nat, high: nat, moderate: nat)

  /** Whether `a[key] === value` for a string value. */
  predicate HasProp(a: JsValue, key: string, value: string)
  {
    Prop(a, key) == Str(value)
  }

  /** The test `a => a[key] === value`. */
  function PropIs(key: string, value: string): JsValue -> bool
  {
    a => HasProp(a, key, value)
  }

  /** `alerts.filter(a => a[key] === value).length`. */
  function CountWith(alerts: seq<JsValue>, key: string, value: string): (n: nat)
    ensures n <= |alerts|
  {
    CountIf(alerts, PropIs(key, value))
  }

  /** No alert is both High and Moderate. */
  lemma RiskLevelsExclusive(alerts: seq<JsValue>)
    ensures forall i :: 0 <= i < |alerts| ==> !(PropIs("risk_level", "High")(alerts[i]) && PropIs("risk_level", "Moderate")(alerts[i]))
  {
    assert Str("High") != Str("Moderate") by {
      assert |"High"| != |"Moderate"|;
    }
  }

  /** The tiles: the list length and the counts of active, High-risk and
      Moderate-risk alerts, each at most the total. */
  function StatsOf(alerts: seq<JsValue>): (s: Stats)
    ensures s.total == |alerts|
    ensures s.active <= s.total && s.high <= s.total && s.moderate <= s.total
  {
    Stats(|alerts|, CountWith(alerts, "status", "active"), CountWith(alerts, "risk_level", "High"),
          CountWith(alerts, "risk_level", "Moderate"))
  }

  /** Since no alert is both High and Moderate, those two tiles together
      never exceed the total. */
  lemma StatsRiskBound(alerts: seq<JsValue>)
    ensures StatsOf(alerts).high + StatsOf(alerts).moderate <= StatsOf(alerts).total
  {
    RiskLevelsExclusive(alerts);
    DisjointCounts(alerts, PropIs("risk_level", "High"), PropIs("risk_level", "Moderate"));
  }

  /** The tiles add up over a list made of two parts. */
  lemma StatsAppend(a: seq<JsValue>, b: seq<JsValue>)
    ensures var s, sa, sb := StatsOf(a + b), StatsOf(a), StatsOf(b);
            && s.total == sa.total + sb.total
            && s.active == sa.active + sb.active
            && s.high == sa.high + sb.high
            && s.moderate == sa.moderate + sb.moderate
  {
    CountAppend(a, b, PropIs("status", "active"));
    CountAppend(a, b, PropIs("risk_level", "High"));
    CountAppend(a, b, PropIs("risk_level", "Moderate"));
  }
}
