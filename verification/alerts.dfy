/** Alert lists as both admin pages hold them: the alert objects the server
    returns, told apart by their `id` property. Removal is the
    `alerts.filter(a => a.id !== id)` both pages apply after a delete. */
module Alerts {
  import opened Js
  import opened Lists

  /** `alert.id`. */
  function IdOf(a: JsValue): JsValue
  {
    Prop(a, "id")
  }

  /** Whether `a.id === id`. */
  predicate IdIs(a: JsValue, id: JsValue)
  {
    IdOf(a) == id
  }

  /** The test `a => a.id === id`. */
  function HasId(id: JsValue): JsValue -> bool
  {
    a => IdIs(a, id)
  }

  /** The test `a => a.id !== id`. */
  function OtherThan(id: JsValue): JsValue -> bool
  {
    a => !IdIs(a, id)
  }

  /** `alerts.filter(a => a.id !== id)`. */
  function WithoutId(alerts: seq<JsValue>, id: JsValue): (r: seq<JsValue>)
    ensures |r| <= |alerts|
    ensures forall i :: 0 <= i < |r| ==> IdOf(r[i]) != id
  {
    Filter(alerts, OtherThan(id))
  }

  /** Removal keeps exactly the alerts with another id. */
  lemma WithoutIdMembers(alerts: seq<JsValue>, id: JsValue)
    ensures forall a :: a in WithoutId(alerts, id) <==> a in alerts && IdOf(a) != id
  {
    FilterMembers(alerts, OtherThan(id));
    var r := WithoutId(alerts, id);
    forall a | a in r ensures a in alerts && IdOf(a) != id {
      var i :| 0 <= i < |r| && r[i] == a;
      assert r[i] in alerts;
    }
    forall a | a in alerts && IdOf(a) != id ensures a in r {
      var i :| 0 <= i < |alerts| && alerts[i] == a;
      assert OtherThan(id)(alerts[i]);
    }
  }

  /** The list shrinks by exactly the number of alerts carrying the id. */
  lemma WithoutIdCount(alerts: seq<JsValue>, id: JsValue)
    ensures |WithoutId(alerts, id)| + CountIf(alerts, HasId(id)) == |alerts|
  {
    CountComplement(alerts, OtherThan(id), HasId(id));
  }

  /** Removing twice removes nothing more, and removing an id no alert
      carries leaves the list as it was. */
  lemma WithoutIdStable(alerts: seq<JsValue>, id: JsValue)
    ensures WithoutId(WithoutId(alerts, id), id) == WithoutId(alerts, id)
    ensures (forall i :: 0 <= i < |alerts| ==> IdOf(alerts[i]) != id) ==> WithoutId(alerts, id) == alerts
  {
    FilterIdempotent(alerts, OtherThan(id));
  }

  /** Removal of a list made of two parts removes from each part in place:
      the alerts that stay keep their order. */
  lemma WithoutIdAppend(a: seq<JsValue>, b: seq<JsValue>, id: JsValue)
    ensures WithoutId(a + b, id) == WithoutId(a, id) + WithoutId(b, id)
  {
    FilterAppend(a, b, OtherThan(id));
  }

  /** When the alert at `j` is the only one with its id, removing that id
      takes out position `j` and nothing else. */
  lemma WithoutUniqueId(alerts: seq<JsValue>, j: nat)
    requires j < |alerts|
    requires forall k :: 0 <= k < |alerts| && k != j ==> IdOf(alerts[k]) != IdOf(alerts[j])
    ensures WithoutId(alerts, IdOf(alerts[j])) == alerts[..j] + alerts[j + 1..]
  {
    var id := IdOf(alerts[j]);
    var before, after := alerts[..j], alerts[j + 1..];
    assert alerts == before + [alerts[j]] + after;
    FilterSplice(before, alerts[j], after, OtherThan(id));
    assert forall k :: 0 <= k < |before| ==> IdOf(before[k]) != id by {
      forall k | 0 <= k < |before| ensures IdOf(before[k]) != id {
        assert before[k] == alerts[k];
      }
    }
    assert forall k :: 0 <= k < |after| ==> IdOf(after[k]) != id by {
      forall k | 0 <= k < |after| ensures IdOf(after[k]) != id {
        assert after[k] == alerts[j + 1 + k];
      }
    }
    WithoutIdStable(before, id);
    WithoutIdStable(after, id);
    FilterNone([alerts[j]], OtherThan(id));
    calc {
      WithoutId(alerts, id);
      Filter(before + [alerts[j]] + after, OtherThan(id));
      Filter(before, OtherThan(id)) + Filter([alerts[j]], OtherThan(id)) + Filter(after, OtherThan(id));
      before + [] + after;
      { assert before + [] == before; }
      before + after;
    }
  }
}
