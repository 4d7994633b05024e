/** The backend's alert registry: the subscribe endpoint appends one alert to
    the stored list, the delete endpoint removes the alerts with a given id.
    The store is the list itself (reading and writing the JSON file around
    each request is not modelled); the new alert's id and timestamp are
    supplied by the caller in place of `uuid4()` and `utcnow()`. */
module AlertRegistry {
  import opened Wrappers
  import Seqs
  import opened PyJson

  /** A stored alert; `notifyBy` is its `method` (how to notify), and its id
      is the string form of a fresh UUID. */
  datatype Alert = Alert(
    id: string,
    keyword: Json,
    discount: Json,
    notifyBy: Json,
    contact: Json,
    productTitle: Json,
    productUrl: Json,
    site: Json,
    createdAt: string)

  /** The alert a subscribe request describes, or None when it has no contact.
      `product` is the request's product object (empty when absent). */
  function NewAlert(payload: Row, product: Row, id: string, createdAt: string): (r: Option<Alert>)
    ensures r.None? <==> !Truthy(Get(payload, "contact"))
    ensures r.Some? ==> r.value.id == id && r.value.contact == Get(payload, "contact")
    ensures r.Some? ==> r.value.notifyBy == (if Truthy(Get(payload, "method")) then Get(payload, "method") else JStr("Email"))
    ensures r.Some? ==>
              r.value.productTitle == (if Truthy(Get(product, "title")) then Get(product, "title")
                                       else if Truthy(Get(product, "name")) then Get(product, "name")
                                       else if Truthy(Get(payload, "keyword")) then Get(payload, "keyword")
                                       else JStr(""))
  {
    var keyword := OrElse(Get(payload, "keyword"), JStr(""));
    var contact := OrElse(Get(payload, "contact"), JStr(""));
    if !Truthy(contact) then None
    else
      Some(Alert(
        id,
        keyword,
        OrElse(Get(payload, "discount"), JStr("")),
        OrElse(Get(payload, "method"), JStr("Email")),
        contact,
        OrElse(OrElse(Get(product, "title"), Get(product, "name")), keyword),
        Get(product, "url"),
        Get(product, "site"),
        createdAt))
  }

  /** Whether an alert carries the requested id (ids are compared as JSON values). */
  predicate HasId(a: Alert, id: Json) { JStr(a.id) == id }

  function OtherId(id: Json): Alert -> bool { (a: Alert) => !HasId(a, id) }
  function SameId(id: Json): Alert -> bool { (a: Alert) => HasId(a, id) }

  predicate IsFreshId(alerts: seq<Alert>, id: string) {
    forall k :: 0 <= k < |alerts| ==> alerts[k].id != id
  }

  /** `[a for a in alerts if a.get("id") != alert_id]`. */
  function WithoutId(alerts: seq<Alert>, id: Json): (r: seq<Alert>)
    ensures |r| <= |alerts|
    ensures forall k :: 0 <= k < |r| ==> !HasId(r[k], id)
  {
    Seqs.Filter(alerts, OtherId(id))
  }

  datatype SubscribeReply = Subscribed(alert: Alert) | SubscribeRejected(status: nat, error: string)

  datatype DeleteReply = Deleted(deleted: nat) | DeleteRejected(status: nat, error: string)

  class AlertStore {
    var alerts: seq<Alert>

    /** An empty store. */
    constructor()
      ensures alerts == []
    {
      alerts := [];
    }

    /** `api_subscribe`: rejects a request without a contact and leaves the
        store as it was; otherwise appends exactly one alert, with the new id. */
    method Subscribe(payload: Row, product: Row, id: string, createdAt: string) returns (reply: SubscribeReply)
      requires IsFreshId(alerts, id)
      modifies this
      ensures !Truthy(Get(payload, "contact")) ==>
        reply == SubscribeRejected(400, "Contact is required") && alerts == old(alerts)
      ensures Truthy(Get(payload, "contact")) ==>
        var a := NewAlert(payload, product, id, createdAt).value;
        reply == Subscribed(a) && alerts == old(alerts) + [a]
    {
      var alert := NewAlert(payload, product, id, createdAt);
      if alert.None? {
        return SubscribeRejected(400, "Contact is required");
      }
      alerts := alerts + [alert.value];
      return Subscribed(alert.value);
    }

    /** `api_delete_alert`: rejects a request without an id; otherwise keeps
        the alerts with other ids, in order, and reports how many were removed. */
    method Delete(payload: Row) returns (reply: DeleteReply)
      modifies this
      ensures !Truthy(Get(payload, "id")) ==>
        reply == DeleteRejected(400, "id is required") && alerts == old(alerts)
      ensures Truthy(Get(payload, "id")) ==>
        alerts == WithoutId(old(alerts), Get(payload, "id"))
        && reply == Deleted(|old(alerts)| - |alerts|)
    {
      var alertId := Get(payload, "id");
      if !Truthy(alertId) {
        return DeleteRejected(400, "id is required");
      }
      var kept := WithoutId(alerts, alertId);
      var deleted := |alerts| - |kept|;
      alerts := kept;
      return Deleted(deleted);
    }
  }

  /** The number reported deleted is the number of alerts with that id. */
  lemma DeletedCountsMatches(alerts: seq<Alert>, id: Json)
    ensures |alerts| - |WithoutId(alerts, id)| == Seqs.Count(alerts, SameId(id))
  {
    Seqs.FilterCount(alerts, OtherId(id));
    CountComplement(alerts, id);
  }

  lemma {:induction false} CountComplement(alerts: seq<Alert>, id: Json)
    ensures Seqs.Count(alerts, OtherId(id)) + Seqs.Count(alerts, SameId(id)) == |alerts|
    decreases |alerts|
  {
    if alerts != [] {
      CountComplement(alerts[1..], id);
    }
  }

  /** Deleting an id twice removes nothing the second time. */
  lemma DeleteIdempotent(alerts: seq<Alert>, id: Json)
    ensures WithoutId(WithoutId(alerts, id), id) == WithoutId(alerts, id)
  {
    Seqs.FilterIdempotent(alerts, OtherId(id));
  }

  /** Deleting an id no alert has removes nothing. */
  lemma {:induction false} DeleteAbsentId(alerts: seq<Alert>, id: Json)
    requires forall k :: 0 <= k < |alerts| ==> !HasId(alerts[k], id)
    ensures WithoutId(alerts, id) == alerts
    decreases |alerts|
  {
    if alerts != [] {
      DeleteAbsentId(alerts[1..], id);
      assert alerts == [alerts[0]] + alerts[1..];
    }
  }

  /** Deletion keeps the other alerts in their order, and only them. */
  lemma DeleteKeepsOthers(alerts: seq<Alert>, id: Json, a: Alert)
    ensures Seqs.IsSubsequence(WithoutId(alerts, id), alerts)
    ensures a in WithoutId(alerts, id) <==> a in alerts && !HasId(a, id)
  {
    Seqs.FilterIsSubsequence(alerts, OtherId(id));
    Seqs.FilterMembership(alerts, OtherId(id), a);
  }

  /** Subscribing with a fresh id and then deleting that id restores the store. */
  lemma SubscribeThenDelete(alerts: seq<Alert>, payload: Row, product: Row, id: string, createdAt: string)
    requires IsFreshId(alerts, id) && Truthy(Get(payload, "contact"))
    ensures WithoutId(alerts + [NewAlert(payload, product, id, createdAt).value], JStr(id)) == alerts
  {
    var a := NewAlert(payload, product, id, createdAt).value;
    Seqs.FilterAppend(alerts, [a], OtherId(JStr(id)));
    DeleteAbsentId(alerts, JStr(id));
    assert WithoutId([a], JStr(id)) == [];
  }
}
