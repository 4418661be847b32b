/** Alerts and their deduplication (apps/api/src/alerts/alerts.service.ts), without a concurrent caller. */
module Alerts {
  import opened Wrappers

  datatype AlertStatus = Open | Acknowledged | Resolved

  datatype SecurityType =
    RootDetected | DeviceOwnerLost | AppIntegrityFailed | ClockTampered | KioskExitAttempt | OtherSecurity(name: string)

  /** The deduplication keys the server writes, and any other one. */
  datatype DedupeKey =
    | AfterReturnExit(session: Option<nat>, deviceId: nat)
    | Security(deviceId: nat, event: SecurityType)
    | ClockTampering(deviceId: nat)
    | MockLocation(deviceId: nat)
    | OfflineRevalidation(sessionId: nat)
    | CustomKey(text: string)

  datatype Alert = Alert(companyId: nat, key: Option<DedupeKey>, status: AlertStatus)

  type Table = seq<Alert>

  predicate OpenWith(alerts: Table, id: nat, companyId: nat, key: DedupeKey) {
    id < |alerts| && alerts[id] == Alert(companyId, Some(key), Open)
  }

  /** The partial unique index on (company_id, dedupe_key) where status = 'OPEN'. */
  ghost predicate OneOpenPerKey(alerts: Table) {
    forall a: nat, b: nat, companyId: nat, key ::
      OpenWith(alerts, a, companyId, key) && OpenWith(alerts, b, companyId, key) ==> a == b
  }

  function FindOpen(alerts: Table, companyId: nat, key: DedupeKey): (r: Option<nat>)
    ensures r.Some? ==> OpenWith(alerts, r.value, companyId, key)
    ensures r.None? <==> forall id: nat :: !OpenWith(alerts, id, companyId, key)
  {
    if alerts == [] then None
    else
      var last := |alerts| - 1;
      var earlier := FindOpen(alerts[..last], companyId, key);
      assert forall id: nat :: id < last ==>
        OpenWith(alerts[..last], id, companyId, key) == OpenWith(alerts, id, companyId, key);
      if earlier.Some? then earlier
      else if OpenWith(alerts, last, companyId, key) then Some(last)
      else None
  }

  /** The table after `raise`: nothing new while an open alert carries the key. */
  function Raised(alerts: Table, companyId: nat, key: Option<DedupeKey>): Table {
    if key.Some? && FindOpen(alerts, companyId, key.value).Some? then alerts
    else alerts + [Alert(companyId, key, Open)]
  }

  function RaisedId(alerts: Table, companyId: nat, key: Option<DedupeKey>): nat {
    var found := if key.Some? then FindOpen(alerts, companyId, key.value) else None;
    if found.Some? then found.value else |alerts|
  }

  /** Raising twice with a key is raising once. */
  lemma RaiseIsIdempotent(alerts: Table, companyId: nat, key: DedupeKey)
    ensures var after := Raised(alerts, companyId, Some(key));
      && Raised(after, companyId, Some(key)) == after
      && RaisedId(after, companyId, Some(key)) == RaisedId(alerts, companyId, Some(key))
      && OpenWith(after, RaisedId(alerts, companyId, Some(key)), companyId, key)
  {
  }

  class AlertService {
    var alerts: Table

    constructor ()
      ensures alerts == []
    {
      alerts := [];
    }

    method Raise(companyId: nat, key: Option<DedupeKey>) returns (id: nat)
      modifies this
      ensures alerts == Raised(old(alerts), companyId, key) && id == RaisedId(old(alerts), companyId, key)
      ensures id < |alerts| && alerts[id] == Alert(companyId, key, Open)
    {
      if key.Some? {
        var open := FindOpen(alerts, companyId, key.value);
        if open.Some? {
          return open.value;
        }
      }
      alerts := alerts + [Alert(companyId, key, Open)];
      id := |alerts| - 1;
    }

    /** `acknowledge` and `resolve`: an alert leaves OPEN, and never comes back to it. */
    method SetStatus(id: nat, status: AlertStatus) returns (found: bool)
      requires status != Open
      modifies this
      ensures found <==> id < |old(alerts)|
      ensures alerts == if found then old(alerts)[id := old(alerts)[id].(status := status)] else old(alerts)
      ensures OneOpenPerKey(old(alerts)) ==> OneOpenPerKey(alerts)
    {
      if id >= |alerts| {
        return false;
      }
      ghost var before := alerts;
      alerts := alerts[id := alerts[id].(status := status)];
      assert forall i: nat, companyId: nat, key ::
        OpenWith(alerts, i, companyId, key) ==> OpenWith(before, i, companyId, key);
      found := true;
    }
  }
}
