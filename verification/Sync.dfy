/**
 * The synchronisation engine (apps/api/src/sync/sync.service.ts): a phone pushes
 * a batch of events, and pushes it again whenever the answer was lost.
 */
module Sync {
  import opened Wrappers
  import S = Schedule
  import G = Geofence
  import C = Commands
  import A = Alerts
  import F = Fleet

  datatype Position = Position(latitude: real, longitude: real)

  datatype Kind = Location | Crossing | Security | BarcodeScan

  datatype Event = Event(
    id: nat, seqNo: int, kind: Kind, at: int, position: Option<Position>, mock: bool,
    crossing: Option<G.EventType>, security: Option<A.SecurityType>, sessionId: Option<nat>)

  /** The phone as loaded at the start of a push, with its depot's schedule. */
  datatype Phone = Phone(id: nat, companyId: nat, depot: Option<S.DepotSchedule>)

  datatype CrossingRow = CrossingRow(
    deviceId: nat, sessionId: Option<nat>, eventType: G.EventType, at: int, alertId: Option<nat>)

  datatype SecurityRow = SecurityRow(deviceId: nat, sessionId: Option<nat>, security: A.SecurityType, at: int)

  datatype ScanRow = ScanRow(deviceId: nat, sessionId: Option<nat>, at: int)

  datatype LocationRow = LocationRow(deviceId: nat, sessionId: Option<nat>, position: Position)

  datatype Fix = Fix(at: int, position: Position)

  /** The tables a push reads and writes. Positions are unique on (recorded_at, event_id). */
  datatype State = State(
    fleet: F.Db, commands: C.Table, alerts: A.Table,
    crossings: map<nat, CrossingRow>, securityEvents: map<nat, SecurityRow>, scans: map<nat, ScanRow>,
    locations: map<(int, nat), LocationRow>, last: map<nat, Fix>)

  /**
   * What surrounds a push: the server's clock and its tolerance, which events
   * fail to be processed, and whether a badge and its driver are still active.
   */
  datatype Env = Env(now: int, tolerance: int, fails: Event -> bool, valid: (nat, nat) -> bool)

  // ------------------------------------------------------------------------
  //  Order
  // ------------------------------------------------------------------------

  function Priority(kind: Kind): nat {
    match kind
    case Security => 0
    case Crossing => 1
    case BarcodeScan => 2
    case Location => 3
  }

  predicate Precedes(a: Event, b: Event) {
    Priority(a.kind) < Priority(b.kind) || (Priority(a.kind) == Priority(b.kind) && a.seqNo <= b.seqNo)
  }

  /** `Array.sort` is stable: an event goes behind those it does not precede strictly. */
  function Insert(e: Event, sorted: seq<Event>): (r: seq<Event>)
    ensures multiset(r) == multiset(sorted) + multiset{e}
  {
    if sorted == [] then [e]
    else if Precedes(e, sorted[0]) then [e] + sorted
    else
      assert sorted == [sorted[0]] + sorted[1..];
      [sorted[0]] + Insert(e, sorted[1..])
  }

  function Ordered(events: seq<Event>): (r: seq<Event>)
    ensures multiset(r) == multiset(events)
  {
    if events == [] then []
    else
      assert events == [events[0]] + events[1..];
      Insert(events[0], Ordered(events[1..]))
  }

  function OfKind(events: seq<Event>, location: bool): (r: seq<Event>)
    ensures forall e :: e in r <==> e in events && (e.kind == Location) == location
  {
    if events == [] then []
    else if (events[0].kind == Location) == location then [events[0]] + OfKind(events[1..], location)
    else OfKind(events[1..], location)
  }

  // ------------------------------------------------------------------------
  //  One event
  // ------------------------------------------------------------------------

  /** What the phone calls an exit is one; anything else is an entry. */
  function TransitionOf(e: Event): G.Transition {
    if e.crossing in {Some(G.ExitDepot), Some(G.AfterReturnExit)} then G.Exit else G.Enter
  }

  /** `handleGeofence`: the server decides, once per event id; a phone without a depot is ignored. */
  function Crossed(st: State, phone: Phone, e: Event): State {
    if e.id in st.crossings || phone.depot.None? then st
    else
      var crossing := G.Crossing(TransitionOf(e), e.at);
      var session := F.ActiveOf(st.fleet.sessions, phone.id);
      var decision := F.DecisionFor(st.fleet, phone.id, phone.depot.value, crossing);
      var key := Some(A.AfterReturnExit(session, phone.id));
      var alertId := if decision.alert then Some(A.RaisedId(st.alerts, phone.companyId, key)) else None;
      st.(alerts := if decision.alert then A.Raised(st.alerts, phone.companyId, key) else st.alerts,
          crossings := st.crossings[e.id := CrossingRow(phone.id, session, decision.eventType, e.at, alertId)],
          fleet := F.Crossed(st.fleet, phone.id, phone.depot.value, crossing))
  }

  function AddSecurity(rows: map<nat, SecurityRow>, id: nat, row: SecurityRow): map<nat, SecurityRow> {
    if id in rows then rows else rows[id := row]
  }

  function AddScan(rows: map<nat, ScanRow>, id: nat, row: ScanRow): map<nat, ScanRow> {
    if id in rows then rows else rows[id := row]
  }

  /** `handleSecurity`. */
  function Secured(st: State, phone: Phone, e: Event): State {
    if e.security.None? then st
    else
      var kind := e.security.value;
      st.(securityEvents := AddSecurity(st.securityEvents, e.id, SecurityRow(phone.id, e.sessionId, kind, e.at)),
          alerts := if kind.OtherSecurity? then st.alerts
                    else A.Raised(st.alerts, phone.companyId, Some(A.Security(phone.id, kind))))
  }

  /** The session an offline scan refers to must be revoked: still open on this phone, its badge or driver gone. */
  predicate MustRevoke(st: State, phone: Phone, e: Event, valid: (nat, nat) -> bool) {
    && e.sessionId.Some? && e.sessionId.value < |st.fleet.sessions|
    && var s := st.fleet.sessions[e.sessionId.value];
       s.deviceId == phone.id && s.status == F.Active && !valid(s.badgeId, s.userId)
  }

  function RevalidationLock(deviceId: nat, sessionId: nat): C.Request {
    C.Request(deviceId, C.LockDevice, Some(C.OfflineRevalidation(sessionId)), None, Some(100))
  }

  /** `handleOfflineScan`. */
  function Scanned(st: State, phone: Phone, e: Event, env: Env): State {
    var stored := st.(scans := AddScan(st.scans, e.id, ScanRow(phone.id, e.sessionId, e.at)));
    if !MustRevoke(st, phone, e, env.valid) then stored
    else
      var id := e.sessionId.value;
      stored.(
        fleet := F.EndedSession(st.fleet, id, F.OfflineRevalidationFailed, env.now),
        commands := C.Enqueued(st.commands, RevalidationLock(phone.id, id), env.now),
        alerts := A.Raised(st.alerts, phone.companyId, Some(A.OfflineRevalidation(id))))
  }

  /** `handleSingle`; a failing event writes nothing. */
  function Handled(st: State, phone: Phone, e: Event, env: Env): State {
    if env.fails(e) then st
    else match e.kind
      case Crossing => Crossed(st, phone, e)
      case Security => Secured(st, phone, e)
      case BarcodeScan => Scanned(st, phone, e, env)
      case Location => st
  }

  function HandledAll(st: State, phone: Phone, events: seq<Event>, env: Env): State
    decreases |events|
  {
    if events == [] then st else HandledAll(Handled(st, phone, events[0], env), phone, events[1..], env)
  }

  // ------------------------------------------------------------------------
  //  Positions
  // ------------------------------------------------------------------------

  function Located(events: seq<Event>): (r: seq<Event>)
    ensures forall e :: e in r <==> e in events && e.position.Some?
  {
    if events == [] then []
    else if events[0].position.Some? then [events[0]] + Located(events[1..])
    else Located(events[1..])
  }

  /** ON CONFLICT DO NOTHING. */
  function AddLocations(
    rows: map<(int, nat), LocationRow>, phone: Phone, session: Option<nat>, events: seq<Event>): map<(int, nat), LocationRow>
    requires forall e :: e in events ==> e.position.Some?
    decreases |events|
  {
    if events == [] then rows
    else
      var e := events[0];
      var row := LocationRow(phone.id, if e.sessionId.Some? then e.sessionId else session, e.position.value);
      AddLocations(if (e.at, e.id) in rows then rows else rows[(e.at, e.id) := row], phone, session, events[1..])
  }

  /** The reduction that keeps the later of two events, the second one on a tie. */
  function Latest(events: seq<Event>): (r: Event)
    requires events != []
    ensures r in events && forall e :: e in events ==> e.at <= r.at
  {
    var last := events[|events| - 1];
    if |events| == 1 then last
    else
      var earlier := Latest(events[..|events| - 1]);
      assert forall e :: e in events ==> e == last || e in events[..|events| - 1];
      if earlier.at > last.at then earlier else last
  }

  /** `insertLocations`. */
  function Positioned(st: State, phone: Phone, events: seq<Event>): State {
    var located := Located(events);
    if located == [] then st
    else
      var latest := Latest(located);
      st.(locations := AddLocations(st.locations, phone, F.ActiveOf(st.fleet.sessions, phone.id), located),
          alerts := if exists e :: e in located && e.mock
                    then A.Raised(st.alerts, phone.companyId, Some(A.MockLocation(phone.id))) else st.alerts,
          last := if phone.id in st.last && latest.at <= st.last[phone.id].at then st.last
                  else st.last[phone.id := Fix(latest.at, latest.position.value)])
  }

  /** `reportClockSkew`: some event is dated ahead of the server by more than the tolerance. */
  predicate Skewed(events: seq<Event>, env: Env) {
    exists e :: e in events && e.at - env.now > env.tolerance
  }

  function SkewReported(st: State, phone: Phone, events: seq<Event>, env: Env): State {
    if Skewed(events, env) then st.(alerts := A.Raised(st.alerts, phone.companyId, Some(A.ClockTampering(phone.id))))
    else st
  }

  /** `push`: the state it leaves. */
  function Pushed(st: State, phone: Phone, events: seq<Event>, env: Env): State {
    var ordered := Ordered(events);
    var handled := HandledAll(st, phone, OfKind(ordered, false), env);
    SkewReported(Positioned(handled, phone, OfKind(ordered, true)), phone, events, env)
  }

  function Ids(events: seq<Event>): (r: seq<nat>)
    ensures forall id :: id in r <==> exists e :: e in events && e.id == id
  {
    if events == [] then [] else [events[0].id] + Ids(events[1..])
  }

  /** The events whose processing fails, or those where it does not. */
  function Split(events: seq<Event>, env: Env, failing: bool): (r: seq<Event>)
    ensures forall e :: e in r <==> e in events && env.fails(e) == failing
  {
    if events == [] then []
    else if env.fails(events[0]) == failing then [events[0]] + Split(events[1..], env, failing)
    else Split(events[1..], env, failing)
  }

  function Acked(events: seq<Event>, env: Env): seq<nat> {
    var ordered := Ordered(events);
    Ids(Split(OfKind(ordered, false), env, false)) + Ids(Located(OfKind(ordered, true)))
  }

  function Rejected(events: seq<Event>, env: Env): seq<nat> {
    Ids(Split(OfKind(Ordered(events), false), env, true))
  }

  // ------------------------------------------------------------------------
  //  The service
  // ------------------------------------------------------------------------

  class SyncServer {
    const fleet: F.FleetServer
    const queue: C.CommandQueue
    const alerts: A.AlertService
    var crossings: map<nat, CrossingRow>
    var securityEvents: map<nat, SecurityRow>
    var scans: map<nat, ScanRow>
    var locations: map<(int, nat), LocationRow>
    var last: map<nat, Fix>

    constructor (fleet: F.FleetServer, queue: C.CommandQueue, alerts: A.AlertService)
      ensures this.fleet == fleet && this.queue == queue && this.alerts == alerts
      ensures crossings == map[] && securityEvents == map[] && scans == map[] && locations == map[] && last == map[]
    {
      this.fleet, this.queue, this.alerts := fleet, queue, alerts;
      crossings, securityEvents, scans, locations, last := map[], map[], map[], map[], map[];
    }

    function Snapshot(): State
      reads this, fleet, queue, alerts
    {
      State(fleet.Snapshot(), queue.rows, alerts.alerts, crossings, securityEvents, scans, locations, last)
    }

    method HandleGeofence(phone: Phone, e: Event)
      modifies this, fleet, alerts
      ensures Snapshot() == Crossed(old(Snapshot()), phone, e)
    {
      if e.id in crossings {
        return;
      }
      if phone.depot.None? {
        return;
      }
      var session := F.ActiveOf(fleet.sessions, phone.id);
      var crossing := G.Crossing(TransitionOf(e), e.at);
      var decision := F.DecisionFor(fleet.Snapshot(), phone.id, phone.depot.value, crossing);
      var alertId: Option<nat> := None;
      if decision.alert {
        var id := alerts.Raise(phone.companyId, Some(A.AfterReturnExit(session, phone.id)));
        alertId := Some(id);
      }
      crossings := crossings[e.id := CrossingRow(phone.id, session, decision.eventType, e.at, alertId)];
      var _ := fleet.Cross(phone.id, phone.depot.value, crossing);
    }

    method HandleSecurity(phone: Phone, e: Event)
      modifies this, alerts
      ensures Snapshot() == Secured(old(Snapshot()), phone, e)
    {
      if e.security.None? {
        return;
      }
      if e.id !in securityEvents {
        securityEvents := securityEvents[e.id := SecurityRow(phone.id, e.sessionId, e.security.value, e.at)];
      }
      if !e.security.value.OtherSecurity? {
        var _ := alerts.Raise(phone.companyId, Some(A.Security(phone.id, e.security.value)));
      }
    }

    method HandleOfflineScan(phone: Phone, e: Event, env: Env)
      modifies this, fleet, queue, alerts
      ensures Snapshot() == Scanned(old(Snapshot()), phone, e, env)
    {
      if e.id !in scans {
        scans := scans[e.id := ScanRow(phone.id, e.sessionId, e.at)];
      }
      if e.sessionId.None? || e.sessionId.value >= |fleet.sessions| {
        return;
      }
      var id := e.sessionId.value;
      var session := fleet.sessions[id];
      if session.deviceId != phone.id || session.status != F.Active {
        return;
      }
      if env.valid(session.badgeId, session.userId) {
        return;
      }
      var _ := fleet.End(id, F.OfflineRevalidationFailed, env.now);
      var _ := queue.Enqueue(RevalidationLock(phone.id, id), env.now);
      var _ := alerts.Raise(phone.companyId, Some(A.OfflineRevalidation(id)));
    }

    method HandleSingle(phone: Phone, e: Event, env: Env) returns (ok: bool)
      modifies this, fleet, queue, alerts
      ensures Snapshot() == Handled(old(Snapshot()), phone, e, env)
      ensures ok <==> !env.fails(e)
    {
      if env.fails(e) {
        return false;
      }
      ok := true;
      match e.kind
      case Crossing => HandleGeofence(phone, e);
      case Security => HandleSecurity(phone, e);
      case BarcodeScan => HandleOfflineScan(phone, e, env);
      case Location =>
    }

    /** The ids it returns are those of the events that carry coordinates. */
    method InsertLocations(phone: Phone, events: seq<Event>) returns (ids: seq<nat>)
      modifies this, alerts
      ensures Snapshot() == Positioned(old(Snapshot()), phone, events)
      ensures ids == Ids(Located(events))
    {
      hide AddLocations, Located, Latest, A.Raised;
      var rows, mocked := Collect(events);
      if rows == [] {
        return [];
      }
      locations := AddLocations(locations, phone, F.ActiveOf(fleet.sessions, phone.id), rows);
      if mocked {
        var _ := alerts.Raise(phone.companyId, Some(A.MockLocation(phone.id)));
      }
      var latest := Reduce(rows);
      if phone.id !in last || latest.at > last[phone.id].at {
        last := last[phone.id := Fix(latest.at, latest.position.value)];
      }
      ids := Ids(rows);
    }

    method ReportClockSkew(phone: Phone, events: seq<Event>, env: Env)
      modifies alerts
      ensures Snapshot() == SkewReported(old(Snapshot()), phone, events, env)
    {
      var skews := 0;
      for i := 0 to |events|
        invariant skews > 0 <==> Skewed(events[..i], env)
      {
        if events[i].at - env.now > env.tolerance {
          skews := skews + 1;
          assert events[i] in events[..i + 1];
        }
      }
      assert events[..|events|] == events;
      if skews == 0 {
        return;
      }
      var _ := alerts.Raise(phone.companyId, Some(A.ClockTampering(phone.id)));
    }

    /** `push`. */
    method Push(phone: Phone, events: seq<Event>, env: Env) returns (acked: seq<nat>, rejected: seq<nat>)
      modifies this, fleet, queue, alerts
      ensures Snapshot() == Pushed(old(Snapshot()), phone, events, env)
      ensures acked == Acked(events, env) && rejected == Rejected(events, env)
    {
      hide HandledAll, Positioned, SkewReported, Ordered, OfKind, Located, Split;
      var ordered := Ordered(events);
      var places := OfKind(ordered, true);
      var others := OfKind(ordered, false);
      acked, rejected := HandleOthers(phone, others, env);
      if |places| > 0 {
        var inserted := InsertLocations(phone, places);
        acked := acked + inserted;
      } else {
        NoPlaces(Snapshot(), phone);
      }
      ReportClockSkew(phone, events, env);
    }

    /** The loop of `push` over everything but positions; a failure does not stop it. */
    method HandleOthers(phone: Phone, others: seq<Event>, env: Env) returns (acked: seq<nat>, rejected: seq<nat>)
      modifies this, fleet, queue, alerts
      ensures Snapshot() == HandledAll(old(Snapshot()), phone, others, env)
      ensures acked == Ids(Split(others, env, false)) && rejected == Ids(Split(others, env, true))
    {
      hide Handled, HandledAll, Ids, Split;
      acked, rejected := [], [];
      ghost var before := Snapshot();
      for i := 0 to |others|
        invariant HandledAll(Snapshot(), phone, others[i..], env) == HandledAll(before, phone, others, env)
        invariant acked + Ids(Split(others[i..], env, false)) == Ids(Split(others, env, false))
        invariant rejected + Ids(Split(others[i..], env, true)) == Ids(Split(others, env, true))
      {
        NextAnswer(others, i, env, false);
        NextAnswer(others, i, env, true);
        NextHandled(Snapshot(), phone, others, i, env);
        var ok := HandleSingle(phone, others[i], env);
        if ok {
          acked := acked + [others[i].id];
        } else {
          rejected := rejected + [others[i].id];
        }
      }
      NothingLeft(Snapshot(), phone, env);
    }
  }

  lemma NextAnswer(events: seq<Event>, i: nat, env: Env, failing: bool)
    requires i < |events|
    ensures Ids(Split(events[i..], env, failing)) ==
      (if env.fails(events[i]) == failing then [events[i].id] else []) + Ids(Split(events[i + 1..], env, failing))
  {
  }

  lemma NextHandled(st: State, phone: Phone, events: seq<Event>, i: nat, env: Env)
    requires i < |events|
    ensures HandledAll(st, phone, events[i..], env) ==
      HandledAll(Handled(st, phone, events[i], env), phone, events[i + 1..], env)
  {
  }

  lemma NothingLeft(st: State, phone: Phone, env: Env)
    ensures HandledAll(st, phone, [], env) == st
    ensures Ids(Split([], env, true)) == Ids(Split([], env, false)) == []
  {
  }

  lemma NoPlaces(st: State, phone: Phone)
    ensures Positioned(st, phone, []) == st
  {
  }

  /** The rows `insertLocations` builds, and whether one of them is a simulated position. */
  method Collect(events: seq<Event>) returns (rows: seq<Event>, mocked: bool)
    ensures rows == Located(events)
    ensures mocked <==> exists e :: e in rows && e.mock
  {
    rows, mocked := [], false;
    for i := 0 to |events|
      invariant rows + Located(events[i..]) == Located(events)
      invariant mocked <==> exists e :: e in rows && e.mock
    {
      assert events[i..][1..] == events[i + 1..];
      if events[i].position.Some? {
        rows := rows + [events[i]];
        mocked := mocked || events[i].mock;
      }
    }
  }

  /** The reduction of `insertLocations`. */
  method Reduce(rows: seq<Event>) returns (latest: Event)
    requires rows != []
    ensures latest == Latest(rows)
  {
    latest := rows[0];
    for i := 1 to |rows|
      invariant latest == Latest(rows[..i])
    {
      assert rows[..i + 1][..i] == rows[..i];
      latest := if latest.at > rows[i].at then latest else rows[i];
    }
    assert rows[..|rows|] == rows;
  }
}
