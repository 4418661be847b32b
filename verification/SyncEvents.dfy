/**
 * What each event of a batch leaves behind, in the phone's own terms
 * (apps/api/src/sync/sync.service.ts).
 */
module SyncEvents {
  import opened Wrappers
  import opened Sync
  import opened SyncProofs
  import S = Schedule
  import G = Geofence
  import C = Commands
  import A = Alerts
  import F = Fleet

  // ------------------------------------------------------------------------
  //  Order
  // ------------------------------------------------------------------------

  /** Security events go before crossings, those before scans, those before positions. */
  predicate GoesBefore(a: Kind, b: Kind) {
    match a
    case Security => b != Security
    case Crossing => b == BarcodeScan || b == Location
    case BarcodeScan => b == Location
    case Location => false
  }

  /** The events of one kind with one sequence number, as they come. */
  function OfSort(events: seq<Event>, kind: Kind, seqNo: int): seq<Event> {
    if events == [] then []
    else
      var first := if events[0].kind == kind && events[0].seqNo == seqNo then [events[0]] else [];
      first + OfSort(events[1..], kind, seqNo)
  }

  lemma {:induction false} SortsAreTied(events: seq<Event>, kind: Kind, seqNo: int)
    ensures OfSort(events, kind, seqNo) == Tied(events, Priority(kind), seqNo)
  {
    if events != [] {
      SortsAreTied(events[1..], kind, seqNo);
    }
  }

  /**
   * A batch is treated kind by kind, each kind by sequence number, and events of a kind
   * with the same number in the order they came.
   */
  lemma TreatedKindByKind(events: seq<Event>, kind: Kind, seqNo: int)
    ensures var ordered := Ordered(events);
      && multiset(ordered) == multiset(events)
      && OfSort(ordered, kind, seqNo) == OfSort(events, kind, seqNo)
      && forall i, j :: 0 <= i < j < |ordered| ==>
           && !GoesBefore(ordered[j].kind, ordered[i].kind)
           && (ordered[i].kind == ordered[j].kind ==> ordered[i].seqNo <= ordered[j].seqNo)
  {
    TreatedInOrder(events, Priority(kind), seqNo);
    SortsAreTied(events, kind, seqNo);
    SortsAreTied(Ordered(events), kind, seqNo);
    hide Ordered, Tied, OfSort;
  }

  /** The latest position is the last one to come among those of the latest date. */
  lemma {:induction false} LatestIsTheLastToCome(events: seq<Event>) returns (i: nat)
    requires events != []
    ensures i < |events| && Latest(events) == events[i]
    ensures forall j :: 0 <= j < |events| ==> events[j].at <= events[i].at
    ensures forall j :: i < j < |events| ==> events[j].at < events[i].at
  {
    var last := |events| - 1;
    if last == 0 {
      i := 0;
    } else {
      i := LatestIsTheLastToCome(events[..last]);
      if events[last].at >= events[i].at {
        i := last;
      }
    }
  }

  // ------------------------------------------------------------------------
  //  Crossings
  // ------------------------------------------------------------------------

  predicate OpenOn(st: State, deviceId: nat, id: nat) {
    id < |st.fleet.sessions| && st.fleet.sessions[id].status == F.Active && st.fleet.sessions[id].deviceId == deviceId
  }

  /** The one open session of the phone, or none. */
  ghost predicate OpenSession(st: State, deviceId: nat, open: Option<nat>) {
    match open
    case Some(id) => OpenOn(st, deviceId, id) && forall other: nat :: OpenOn(st, deviceId, other) ==> other == id
    case None => forall id: nat :: !OpenOn(st, deviceId, id)
  }

  /** The phone calls it an exit. */
  predicate CalledExit(e: Event) {
    e.crossing == Some(G.ExitDepot) || e.crossing == Some(G.AfterReturnExit)
  }

  /** A crossing not stored yet, of a phone with a depot. */
  predicate NewCrossing(st: State, phone: Phone, e: Event, env: Env) {
    e.kind == Crossing && !env.fails(e) && e.id !in st.crossings && phone.depot.Some?
  }

  predicate Back(st: State, open: Option<nat>) {
    open.Some? && open.value < |st.fleet.sessions| && st.fleet.sessions[open.value].state == G.Returned
  }

  lemma ActiveIsOpen(st: State, deviceId: nat, open: Option<nat>)
    requires OpenSession(st, deviceId, open)
    ensures F.ActiveOf(st.fleet.sessions, deviceId) == open
  {
    var found := F.ActiveOf(st.fleet.sessions, deviceId);
    assert open.Some? ==> F.Selects(F.OfDevice(deviceId), open.value, st.fleet.sessions[open.value]);
    assert found.Some? ==> OpenOn(st, deviceId, found.value);
  }

  /**
   * An exit from a depot the session has returned to raises the alert of the session
   * and puts session and phone on tour again; any other exit changes neither.
   */
  lemma ExitExactly(st: State, phone: Phone, e: Event, env: Env, open: Option<nat>)
    requires NewCrossing(st, phone, e, env) && CalledExit(e) && OpenSession(st, phone.id, open)
    ensures var after := Handled(st, phone, e, env);
      var key := A.AfterReturnExit(open, phone.id);
      && after == st.(fleet := after.fleet, alerts := after.alerts, crossings := after.crossings)
      && (if Back(st, open) then
            && after.fleet.sessions == st.fleet.sessions[open.value := st.fleet.sessions[open.value].(state := G.OnTour)]
            && (phone.id in st.fleet.devices ==> after.fleet.devices[phone.id].state == F.InUse)
            && (exists id: nat :: A.OpenWith(after.alerts, id, phone.companyId, key)
                  && after.crossings == st.crossings[e.id := CrossingRow(phone.id, open, G.AfterReturnExit, e.at, Some(id))])
            && after.alerts in {st.alerts, st.alerts + [A.Alert(phone.companyId, Some(key), A.Open)]}
          else
            && after.alerts == st.alerts && after.fleet.sessions == st.fleet.sessions
            && (open.Some? && phone.id in st.fleet.devices ==> after.fleet.devices[phone.id].state == F.InUse)
            && after.crossings == st.crossings[e.id := CrossingRow(phone.id, open, G.ExitDepot, e.at, None)])
      && (open.None? ==> after.fleet == st.fleet)
      && after.fleet.devices.Keys == st.fleet.devices.Keys
      && (forall d :: d in st.fleet.devices && d != phone.id ==> after.fleet.devices[d] == st.fleet.devices[d])
  {
    hide A.FindOpen, F.ActiveOf;
    ActiveIsOpen(st, phone.id, open);
    A.RaiseIsIdempotent(st.alerts, phone.companyId, A.AfterReturnExit(open, phone.id));
    hide S.IsAfterReturnTime;
  }

  /**
   * An entry past return time leaves session and phone RETURNED, dated by the first
   * such entry; an earlier one changes neither. No entry raises an alert.
   */
  lemma EntryExactly(st: State, phone: Phone, e: Event, env: Env, open: Option<nat>)
    requires NewCrossing(st, phone, e, env) && !CalledExit(e) && OpenSession(st, phone.id, open)
    ensures var after := Handled(st, phone, e, env);
      var late := S.IsAfterReturnTime(phone.depot.value, e.at);
      && after == st.(fleet := after.fleet, crossings := after.crossings)
      && after.crossings == st.crossings[e.id :=
           CrossingRow(phone.id, open, if late then G.EnterAfterReturnTime else G.EnterDepot, e.at, None)]
      && (open.None? ==> after.fleet == st.fleet)
      && (open.Some? ==>
            var s := st.fleet.sessions[open.value];
            && after.fleet.sessions == (
                 if late && s.state != G.Returned
                 then st.fleet.sessions[open.value := s.(state := G.Returned, returnedAt := Some(e.at))]
                 else st.fleet.sessions)
            && (phone.id in st.fleet.devices ==>
                  after.fleet.devices[phone.id].state ==
                    if late || s.state == G.Returned then F.BackAtDepot else F.InUse))
      && after.fleet.devices.Keys == st.fleet.devices.Keys
      && (forall d :: d in st.fleet.devices && d != phone.id ==> after.fleet.devices[d] == st.fleet.devices[d])
  {
    hide A.FindOpen, F.ActiveOf;
    ActiveIsOpen(st, phone.id, open);
    hide S.IsAfterReturnTime;
  }

  predicate IsExit(t: G.EventType) {
    t in {G.ExitDepot, G.AfterReturnExit}
  }

  /** The row of a crossing bears the phone's word on the way it went, its date and its phone. */
  predicate AsCalled(row: CrossingRow, phone: Phone, e: Event) {
    row.deviceId == phone.id && row.at == e.at && (IsExit(row.eventType) <==> CalledExit(e))
  }

  lemma HandledIsAsCalled(st: State, phone: Phone, e: Event, env: Env)
    requires NewCrossing(st, phone, e, env)
    ensures var after := Handled(st, phone, e, env); e.id in after.crossings && AsCalled(after.crossings[e.id], phone, e)
  {
    hide A.Raised, F.Crossed, S.IsAfterReturnTime;
  }

  lemma OthersStoreElsewhere(st: State, phone: Phone, e: Event, env: Env, id: nat)
    requires e.id != id || e.kind != Crossing
    ensures id in Handled(st, phone, e, env).crossings <==> id in st.crossings
  {
    hide A.Raised, F.Crossed, F.DecisionFor, C.Enqueued, F.EndedSession;
  }

  lemma {:induction false} AllHandledAsCalled(st: State, phone: Phone, events: seq<Event>, env: Env, e: Event)
    requires DistinctIds(events) && e in events && NewCrossing(st, phone, e, env)
    ensures var after := HandledAll(st, phone, events, env);
      e.id in after.crossings && AsCalled(after.crossings[e.id], phone, e)
    decreases |events|
  {
    hide Handled, AsCalled, Grows;
    var next := Handled(st, phone, events[0], env);
    if events[0] == e {
      HandledIsAsCalled(st, phone, e, env);
      HandledAllGrows(next, phone, events[1..], env);
      CrossingsStay(next, HandledAll(next, phone, events[1..], env), e.id);
    } else {
      assert events[0] in events;
      OthersStoreElsewhere(st, phone, events[0], env, e.id);
      AllHandledAsCalled(next, phone, events[1..], env, e);
    }
  }

  lemma CrossingsStay(a: State, b: State, id: nat)
    requires Grows(a, b) && id in a.crossings
    ensures id in b.crossings && b.crossings[id] == a.crossings[id]
  {
  }

  lemma InGroup(events: seq<Event>, location: bool)
    ensures forall e :: e in OfKind(Ordered(events), location) <==> e in events && (e.kind == Location) == location
  {
    assert forall e :: e in Ordered(events) <==> e in multiset(Ordered(events));
    assert forall e :: e in events <==> e in multiset(events);
  }

  /** Whatever else the batch holds: each new crossing is stored as the exit, or the entry, that the phone called it. */
  lemma PushStoresCrossingsAsCalled(st: State, phone: Phone, events: seq<Event>, env: Env, e: Event)
    requires DistinctIds(events) && e in events && NewCrossing(st, phone, e, env)
    ensures var after := Pushed(st, phone, events, env);
      e.id in after.crossings && AsCalled(after.crossings[e.id], phone, e)
  {
    hide HandledAll, Positioned, Skewed, A.Raised, AsCalled, Grows;
    var others := OfKind(Ordered(events), false);
    InGroup(events, false);
    AllHandledAsCalled(st, phone, others, env, e);
    var handled := HandledAll(st, phone, others, env);
    PositionedGrows(handled, phone, OfKind(Ordered(events), true));
    CrossingsStay(handled, Positioned(handled, phone, OfKind(Ordered(events), true)), e.id);
  }

  // ------------------------------------------------------------------------
  //  Security events and scans
  // ------------------------------------------------------------------------

  /** The kinds of security event that raise an alert. */
  predicate Critical(kind: A.SecurityType) {
    kind in {A.RootDetected, A.DeviceOwnerLost, A.AppIntegrityFailed, A.ClockTampered, A.KioskExitAttempt}
  }

  /** A security event is stored once, and a critical one has an open alert of its own key; nothing else is touched. */
  lemma SecurityExactly(st: State, phone: Phone, e: Event, env: Env)
    requires e.kind == Security && !env.fails(e) && e.security.Some?
    ensures var after, kind := Handled(st, phone, e, env), e.security.value;
      var key := A.Security(phone.id, kind);
      && after == st.(securityEvents := after.securityEvents, alerts := after.alerts)
      && after.securityEvents == (if e.id in st.securityEvents then st.securityEvents
                                  else st.securityEvents[e.id := SecurityRow(phone.id, e.sessionId, kind, e.at)])
      && (Critical(kind) ==> HasOpen(after.alerts, phone.companyId, key))
      && after.alerts == (if Critical(kind) && !HasOpen(st.alerts, phone.companyId, key)
                          then st.alerts + [A.Alert(phone.companyId, Some(key), A.Open)] else st.alerts)
  {
    RaisedUnchanged(st.alerts, phone.companyId, A.Security(phone.id, e.security.value));
  }

  /** The session a scan names is open on this phone, and its badge or its driver is no longer valid. */
  predicate Invalidated(st: State, phone: Phone, e: Event, env: Env) {
    e.sessionId.Some? && OpenOn(st, phone.id, e.sessionId.value) &&
    var s := st.fleet.sessions[e.sessionId.value];
    !env.valid(s.badgeId, s.userId)
  }

  /** A command carries the key of the revalidation of a session: if new, an urgent lock, for twelve hours. */
  predicate LockOrdered(before: C.Table, after: C.Table, deviceId: nat, sessionId: nat, now: int) {
    || (after == before && exists id: nat :: id < |before| && before[id].deviceId == deviceId
                            && before[id].key == Some(C.OfflineRevalidation(sessionId)))
    || after == before + [C.Command(deviceId, C.LockDevice, Some(C.OfflineRevalidation(sessionId)), 100,
                                    now, now + 43_200_000, C.Pending, 0)]
  }

  /**
   * A scan is stored once. If the session it names is invalidated, that session ends
   * for that reason, its phone is locked and ordered to lock, and an alert is open;
   * otherwise nothing else is touched.
   */
  lemma ScanExactly(st: State, phone: Phone, e: Event, env: Env)
    requires e.kind == BarcodeScan && !env.fails(e)
    ensures var after := Handled(st, phone, e, env);
      && after == st.(scans := after.scans, fleet := after.fleet, commands := after.commands, alerts := after.alerts)
      && after.scans == (if e.id in st.scans then st.scans else st.scans[e.id := ScanRow(phone.id, e.sessionId, e.at)])
      && (!Invalidated(st, phone, e, env) ==> after == st.(scans := after.scans))
      && (Invalidated(st, phone, e, env) ==>
            var id := e.sessionId.value;
            && after.fleet.sessions == st.fleet.sessions[id := st.fleet.sessions[id].(
                 status := F.Ended, endedAt := Some(env.now), endReason := Some(F.OfflineRevalidationFailed))]
            && after.fleet.devices.Keys == st.fleet.devices.Keys
            && (forall d :: d in st.fleet.devices ==>
                  after.fleet.devices[d] ==
                    if d == phone.id then st.fleet.devices[d].(state := F.Locked) else st.fleet.devices[d])
            && LockOrdered(st.commands, after.commands, phone.id, id, env.now)
            && HasOpen(after.alerts, phone.companyId, A.OfflineRevalidation(id)))
  {
    if MustRevoke(st, phone, e, env.valid) {
      var id := e.sessionId.value;
      RaisedUnchanged(st.alerts, phone.companyId, A.OfflineRevalidation(id));
      OrdersALock(st.commands, phone.id, id, env.now);
      hide C.Enqueued, A.Raised;
    }
  }

  lemma OrdersALock(commands: C.Table, deviceId: nat, sessionId: nat, now: int)
    ensures var after := C.Enqueued(commands, RevalidationLock(deviceId, sessionId), now);
      LockOrdered(commands, after, deviceId, sessionId, now)
  {
    var key := C.OfflineRevalidation(sessionId);
    var found := C.FindKey(commands, deviceId, key);
    if found.Some? {
      assert C.Holds(commands, found.value, deviceId, key);
    }
  }

  // ------------------------------------------------------------------------
  //  Positions
  // ------------------------------------------------------------------------

  /** A position with coordinates whose date and id no other event of the batch shares, nor any row. */
  ghost predicate NewPlace(st: State, events: seq<Event>, e: Event) {
    && e in events && e.kind == Location && e.position.Some? && (e.at, e.id) !in st.locations
    && forall f :: f in events && f.id == e.id ==> f == e
  }

  lemma {:induction false} AddedPlace(
    rows: map<(int, nat), LocationRow>, phone: Phone, session: Option<nat>, events: seq<Event>, e: Event)
    requires forall f :: f in events ==> f.position.Some?
    requires e in events && (e.at, e.id) !in rows && forall f :: f in events && f.id == e.id ==> f == e
    ensures var after := AddLocations(rows, phone, session, events);
      && (e.at, e.id) in after
      && after[(e.at, e.id)] ==
           LocationRow(phone.id, if e.sessionId.Some? then e.sessionId else session, e.position.value)
    decreases |events|
  {
    var first := events[0];
    var row := LocationRow(phone.id, if first.sessionId.Some? then first.sessionId else session, first.position.value);
    var next := if (first.at, first.id) in rows then rows else rows[(first.at, first.id) := row];
    if first == e {
      AddLocationsKeeps(next, phone, session, events[1..]);
    } else {
      assert first in events;
      AddedPlace(next, phone, session, events[1..], e);
    }
  }

  lemma {:induction false} HandlingKeepsPlaces(st: State, phone: Phone, events: seq<Event>, env: Env)
    ensures HandledAll(st, phone, events, env).locations == st.locations
    decreases |events|
  {
    if events != [] {
      HandlesNoPlace(st, phone, events[0], env);
      hide Handled;
      HandlingKeepsPlaces(Handled(st, phone, events[0], env), phone, events[1..], env);
    }
  }

  lemma HandlesNoPlace(st: State, phone: Phone, e: Event, env: Env)
    ensures Handled(st, phone, e, env).locations == st.locations
  {
    hide A.Raised, F.Crossed, F.DecisionFor, C.Enqueued, F.EndedSession;
  }

  /** Each new position is stored with its phone and coordinates, under its own session if it names one. */
  lemma PushStoresPlaces(st: State, phone: Phone, events: seq<Event>, env: Env, e: Event)
    requires NewPlace(st, events, e)
    ensures var after := Pushed(st, phone, events, env);
      && (e.at, e.id) in after.locations
      && after.locations[(e.at, e.id)].deviceId == phone.id
      && after.locations[(e.at, e.id)].position == e.position.value
      && (e.sessionId.Some? ==> after.locations[(e.at, e.id)].sessionId == e.sessionId)
  {
    var others, places := OfKind(Ordered(events), false), OfKind(Ordered(events), true);
    InGroup(events, true);
    HandlingKeepsPlaces(st, phone, others, env);
    var handled := HandledAll(st, phone, others, env);
    assert e in Located(places);
    AddedPlace(handled.locations, phone, F.ActiveOf(handled.fleet.sessions, phone.id), Located(places), e);
    hide HandledAll, AddLocations, Ordered, OfKind, Located, Latest, Skewed, A.Raised, F.ActiveOf;
  }

  // ------------------------------------------------------------------------
  //  The alerts of a push
  // ------------------------------------------------------------------------

  /** What in the batch justifies an alert of that key. */
  ghost predicate Justified(phone: Phone, events: seq<Event>, env: Env, key: A.DedupeKey) {
    match key
    case AfterReturnExit(_, d) => d == phone.id && exists e :: e in events && e.kind == Crossing && CalledExit(e)
    case Security(d, kind) =>
      d == phone.id && Critical(kind) && exists e :: e in events && e.kind == Security && e.security == Some(kind)
    case OfflineRevalidation(id) => exists e :: e in events && e.kind == BarcodeScan && e.sessionId == Some(id)
    case MockLocation(d) => d == phone.id && exists e :: e in events && e.kind == Location && e.position.Some? && e.mock
    case ClockTampering(d) => d == phone.id && exists e :: e in events && e.at > env.now + env.tolerance
    case CustomKey(_) => false
  }

  /** The alerts added are the company's, open, and each is justified. */
  ghost predicate AddsJustified(a: A.Table, b: A.Table, phone: Phone, events: seq<Event>, env: Env) {
    && a <= b
    && forall i :: |a| <= i < |b| ==>
         && b[i].companyId == phone.companyId && b[i].status == A.Open && b[i].key.Some?
         && Justified(phone, events, env, b[i].key.value)
  }

  lemma RaisingIsJustified(a: A.Table, phone: Phone, events: seq<Event>, env: Env, key: A.DedupeKey)
    requires Justified(phone, events, env, key)
    ensures AddsJustified(a, A.Raised(a, phone.companyId, Some(key)), phone, events, env)
  {
    hide Justified;
  }

  lemma NothingAdded(a: A.Table, phone: Phone, events: seq<Event>, env: Env)
    ensures AddsJustified(a, a, phone, events, env)
  {
  }

  lemma JustifiedOn(a: A.Table, b: A.Table, c: A.Table, phone: Phone, events: seq<Event>, env: Env)
    requires AddsJustified(a, b, phone, events, env) && AddsJustified(b, c, phone, events, env)
    ensures AddsJustified(a, c, phone, events, env)
  {
    hide Justified;
  }

  lemma HandledIsJustified(st: State, phone: Phone, e: Event, env: Env, events: seq<Event>)
    requires e in events
    ensures AddsJustified(st.alerts, Handled(st, phone, e, env).alerts, phone, events, env)
  {
    NothingAdded(st.alerts, phone, events, env);
    if !env.fails(e) {
      match e.kind
      case Crossing => CrossingIsJustified(st, phone, e, env, events);
      case Security =>
        if e.security.Some? && !e.security.value.OtherSecurity? {
          RaisingIsJustified(st.alerts, phone, events, env, A.Security(phone.id, e.security.value));
        }
      case BarcodeScan =>
        if e.sessionId.Some? {
          RaisingIsJustified(st.alerts, phone, events, env, A.OfflineRevalidation(e.sessionId.value));
        }
      case Location =>
    }
    hide A.Raised, AddsJustified, F.Crossed, F.DecisionFor, C.Enqueued, F.EndedSession, Justified;
  }

  lemma CrossingIsJustified(st: State, phone: Phone, e: Event, env: Env, events: seq<Event>)
    requires e in events && e.kind == Crossing
    ensures AddsJustified(st.alerts, Crossed(st, phone, e).alerts, phone, events, env)
  {
    NothingAdded(st.alerts, phone, events, env);
    var key := A.AfterReturnExit(F.ActiveOf(st.fleet.sessions, phone.id), phone.id);
    if CalledExit(e) {
      RaisingIsJustified(st.alerts, phone, events, env, key);
    }
    hide A.Raised, AddsJustified, F.Crossed, S.IsAfterReturnTime, Justified, F.ActiveOf;
  }

  lemma {:induction false} AllHandledIsJustified(st: State, phone: Phone, some: seq<Event>, env: Env, events: seq<Event>)
    requires forall e :: e in some ==> e in events
    ensures AddsJustified(st.alerts, HandledAll(st, phone, some, env).alerts, phone, events, env)
    decreases |some|
  {
    hide Handled, AddsJustified;
    if some == [] {
      NothingAdded(st.alerts, phone, events, env);
    } else {
      var next := Handled(st, phone, some[0], env);
      assert some[0] in some;
      HandledIsJustified(st, phone, some[0], env, events);
      AllHandledIsJustified(next, phone, some[1..], env, events);
      JustifiedOn(st.alerts, next.alerts, HandledAll(next, phone, some[1..], env).alerts, phone, events, env);
    }
  }

  /** Every alert a push adds is justified by the batch; simulated positions and clocks ahead always have one open. */
  lemma PushAlertsAreJustified(st: State, phone: Phone, events: seq<Event>, env: Env)
    ensures AddsJustified(st.alerts, Pushed(st, phone, events, env).alerts, phone, events, env)
    ensures Justified(phone, events, env, A.MockLocation(phone.id)) ==>
      HasOpen(Pushed(st, phone, events, env).alerts, phone.companyId, A.MockLocation(phone.id))
    ensures Justified(phone, events, env, A.ClockTampering(phone.id)) ==>
      HasOpen(Pushed(st, phone, events, env).alerts, phone.companyId, A.ClockTampering(phone.id))
  {
    var others, places := OfKind(Ordered(events), false), OfKind(Ordered(events), true);
    InGroup(events, false);
    InGroup(events, true);
    AllHandledIsJustified(st, phone, others, env, events);
    var handled := HandledAll(st, phone, others, env);
    var placed := Positioned(handled, phone, places);
    MockIsJustified(handled, phone, events, env);
    SkewIsJustified(placed, phone, events, env);
    hide HandledAll, Positioned, Skewed, AddsJustified, Justified, OfKind, Ordered;
    JustifiedOn(st.alerts, handled.alerts, placed.alerts, phone, events, env);
    var after := SkewReported(placed, phone, events, env);
    JustifiedOn(st.alerts, placed.alerts, after.alerts, phone, events, env);
    RaisedGrows(placed.alerts, phone.companyId, Some(A.ClockTampering(phone.id)));
    if HasOpen(placed.alerts, phone.companyId, A.MockLocation(phone.id)) {
      StaysOpen(placed.alerts, after.alerts, phone.companyId, A.MockLocation(phone.id));
    }
  }

  lemma MockIsJustified(st: State, phone: Phone, events: seq<Event>, env: Env)
    ensures var after := Positioned(st, phone, OfKind(Ordered(events), true)).alerts;
      && AddsJustified(st.alerts, after, phone, events, env)
      && (Justified(phone, events, env, A.MockLocation(phone.id)) ==>
            HasOpen(after, phone.companyId, A.MockLocation(phone.id)))
  {
    var places := OfKind(Ordered(events), true);
    InGroup(events, true);
    NothingAdded(st.alerts, phone, events, env);
    RaisedUnchanged(st.alerts, phone.companyId, A.MockLocation(phone.id));
    assert Justified(phone, events, env, A.MockLocation(phone.id)) <==> exists e :: e in Located(places) && e.mock;
    MockRaises(st, phone, places);
    hide Positioned, Justified, AddsJustified, A.Raised, HasOpen, Ordered, OfKind;
    if Justified(phone, events, env, A.MockLocation(phone.id)) {
      RaisingIsJustified(st.alerts, phone, events, env, A.MockLocation(phone.id));
    }
  }

  lemma MockRaises(st: State, phone: Phone, places: seq<Event>)
    ensures Positioned(st, phone, places).alerts ==
      if exists e :: e in Located(places) && e.mock
      then A.Raised(st.alerts, phone.companyId, Some(A.MockLocation(phone.id))) else st.alerts
  {
    hide AddLocations, Latest, A.Raised, F.ActiveOf;
  }

  lemma SkewIsJustified(st: State, phone: Phone, events: seq<Event>, env: Env)
    ensures var after := SkewReported(st, phone, events, env).alerts;
      && AddsJustified(st.alerts, after, phone, events, env)
      && (Justified(phone, events, env, A.ClockTampering(phone.id)) ==>
            HasOpen(after, phone.companyId, A.ClockTampering(phone.id)))
  {
    NothingAdded(st.alerts, phone, events, env);
    RaisedUnchanged(st.alerts, phone.companyId, A.ClockTampering(phone.id));
    if Skewed(events, env) {
      RaisingIsJustified(st.alerts, phone, events, env, A.ClockTampering(phone.id));
    }
    hide A.Raised, AddsJustified;
  }
}
