/** What every transaction keeps of sessions and phones, over any run. */
module FleetRuns {
  import opened Wrappers
  import S = Schedule
  import opened Fleet
  import G = Geofence
  import C = Commands

  /** The calls that touch sessions or phones, in any order. */
  datatype Call =
    | ScanCall(deviceId: nat, userId: nat, badgeId: nat, now: int, expiresAt: int)
    | EndCall(id: nat, reason: EndReason, now: int)
    | ExpireCall(now: int)
    | EffectsCall(deviceId: nat, kind: C.CommandKind, now: int)
    | CrossCall(deviceId: nat, schedule: S.DepotSchedule, crossing: G.Crossing)
    | EnrollCall(deviceId: nat, companyId: nat)
    | RevokeCall(deviceId: nat)

  function Apply(db: Db, call: Call): Db {
    match call
    case ScanCall(d, u, b, now, e) => if d in db.devices then Opened(db, d, u, b, now, e) else db
    case EndCall(id, reason, now) => EndedSession(db, id, reason, now)
    case ExpireCall(now) => ExpiredOverdue(db, now)
    case EffectsCall(d, kind, now) => WithEffects(db, d, kind, now)
    case CrossCall(d, s, c) => Crossed(db, d, s, c)
    case EnrollCall(d, company) => EnrolledDevice(db, d, company)
    case RevokeCall(d) => RevokedDevice(db, d)
  }

  function Run(db: Db, calls: seq<Call>): Db
    decreases |calls|
  {
    if calls == [] then db else Run(Apply(db, calls[0]), calls[1..])
  }

  // ------------------------------------------------------------------------
  //  The invariant
  // ------------------------------------------------------------------------

  predicate IsActive(sessions: seq<Session>, id: int) {
    0 <= id < |sessions| && sessions[id].status == Active
  }

  ghost predicate OnePerDevice(sessions: seq<Session>) {
    forall a, b :: IsActive(sessions, a) && IsActive(sessions, b) && sessions[a].deviceId == sessions[b].deviceId ==> a == b
  }

  ghost predicate OnePerUser(sessions: seq<Session>) {
    forall a, b :: IsActive(sessions, a) && IsActive(sessions, b) && sessions[a].userId == sessions[b].userId ==> a == b
  }

  /** A phone shown as in use or back at the depot shows the state of its session. */
  predicate Agrees(s: Session, devices: map<nat, Device>) {
    s.deviceId in devices && devices[s.deviceId].state in {InUse, BackAtDepot} ==>
      devices[s.deviceId].state == DeviceStateOf(s.state)
  }

  ghost predicate Agreement(db: Db) {
    forall id :: IsActive(db.sessions, id) ==> Agrees(db.sessions[id], db.devices)
  }

  ghost predicate Inv(db: Db) {
    OnePerDevice(db.sessions) && OnePerUser(db.sessions) && Agreement(db)
  }

  /** A closed session is frozen; an open one keeps its driver, phone, badge and deadline. */
  predicate Follows(before: Session, after: Session) {
    && (before.status != Active ==> after == before)
    && after.userId == before.userId && after.deviceId == before.deviceId && after.badgeId == before.badgeId
    && after.expiresAt == before.expiresAt
    && (after.status != Active ==> after.endedAt.Some? == (before.status == Active || before.endedAt.Some?))
  }

  ghost predicate History(before: seq<Session>, after: seq<Session>) {
    |before| <= |after| && forall id :: 0 <= id < |before| ==> Follows(before[id], after[id])
  }

  // ------------------------------------------------------------------------
  //  What each transaction does
  // ------------------------------------------------------------------------

  /**
   * A scan: the new session is the only open one of its driver and of its phone;
   * exactly their open sessions were closed, by it, and nobody else's changed.
   */
  lemma ScanReplaces(db: Db, deviceId: nat, userId: nat, badgeId: nat, now: int, expiresAt: int)
    ensures var after := Opened(db, deviceId, userId, badgeId, now, expiresAt);
      var n := |db.sessions|;
      && |after.sessions| == n + 1
      && IsActive(after.sessions, n) && after.sessions[n].userId == userId && after.sessions[n].deviceId == deviceId
      && after.sessions[n].state == G.OnTour && after.sessions[n].expiresAt == expiresAt
      && (forall id :: 0 <= id < n ==>
            var was := db.sessions[id];
            after.sessions[id] ==
              if was.status == Active && (was.deviceId == deviceId || was.userId == userId)
              then was.(status := Ended, endedAt := Some(now), endReason := Some(NewSession)) else was)
      && (forall id :: IsActive(after.sessions, id) && id != n ==>
            after.sessions[id].deviceId != deviceId && after.sessions[id].userId != userId)
      && after.devices.Keys == db.devices.Keys
      && (forall d :: d in db.devices ==>
            after.devices[d] == if d == deviceId then db.devices[d].(state := InUse) else db.devices[d])
  {
  }

  /** Expiry: exactly the overdue open sessions expire, and exactly their phones are sent to lock. */
  lemma ExpiryIsExact(db: Db, now: int)
    ensures var after := ExpiredOverdue(db, now);
      && |after.sessions| == |db.sessions| && after.devices.Keys == db.devices.Keys
      && (forall id :: 0 <= id < |db.sessions| ==>
            var was := db.sessions[id];
            after.sessions[id] ==
              if was.status == Active && was.expiresAt < now
              then was.(status := Expired, endedAt := Some(now), endReason := Some(ReasonExpired)) else was)
      && (forall d :: d in db.devices ==>
            after.devices[d] ==
              if exists id :: IsActive(db.sessions, id) && db.sessions[id].deviceId == d && db.sessions[id].expiresAt < now
              then db.devices[d].(state := Locking) else db.devices[d])
  {
  }

  /** The commands whose execution closes the phone's session. */
  predicate Closes(kind: C.CommandKind) {
    kind in {C.LockDevice, C.ForceLogout, C.RevokeSession}
  }

  /**
   * A lock acknowledged by the phone ends its open session, a logout or a revocation
   * revokes it, and the phone is left locked; other commands close none, and no other
   * phone or session changes.
   */
  lemma EffectsLeaveNoSession(db: Db, deviceId: nat, kind: C.CommandKind, now: int)
    ensures var after := WithEffects(db, deviceId, kind, now);
      && |after.sessions| == |db.sessions| && after.devices.Keys == db.devices.Keys
      && (Closes(kind) ==> ActiveOf(after.sessions, deviceId).None?)
      && (forall id :: 0 <= id < |db.sessions| ==>
            var was := db.sessions[id];
            after.sessions[id] ==
              if !Closes(kind) || was.status != Active || was.deviceId != deviceId then was
              else if kind == C.LockDevice
              then was.(status := Ended, endedAt := Some(now), endReason := Some(ScheduledLock))
              else was.(status := Revoked, endedAt := Some(now), endReason := Some(ReasonRevoked)))
      && (forall d :: d in db.devices && d != deviceId ==> after.devices[d] == db.devices[d])
      && (deviceId in db.devices ==>
            var state := after.devices[deviceId].state;
            if Closes(kind) then state == Locked
            else state == if kind == C.UnlockDevice then Unknown else db.devices[deviceId].state)
  {
    hide ActiveOf, SetState;
  }

  /** Ending an open session closes it, for that reason, and locks its phone; nothing else changes. */
  lemma EndIsExact(db: Db, id: nat, reason: EndReason, now: int)
    ensures var after := EndedSession(db, id, reason, now);
      if !IsActive(db.sessions, id) then after == db
      else
        && after.sessions == db.sessions[id := db.sessions[id].(
             status := if reason == ReasonRevoked then Revoked else Ended,
             endedAt := Some(now), endReason := Some(reason))]
        && after.devices.Keys == db.devices.Keys
        && forall d :: d in db.devices ==>
             after.devices[d] ==
               if d == db.sessions[id].deviceId then db.devices[d].(state := Locked) else db.devices[d]
  {
  }

  /** A phone enrolled can be used at once, locked as it is, unless it was deleted; a phone revoked cannot. */
  lemma EnrolmentDecidesUse(db: Db, deviceId: nat, companyId: nat)
    ensures var after := EnrolledDevice(db, deviceId, companyId);
      && after.sessions == db.sessions && after.devices.Keys == db.devices.Keys + {deviceId}
      && (forall d :: d in db.devices && d != deviceId ==> after.devices[d] == db.devices[d])
      && after.devices[deviceId].state == Locked && after.devices[deviceId].companyId == companyId
      && after.devices[deviceId].enrollment == Enrolled && !after.devices[deviceId].revoked
      && (Usable(after.devices, deviceId) <==> (deviceId in db.devices ==> !db.devices[deviceId].deleted))
    ensures var after := RevokedDevice(db, deviceId);
      && after.sessions == db.sessions && after.devices.Keys == db.devices.Keys
      && (forall d :: d in db.devices && d != deviceId ==> after.devices[d] == db.devices[d])
      && !Usable(after.devices, deviceId)
      && (deviceId in db.devices ==>
            after.devices[deviceId] == db.devices[deviceId].(
              state := Locked, enrollment := RevokedEnrollment, revoked := true))
  {
  }

  /** A crossing moves the phone's open session and the phone to the same state, and closes nothing. */
  lemma CrossingMovesBoth(db: Db, deviceId: nat, s: S.DepotSchedule, c: G.Crossing)
    requires OnePerDevice(db.sessions)
    ensures var after := Crossed(db, deviceId, s, c);
      && |after.sessions| == |db.sessions| && after.devices.Keys == db.devices.Keys
      && (forall id :: 0 <= id < |db.sessions| && !(IsActive(db.sessions, id) && db.sessions[id].deviceId == deviceId) ==>
            after.sessions[id] == db.sessions[id])
      && (forall id :: IsActive(db.sessions, id) && db.sessions[id].deviceId == deviceId ==>
            && IsActive(after.sessions, id) && Follows(db.sessions[id], after.sessions[id])
            && after.sessions[id].state == G.Evaluate(s, c.transition, c.at, db.sessions[id].state).next
            && (deviceId in db.devices ==> after.devices[deviceId].state == DeviceStateOf(after.sessions[id].state))
            && (db.sessions[id].state == G.Returned ==> after.sessions[id].returnedAt == db.sessions[id].returnedAt))
      && (forall d :: d in db.devices && d != deviceId ==> after.devices[d] == db.devices[d])
      && (ActiveOf(db.sessions, deviceId).None? ==> after == db)
  {
    hide S.IsAfterReturnTime;
    var id := ActiveOf(db.sessions, deviceId);
    if id.Some? {
      assert IsActive(db.sessions, id.value);
      assert forall other :: IsActive(db.sessions, other) && db.sessions[other].deviceId == deviceId ==> other == id.value;
    } else {
      forall other | IsActive(db.sessions, other) ensures db.sessions[other].deviceId != deviceId {
        assert !Selects(OfDevice(deviceId), other, db.sessions[other]);
      }
    }
  }

  // ------------------------------------------------------------------------
  //  One step
  // ------------------------------------------------------------------------

  /** Sessions only closed, phones only moved out of the two session states, or not at all. */
  lemma ClosingKeepsInv(before: Db, after: Db)
    requires Inv(before) && |after.sessions| == |before.sessions|
    requires forall id :: IsActive(after.sessions, id) ==> after.sessions[id] == before.sessions[id]
    requires forall d :: d in after.devices && after.devices[d].state in {InUse, BackAtDepot} ==>
      d in before.devices && after.devices[d].state == before.devices[d].state
    ensures Inv(after)
  {
  }

  lemma CrossKeepsInv(db: Db, deviceId: nat, s: S.DepotSchedule, c: G.Crossing)
    requires Inv(db)
    ensures Inv(Crossed(db, deviceId, s, c))
  {
    CrossingMovesBoth(db, deviceId, s, c);
    hide Crossed, G.Evaluate;
    var after := Crossed(db, deviceId, s, c);
    forall id | IsActive(after.sessions, id)
      ensures IsActive(db.sessions, id) && after.sessions[id].deviceId == db.sessions[id].deviceId
      ensures after.sessions[id].userId == db.sessions[id].userId
    {
    }
    forall id | IsActive(after.sessions, id) ensures Agrees(after.sessions[id], after.devices) {
      assert Agrees(db.sessions[id], db.devices);
    }
  }

  lemma ScanKeepsInv(db: Db, deviceId: nat, userId: nat, badgeId: nat, now: int, expiresAt: int)
    requires Inv(db) && deviceId in db.devices
    ensures Inv(Opened(db, deviceId, userId, badgeId, now, expiresAt))
  {
    var after := Opened(db, deviceId, userId, badgeId, now, expiresAt);
    ScanReplaces(db, deviceId, userId, badgeId, now, expiresAt);
    hide Opened;
    forall id | IsActive(after.sessions, id) && id != |db.sessions|
      ensures IsActive(db.sessions, id) && after.sessions[id] == db.sessions[id]
    {
    }
    forall id | IsActive(after.sessions, id) ensures Agrees(after.sessions[id], after.devices) {
      if id != |db.sessions| {
        assert Agrees(db.sessions[id], db.devices);
      }
    }
  }

  lemma StepKeepsInv(db: Db, call: Call)
    requires Inv(db)
    ensures Inv(Apply(db, call))
  {
    hide Opened, Crossed, ExpiredOverdue, WithEffects;
    match call
    case ScanCall(d, u, b, now, e) =>
      if d in db.devices {
        ScanKeepsInv(db, d, u, b, now, e);
      }
    case CrossCall(d, s, c) => CrossKeepsInv(db, d, s, c);
    case EndCall(_, _, _) => ClosingKeepsInv(db, Apply(db, call));
    case ExpireCall(now) =>
      ExpiryIsExact(db, now);
      ClosingKeepsInv(db, Apply(db, call));
    case EffectsCall(d, kind, now) =>
      EffectsLeaveNoSession(db, d, kind, now);
      ClosingKeepsInv(db, Apply(db, call));
    case EnrollCall(_, _) => ClosingKeepsInv(db, Apply(db, call));
    case RevokeCall(_) => ClosingKeepsInv(db, Apply(db, call));
  }

  lemma StepFollows(db: Db, call: Call)
    ensures History(db.sessions, Apply(db, call).sessions)
  {
    hide G.Evaluate;
  }

  // ------------------------------------------------------------------------
  //  Runs
  // ------------------------------------------------------------------------

  const START := Db([], map[])

  lemma {:induction false} RunKeepsInv(db: Db, calls: seq<Call>)
    requires Inv(db)
    ensures Inv(Run(db, calls))
    decreases |calls|
  {
    if calls != [] {
      StepKeepsInv(db, calls[0]);
      RunKeepsInv(Apply(db, calls[0]), calls[1..]);
    }
  }

  lemma FollowsTransitive(a: seq<Session>, b: seq<Session>, c: seq<Session>)
    requires History(a, b) && History(b, c)
    ensures History(a, c)
  {
  }

  lemma {:induction false} RunFollows(db: Db, calls: seq<Call>)
    ensures History(db.sessions, Run(db, calls).sessions)
    decreases |calls|
  {
    hide Apply;
    if calls != [] {
      var next := Apply(db, calls[0]);
      StepFollows(db, calls[0]);
      RunFollows(next, calls[1..]);
      FollowsTransitive(db.sessions, next.sessions, Run(next, calls[1..]).sessions);
    }
  }

  /**
   * In every reachable state: at most one open session per phone and per driver,
   * and a phone shown in use or returned shows the state of its open session.
   */
  lemma EveryReachableState(calls: seq<Call>)
    ensures Inv(Run(START, calls))
  {
    RunKeepsInv(START, calls);
  }

  /** A session that has left ACTIVE is never touched again, whatever happens next. */
  lemma ClosedForGood(calls: seq<Call>, more: seq<Call>, id: nat)
    requires id < |Run(START, calls).sessions| && Run(START, calls).sessions[id].status != Active
    ensures var later := Run(START, calls + more).sessions;
      id < |later| && later[id] == Run(START, calls).sessions[id]
  {
    RunConcat(START, calls, more);
    RunFollows(Run(START, calls), more);
  }

  lemma {:induction false} RunConcat(db: Db, calls: seq<Call>, more: seq<Call>)
    ensures Run(db, calls + more) == Run(Run(db, calls), more)
    decreases |calls|
  {
    hide Apply;
    if calls == [] {
      assert calls + more == more;
    } else {
      assert (calls + more)[1..] == calls[1..] + more;
      RunConcat(Apply(db, calls[0]), calls[1..], more);
    }
  }
}
