/**
 * Sessions and phones: every transaction that opens, closes or moves a session
 * (apps/api/src/auth/barcode-auth.service.ts, apps/api/src/sessions/sessions.service.ts,
 * apps/api/src/devices/commands.service.ts, apps/api/src/devices/enrollment.service.ts,
 * apps/api/src/sync/sync.service.ts). A session's id is its position in the table.
 */
module Fleet {
  import opened Wrappers
  import opened Schedule
  import G = Geofence
  import C = Commands

  datatype SessionStatus = Active | Ended | Revoked | Expired

  datatype EndReason =
    NewSession | AdminLogout | ScheduledLock | ReasonExpired | ReasonRevoked | OfflineRevalidationFailed

  datatype Session = Session(
    userId: nat, deviceId: nat, badgeId: nat, status: SessionStatus, state: G.SessionState, expiresAt: int,
    endedAt: Option<int>, endReason: Option<EndReason>, returnedAt: Option<int>)

  datatype DeviceState = Unknown | Locked | InUse | BackAtDepot | Locking

  datatype Enrollment = Pending | Enrolled | RevokedEnrollment | Decommissioned

  datatype Device = Device(
    companyId: nat, state: DeviceState, enrollment: Enrollment, revoked: bool, deleted: bool)

  datatype Db = Db(sessions: seq<Session>, devices: map<nat, Device>)

  // ------------------------------------------------------------------------
  //  Updates
  // ------------------------------------------------------------------------

  /** The filters of the session updates; all of them also require ACTIVE. */
  datatype Filter = OfDevice(deviceId: nat) | OfUser(userId: nat) | Overdue(now: int) | WithId(id: nat)

  predicate Selects(f: Filter, id: nat, s: Session) {
    s.status == Active && match f
      case OfDevice(d) => s.deviceId == d
      case OfUser(u) => s.userId == u
      case Overdue(now) => s.expiresAt < now
      case WithId(i) => id == i
  }

  function Closed(s: Session, status: SessionStatus, reason: EndReason, now: int): Session {
    s.(status := status, endedAt := Some(now), endReason := Some(reason))
  }

  function Close(sessions: seq<Session>, f: Filter, status: SessionStatus, reason: EndReason, now: int): (r: seq<Session>)
    ensures |r| == |sessions|
    ensures forall id :: 0 <= id < |sessions| ==>
      r[id] == if Selects(f, id, sessions[id]) then Closed(sessions[id], status, reason, now) else sessions[id]
  {
    seq(|sessions|, id requires 0 <= id < |sessions| =>
      if Selects(f, id, sessions[id]) then Closed(sessions[id], status, reason, now) else sessions[id])
  }

  function SetState(devices: map<nat, Device>, ids: set<nat>, state: DeviceState): (r: map<nat, Device>)
    ensures r.Keys == devices.Keys
    ensures forall d :: d in devices ==> r[d] == if d in ids then devices[d].(state := state) else devices[d]
  {
    map d | d in devices :: if d in ids then devices[d].(state := state) else devices[d]
  }

  // ------------------------------------------------------------------------
  //  Transactions
  // ------------------------------------------------------------------------

  /** A successful scan: a new session replaces the phone's and the driver's. */
  function Opened(db: Db, deviceId: nat, userId: nat, badgeId: nat, now: int, expiresAt: int): Db {
    var ofDevice := Close(db.sessions, OfDevice(deviceId), Ended, NewSession, now);
    var ofUser := Close(ofDevice, OfUser(userId), Ended, NewSession, now);
    Db(ofUser + [Session(userId, deviceId, badgeId, Active, G.OnTour, expiresAt, None, None, None)],
       SetState(db.devices, {deviceId}, InUse))
  }

  /** `SessionsService.end`; a session already closed is left alone. */
  function EndedSession(db: Db, id: nat, reason: EndReason, now: int): Db {
    if id >= |db.sessions| || db.sessions[id].status != Active then db
    else Db(Close(db.sessions, WithId(id), if reason == ReasonRevoked then Revoked else Ended, reason, now),
            SetState(db.devices, {db.sessions[id].deviceId}, Locked))
  }

  function OverdueIds(sessions: seq<Session>, now: int): (r: set<nat>)
    ensures forall id: nat :: id in r <==> id < |sessions| && Selects(Overdue(now), id, sessions[id])
  {
    set id: nat | id < |sessions| && Selects(Overdue(now), id, sessions[id])
  }

  function DevicesOf(sessions: seq<Session>, ids: set<nat>): (r: set<nat>)
    requires forall id :: id in ids ==> id < |sessions|
    ensures forall d :: d in r <==> exists id :: id in ids && sessions[id].deviceId == d
  {
    set id | id in ids :: sessions[id].deviceId
  }

  /** `SessionsService.expireOverdue`. */
  function ExpiredOverdue(db: Db, now: int): Db {
    var overdue := OverdueIds(db.sessions, now);
    Db(Close(db.sessions, Overdue(now), Expired, ReasonExpired, now),
       SetState(db.devices, DevicesOf(db.sessions, overdue), Locking))
  }

  /** `applySideEffects` of an executed command. */
  function WithEffects(db: Db, deviceId: nat, kind: C.CommandKind, now: int): Db {
    match kind
    case LockDevice =>
      Db(Close(db.sessions, OfDevice(deviceId), Ended, ScheduledLock, now), SetState(db.devices, {deviceId}, Locked))
    case ForceLogout | RevokeSession =>
      Db(Close(db.sessions, OfDevice(deviceId), Revoked, ReasonRevoked, now), SetState(db.devices, {deviceId}, Locked))
    case UnlockDevice => db.(devices := SetState(db.devices, {deviceId}, Unknown))
    case WipeDevice | OtherCommand => db
  }

  /** `findFirst` of the phone's ACTIVE session. */
  function ActiveOf(sessions: seq<Session>, deviceId: nat): (r: Option<nat>)
    ensures r.Some? ==> r.value < |sessions| && Selects(OfDevice(deviceId), r.value, sessions[r.value])
    ensures r.None? <==> forall id: nat :: id < |sessions| ==> !Selects(OfDevice(deviceId), id, sessions[id])
  {
    if sessions == [] then None
    else
      var last := |sessions| - 1;
      var earlier := ActiveOf(sessions[..last], deviceId);
      if earlier.Some? then earlier
      else if sessions[last].status == Active && sessions[last].deviceId == deviceId then Some(last)
      else None
  }

  function DeviceStateOf(state: G.SessionState): DeviceState {
    if state == G.Returned then BackAtDepot else InUse
  }

  /** The decision on a transition of the phone; without a session, as if on tour. */
  function DecisionFor(db: Db, deviceId: nat, s: DepotSchedule, c: G.Crossing): G.Decision {
    var id := ActiveOf(db.sessions, deviceId);
    G.Evaluate(s, c.transition, c.at, if id.Some? then db.sessions[id.value].state else G.OnTour)
  }

  /** The transaction of `handleGeofence` on the session and the phone. */
  function Crossed(db: Db, deviceId: nat, s: DepotSchedule, c: G.Crossing): Db {
    var id := ActiveOf(db.sessions, deviceId);
    if id.None? then db
    else
      var decision := DecisionFor(db, deviceId, s, c);
      var session := db.sessions[id.value];
      Db(db.sessions[id.value := session.(
           state := decision.next,
           returnedAt := if decision.markReturned then Some(c.at) else session.returnedAt)],
         SetState(db.devices, {deviceId}, DeviceStateOf(decision.next)))
  }

  /** Enrolment of a new phone, or of a known one again. */
  function EnrolledDevice(db: Db, deviceId: nat, companyId: nat): Db {
    var deleted := deviceId in db.devices && db.devices[deviceId].deleted;
    db.(devices := db.devices[deviceId := Device(companyId, Locked, Enrolled, false, deleted)])
  }

  /** `revokeDevice`: the phone's session is not closed here. */
  function RevokedDevice(db: Db, deviceId: nat): Db {
    if deviceId !in db.devices then db
    else db.(devices := db.devices[deviceId :=
      db.devices[deviceId].(enrollment := RevokedEnrollment, revoked := true, state := Locked)])
  }

  // ------------------------------------------------------------------------
  //  Badge checks
  // ------------------------------------------------------------------------

  datatype BadgeStatus = BadgeActive | BadgeInactive | BadgeRevoked

  datatype Badge = Badge(id: nat, companyId: nat, userId: nat, status: BadgeStatus)

  datatype User = User(companyId: nat, active: bool, deleted: bool)

  /** Everything the nine checks read, apart from the phone. */
  datatype Scan = Scan(
    claimedDevice: nat, lockedOut: bool, deviceQuota: bool, readable: bool, badgeQuota: bool,
    badge: Option<Badge>, user: User, assignmentRequired: bool, holdsAssignment: bool)

  datatype Verdict =
    | Forbidden
    | RateLimited
    | DeviceUnavailable
    | UnknownBadge
    | BadgeUnusable
    | UserInactive
    | CompanyMismatch
    | NotAuthorized
    | Granted(userId: nat, badgeId: nat)

  predicate Usable(devices: map<nat, Device>, deviceId: nat) {
    && deviceId in devices && !devices[deviceId].deleted
    && devices[deviceId].enrollment == Enrolled && !devices[deviceId].revoked
  }

  /** The checks of a scan in the order of the source, each with the refusal it gives. */
  function Checks(devices: map<nat, Device>, scan: Scan, deviceId: nat): seq<(bool, Verdict)> {
    [ (scan.claimedDevice == deviceId, Forbidden),
      (!scan.lockedOut && scan.deviceQuota, RateLimited),
      (scan.readable, UnknownBadge),
      (scan.badgeQuota, RateLimited),
      (Usable(devices, deviceId), DeviceUnavailable),
      (scan.badge.Some?, UnknownBadge),
      (scan.badge.Some? && scan.badge.value.status == BadgeActive, BadgeUnusable),
      (scan.user.active && !scan.user.deleted, UserInactive),
      (scan.badge.Some? && deviceId in devices
       && scan.badge.value.companyId == devices[deviceId].companyId == scan.user.companyId, CompanyMismatch),
      (scan.assignmentRequired ==> scan.holdsAssignment, NotAuthorized) ]
  }

  /** The first check that fails gives the verdict. */
  predicate FirstFailure(checks: seq<(bool, Verdict)>, verdict: Verdict) {
    exists i :: 0 <= i < |checks| && !checks[i].0 && checks[i].1 == verdict && forall j :: 0 <= j < i ==> checks[j].0
  }

  lemma FirstFailing(checks: seq<(bool, Verdict)>, i: nat)
    requires i < |checks| && !checks[i].0 && forall j :: 0 <= j < i ==> checks[j].0
    ensures FirstFailure(checks, checks[i].1)
  {
  }

  /** The phone is enrolled, neither revoked nor deleted. */
  predicate InService(devices: map<nat, Device>, deviceId: nat) {
    deviceId in devices &&
    var d := devices[deviceId];
    d == Device(d.companyId, d.state, Enrolled, false, false)
  }

  /** The scan comes from its own phone, within the quotas, and its code is readable. */
  predicate Heard(scan: Scan, deviceId: nat) {
    scan.claimedDevice == deviceId && !scan.lockedOut && scan.deviceQuota && scan.readable && scan.badgeQuota
  }

  /** And the phone is in service, the badge known and active. */
  predicate Recognised(devices: map<nat, Device>, scan: Scan, deviceId: nat) {
    Heard(scan, deviceId) && InService(devices, deviceId) && scan.badge.Some? && scan.badge.value.status == BadgeActive
  }

  /** And the driver is active, and of the company of the phone and of the badge. */
  predicate Admitted(devices: map<nat, Device>, scan: Scan, deviceId: nat) {
    && Recognised(devices, scan, deviceId) && scan.user.active && !scan.user.deleted
    && scan.user.companyId == devices[deviceId].companyId && scan.badge.value.companyId == devices[deviceId].companyId
  }

  /** Which refusal a scan meets. */
  lemma RefusalExactly(devices: map<nat, Device>, scan: Scan, deviceId: nat, verdict: Verdict)
    requires FirstFailure(Checks(devices, scan, deviceId), verdict)
    ensures verdict == Forbidden <==> scan.claimedDevice != deviceId
    ensures verdict == RateLimited <==>
      scan.claimedDevice == deviceId && (scan.lockedOut || !scan.deviceQuota || (scan.readable && !scan.badgeQuota))
    ensures verdict == UnknownBadge <==>
      || (scan.claimedDevice == deviceId && !scan.lockedOut && scan.deviceQuota && !scan.readable)
      || (Heard(scan, deviceId) && InService(devices, deviceId) && scan.badge.None?)
    ensures verdict == DeviceUnavailable <==> Heard(scan, deviceId) && !InService(devices, deviceId)
    ensures verdict == BadgeUnusable <==>
      Heard(scan, deviceId) && InService(devices, deviceId) && scan.badge.Some? && scan.badge.value.status != BadgeActive
    ensures verdict == UserInactive <==>
      Recognised(devices, scan, deviceId) && (!scan.user.active || scan.user.deleted)
    ensures verdict == CompanyMismatch <==>
      && Recognised(devices, scan, deviceId) && scan.user.active && !scan.user.deleted
      && !Admitted(devices, scan, deviceId)
    ensures verdict == NotAuthorized <==>
      Admitted(devices, scan, deviceId) && scan.assignmentRequired && !scan.holdsAssignment
    ensures !verdict.Granted?
  {
    var checks := Checks(devices, scan, deviceId);
    var i :| 0 <= i < |checks| && !checks[i].0 && checks[i].1 == verdict && forall j :: 0 <= j < i ==> checks[j].0;
    assert |checks| == 10 && checks[0].0 == (scan.claimedDevice == deviceId);
    assert checks[1].0 == (!scan.lockedOut && scan.deviceQuota) && checks[2].0 == scan.readable;
    assert checks[3].0 == scan.badgeQuota && checks[4].0 == InService(devices, deviceId);
    assert checks[5].0 == scan.badge.Some? && checks[7].0 == (scan.user.active && !scan.user.deleted);
    assert checks[6].0 == (scan.badge.Some? && scan.badge.value.status == BadgeActive);
    assert checks[9].0 == (scan.assignmentRequired ==> scan.holdsAssignment);
    assert checks[8].1 == CompanyMismatch && checks[9].1 == NotAuthorized;
  }

  class FleetServer {
    var sessions: seq<Session>
    var devices: map<nat, Device>

    constructor ()
      ensures Snapshot() == Db([], map[])
    {
      sessions, devices := [], map[];
    }

    function Snapshot(): Db
      reads this
    {
      Db(sessions, devices)
    }

    /**
     * `BarcodeAuthService.authenticate`: the checks in order, then the session
     * replacement. A refusal is that of the first check that fails, and leaves
     * sessions and phones alone; a session opens exactly when every check passes.
     */
    method Authenticate(scan: Scan, deviceId: nat, now: int, maxMinutes: nat) returns (verdict: Verdict)
      modifies this
      ensures verdict.Granted? <==>
        && scan.claimedDevice == deviceId && !scan.lockedOut && scan.deviceQuota && scan.readable && scan.badgeQuota
        && deviceId in old(devices) && !old(devices)[deviceId].deleted
        && old(devices)[deviceId].enrollment == Enrolled && !old(devices)[deviceId].revoked
        && scan.badge.Some? && scan.badge.value.status == BadgeActive
        && scan.user.active && !scan.user.deleted
        && scan.badge.value.companyId == old(devices)[deviceId].companyId == scan.user.companyId
        && (scan.assignmentRequired ==> scan.holdsAssignment)
      ensures !verdict.Granted? ==> FirstFailure(Checks(old(devices), scan, deviceId), verdict)
      ensures !verdict.Granted? ==> Snapshot() == old(Snapshot())
      ensures verdict.Granted? ==>
        && verdict == Granted(scan.badge.value.userId, scan.badge.value.id)
        && Snapshot() == Opened(old(Snapshot()), deviceId, verdict.userId, verdict.badgeId, now, now + maxMinutes * MINUTE)
    {
      hide Close, SetState, FirstFailure;
      ghost var checks := Checks(devices, scan, deviceId);
      if scan.claimedDevice != deviceId {
        FirstFailing(checks, 0);
        return Forbidden;
      }
      if scan.lockedOut || !scan.deviceQuota {
        FirstFailing(checks, 1);
        return RateLimited;
      }
      if !scan.readable {
        FirstFailing(checks, 2);
        return UnknownBadge;
      }
      if !scan.badgeQuota {
        FirstFailing(checks, 3);
        return RateLimited;
      }
      if deviceId !in devices || devices[deviceId].deleted
        || devices[deviceId].enrollment != Enrolled || devices[deviceId].revoked {
        FirstFailing(checks, 4);
        return DeviceUnavailable;
      }
      var companyId := devices[deviceId].companyId;
      if scan.badge.None? {
        FirstFailing(checks, 5);
        return UnknownBadge;
      }
      var badge := scan.badge.value;
      if badge.status != BadgeActive {
        FirstFailing(checks, 6);
        return BadgeUnusable;
      }
      if !scan.user.active || scan.user.deleted {
        FirstFailing(checks, 7);
        return UserInactive;
      }
      if badge.companyId != companyId || scan.user.companyId != companyId {
        FirstFailing(checks, 8);
        return CompanyMismatch;
      }
      if scan.assignmentRequired && !scan.holdsAssignment {
        FirstFailing(checks, 9);
        return NotAuthorized;
      }
      sessions := Close(sessions, OfDevice(deviceId), Ended, NewSession, now);
      sessions := Close(sessions, OfUser(badge.userId), Ended, NewSession, now);
      sessions := sessions +
        [Session(badge.userId, deviceId, badge.id, Active, G.OnTour, now + maxMinutes * MINUTE, None, None, None)];
      devices := SetState(devices, {deviceId}, InUse);
      verdict := Granted(badge.userId, badge.id);
    }

    /** `SessionsService.end`; false when the session does not exist. */
    method End(id: nat, reason: EndReason, now: int) returns (found: bool)
      modifies this
      ensures found <==> id < |old(sessions)|
      ensures Snapshot() == EndedSession(old(Snapshot()), id, reason, now)
    {
      if id >= |sessions| {
        return false;
      }
      var session := sessions[id];
      if session.status != Active {
        return true;
      }
      sessions := Close(sessions, WithId(id), if reason == ReasonRevoked then Revoked else Ended, reason, now);
      devices := SetState(devices, {session.deviceId}, Locked);
      found := true;
    }

    /** `SessionsService.expireOverdue`: the ids it returns are those it expired. */
    method ExpireOverdue(now: int) returns (overdue: set<nat>)
      modifies this
      ensures Snapshot() == ExpiredOverdue(old(Snapshot()), now)
      ensures overdue == OverdueIds(old(sessions), now)
    {
      overdue := OverdueIds(sessions, now);
      if overdue == {} {
        NothingOverdue(Snapshot(), now);
        return;
      }
      var ids := DevicesOf(sessions, overdue);
      sessions := Close(sessions, Overdue(now), Expired, ReasonExpired, now);
      devices := SetState(devices, ids, Locking);
    }

    /** `reportResult` with the side effects of an executed command, in one transaction. */
    method ReportResult(queue: C.CommandQueue, deviceId: nat, id: nat, executed: bool, now: int) returns (outcome: C.Ack)
      modifies this, queue
      ensures outcome == C.AckOutcome(old(queue.rows), deviceId, id, executed)
      ensures queue.rows == C.Acknowledged(old(queue.rows), deviceId, id, executed)
      ensures outcome != C.Recorded(true) ==> Snapshot() == old(Snapshot())
      ensures outcome == C.Recorded(true) ==>
        Snapshot() == WithEffects(old(Snapshot()), deviceId, old(queue.rows)[id].kind, now)
    {
      outcome := queue.Acknowledge(deviceId, id, executed);
      if outcome == C.Recorded(true) {
        match queue.rows[id].kind
        case LockDevice =>
          sessions := Close(sessions, OfDevice(deviceId), Ended, ScheduledLock, now);
          devices := SetState(devices, {deviceId}, Locked);
        case ForceLogout | RevokeSession =>
          sessions := Close(sessions, OfDevice(deviceId), Revoked, ReasonRevoked, now);
          devices := SetState(devices, {deviceId}, Locked);
        case UnlockDevice =>
          devices := SetState(devices, {deviceId}, Unknown);
        case WipeDevice | OtherCommand =>
      }
    }

    /** The session and phone half of `handleGeofence`. */
    method Cross(deviceId: nat, s: DepotSchedule, c: G.Crossing) returns (decision: G.Decision)
      modifies this
      ensures decision == DecisionFor(old(Snapshot()), deviceId, s, c)
      ensures Snapshot() == Crossed(old(Snapshot()), deviceId, s, c)
    {
      var id := ActiveOf(sessions, deviceId);
      decision := G.Evaluate(s, c.transition, c.at, if id.Some? then sessions[id.value].state else G.OnTour);
      if id.Some? {
        var session := sessions[id.value].(state := decision.next);
        if decision.markReturned {
          session := session.(returnedAt := Some(c.at));
        }
        sessions := sessions[id.value := session];
        devices := SetState(devices, {deviceId}, if decision.next == G.Returned then BackAtDepot else InUse);
      }
    }

    method Enroll(deviceId: nat, companyId: nat)
      modifies this
      ensures Snapshot() == EnrolledDevice(old(Snapshot()), deviceId, companyId)
    {
      var deleted := deviceId in devices && devices[deviceId].deleted;
      devices := devices[deviceId := Device(companyId, Locked, Enrolled, false, deleted)];
    }

    method Revoke(deviceId: nat) returns (found: bool)
      modifies this
      ensures found <==> deviceId in old(devices)
      ensures Snapshot() == RevokedDevice(old(Snapshot()), deviceId)
    {
      if deviceId !in devices {
        return false;
      }
      devices := devices[deviceId := devices[deviceId].(enrollment := RevokedEnrollment, revoked := true, state := Locked)];
      found := true;
    }
  }

  lemma NothingOverdue(db: Db, now: int)
    requires OverdueIds(db.sessions, now) == {}
    ensures ExpiredOverdue(db, now) == db
  {
  }
}
