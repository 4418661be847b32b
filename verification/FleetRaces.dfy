/**
 * Crossings, ends and expiries that read a session before other transactions run,
 * and write it after (apps/api/src/sync/sync.service.ts,
 * apps/api/src/sessions/sessions.service.ts).
 */
module FleetRaces {
  import opened Wrappers
  import opened Fleet
  import opened FleetRuns
  import G = Geofence
  import S = Schedule

  // ------------------------------------------------------------------------
  //  What each call writes
  // ------------------------------------------------------------------------

  /** A call between its reading and its writing. */
  datatype Pending =
    | Crossing(id: nat, deviceId: nat, decision: G.Decision, at: int)
    | Ending(id: nat, deviceId: nat, reason: EndReason, now: int)
    | Expiring(ids: set<nat>, devices: set<nat>, now: int)

  function EndStatus(reason: EndReason): SessionStatus {
    if reason == ReasonRevoked then Revoked else Ended
  }

  function MovedSession(s: Session, decision: G.Decision, at: int): Session {
    s.(state := decision.next, returnedAt := if decision.markReturned then Some(at) else s.returnedAt)
  }

  function CloseIds(sessions: seq<Session>, ids: set<nat>, now: int): (r: seq<Session>)
    ensures |r| == |sessions|
    ensures forall id :: 0 <= id < |sessions| ==>
      r[id] == if id in ids then Closed(sessions[id], Expired, ReasonExpired, now) else sessions[id]
  {
    seq(|sessions|, id requires 0 <= id < |sessions| =>
      if id in ids then Closed(sessions[id], Expired, ReasonExpired, now) else sessions[id])
  }

  /** The writes name their rows by id, whatever has become of them. */
  function Written(db: Db, p: Pending): Db {
    match p
    case Crossing(id, d, decision, at) =>
      if id >= |db.sessions| then db
      else Db(db.sessions[id := MovedSession(db.sessions[id], decision, at)],
              SetState(db.devices, {d}, DeviceStateOf(decision.next)))
    case Ending(id, d, reason, now) =>
      if id >= |db.sessions| then db
      else Db(db.sessions[id := Closed(db.sessions[id], EndStatus(reason), reason, now)],
              SetState(db.devices, {d}, Locked))
    case Expiring(ids, devices, now) => Db(CloseIds(db.sessions, ids, now), SetState(db.devices, devices, Locking))
  }

  // ------------------------------------------------------------------------
  //  What each call reads
  // ------------------------------------------------------------------------

  /** The first half of `handleGeofence`, `end` and `expireOverdue`; nothing to write, nothing pending. */
  datatype Reading =
    | ReadCrossing(deviceId: nat, schedule: S.DepotSchedule, crossing: G.Crossing)
    | ReadEnding(id: nat, reason: EndReason, now: int)
    | ReadExpiring(now: int)

  function Read(db: Db, r: Reading): Option<Pending> {
    match r
    case ReadCrossing(d, s, c) =>
      var id := ActiveOf(db.sessions, d);
      if id.None? then None else Some(Crossing(id.value, d, DecisionFor(db, d, s, c), c.at))
    case ReadEnding(id, reason, now) =>
      if id >= |db.sessions| || db.sessions[id].status != Active then None
      else Some(Ending(id, db.sessions[id].deviceId, reason, now))
    case ReadExpiring(now) =>
      var ids := OverdueIds(db.sessions, now);
      Some(Expiring(ids, DevicesOf(db.sessions, ids), now))
  }

  /** The atomic call a reading and its writing make when nothing comes in between. */
  function Whole(r: Reading): Call {
    match r
    case ReadCrossing(d, s, c) => CrossCall(d, s, c)
    case ReadEnding(id, reason, now) => EndCall(id, reason, now)
    case ReadExpiring(now) => ExpireCall(now)
  }

  /** Reading then writing at once is the call. */
  lemma ReadThenWriteIsTheCall(db: Db, r: Reading)
    ensures var p := Read(db, r);
      Apply(db, Whole(r)) == if p.Some? then Written(db, p.value) else db
  {
    hide G.Evaluate;
    match r
    case ReadCrossing(_, _, _) =>
    case ReadEnding(id, reason, now) =>
      if id < |db.sessions| && db.sessions[id].status == Active {
        assert Apply(db, Whole(r)).sessions == Written(db, Read(db, r).value).sessions;
      }
    case ReadExpiring(now) =>
      assert Apply(db, Whole(r)).sessions == Written(db, Read(db, r).value).sessions;
  }

  // ------------------------------------------------------------------------
  //  Any interleaving
  // ------------------------------------------------------------------------

  datatype Machine = Machine(db: Db, pending: seq<Pending>)

  /** A whole call, the reading of one, or the writing of one that has read. */
  datatype Step = Atomic(call: Call) | Begin(reading: Reading) | Finish(k: nat)

  function Act(m: Machine, step: Step): Machine {
    match step
    case Atomic(call) => m.(db := Apply(m.db, call))
    case Begin(r) => var p := Read(m.db, r); if p.None? then m else m.(pending := m.pending + [p.value])
    case Finish(k) =>
      if k >= |m.pending| then m
      else Machine(Written(m.db, m.pending[k]), m.pending[..k] + m.pending[k + 1..])
  }

  function RunSteps(m: Machine, steps: seq<Step>): Machine
    decreases |steps|
  {
    if steps == [] then m else RunSteps(Act(m, steps[0]), steps[1..])
  }

  /** What was read is still there: the session, on the same phone. */
  predicate Targets(db: Db, p: Pending) {
    match p
    case Crossing(id, d, _, _) => id < |db.sessions| && db.sessions[id].deviceId == d
    case Ending(id, d, _, _) => id < |db.sessions| && db.sessions[id].deviceId == d
    case Expiring(ids, devices, _) =>
      forall id :: id in ids ==> id < |db.sessions| && db.sessions[id].deviceId in devices
  }

  /** Sessions stay, with their driver and phone, and none opens again. */
  ghost predicate Stays(before: seq<Session>, after: seq<Session>) {
    |before| <= |after| && forall id :: 0 <= id < |before| ==>
      && after[id].deviceId == before[id].deviceId && after[id].userId == before[id].userId
      && (before[id].status != Active ==> after[id].status != Active)
  }

  ghost predicate Steady(m: Machine) {
    && OnePerDevice(m.db.sessions) && OnePerUser(m.db.sessions)
    && forall k :: 0 <= k < |m.pending| ==> Targets(m.db, m.pending[k])
  }

  lemma StaysTargeted(before: Db, after: Db, p: Pending)
    requires Targets(before, p) && Stays(before.sessions, after.sessions)
    ensures Targets(after, p)
  {
  }

  lemma WritingStays(db: Db, p: Pending)
    requires Targets(db, p)
    ensures Stays(db.sessions, Written(db, p).sessions) && |Written(db, p).sessions| == |db.sessions|
  {
  }

  lemma ReadingTargets(db: Db, r: Reading)
    ensures Read(db, r).Some? ==> Targets(db, Read(db, r).value)
  {
    hide G.Evaluate, DecisionFor;
    if r.ReadExpiring? {
      var ids := OverdueIds(db.sessions, r.now);
      forall id | id in ids ensures db.sessions[id].deviceId in DevicesOf(db.sessions, ids) {
      }
    }
  }

  /** Sessions that stay and do not multiply keep the two uniqueness invariants. */
  lemma StayingKeepsOnePer(before: seq<Session>, after: seq<Session>)
    requires Stays(before, after) && |after| == |before| && OnePerDevice(before) && OnePerUser(before)
    ensures OnePerDevice(after) && OnePerUser(after)
  {
    assert forall id :: IsActive(after, id) ==> IsActive(before, id);
  }

  lemma CallKeepsOnePer(db: Db, call: Call)
    requires OnePerDevice(db.sessions) && OnePerUser(db.sessions)
    ensures OnePerDevice(Apply(db, call).sessions) && OnePerUser(Apply(db, call).sessions)
    ensures Stays(db.sessions, Apply(db, call).sessions)
  {
    hide G.Evaluate;
    StepFollows(db, call);
    // The two invariants do not look at phones: with all of them locked the whole invariant holds.
    var calm := Db(db.sessions, SetState(db.devices, db.devices.Keys, Locked));
    assert Inv(calm);
    StepKeepsInv(calm, call);
    SameSessions(db, calm, call);
  }

  lemma SameSessions(a: Db, b: Db, call: Call)
    requires a.sessions == b.sessions && a.devices.Keys == b.devices.Keys
    ensures Apply(a, call).sessions == Apply(b, call).sessions
  {
    hide G.Evaluate;
  }

  lemma ActKeepsSteady(m: Machine, step: Step)
    requires Steady(m)
    ensures Steady(Act(m, step))
  {
    hide Apply, Read, Written, OnePerDevice, OnePerUser, Targets, Stays;
    var after := Act(m, step);
    match step
    case Atomic(call) =>
      CallKeepsOnePer(m.db, call);
      forall k | 0 <= k < |m.pending| ensures Targets(after.db, m.pending[k]) {
        StaysTargeted(m.db, after.db, m.pending[k]);
      }
    case Begin(r) => ReadingTargets(m.db, r);
    case Finish(k) =>
      if k < |m.pending| {
        WritingStays(m.db, m.pending[k]);
        StayingKeepsOnePer(m.db.sessions, after.db.sessions);
        forall j | 0 <= j < |m.pending| ensures Targets(after.db, m.pending[j]) {
          StaysTargeted(m.db, after.db, m.pending[j]);
        }
      }
  }

  lemma {:induction false} RunKeepsSteady(m: Machine, steps: seq<Step>)
    requires Steady(m)
    ensures Steady(RunSteps(m, steps))
    decreases |steps|
  {
    hide Act, Steady;
    if steps != [] {
      ActKeepsSteady(m, steps[0]);
      RunKeepsSteady(Act(m, steps[0]), steps[1..]);
    }
  }

  /**
   * Under any interleaving of calls, readings and writings: at most one open session
   * per phone and per driver, and every writing finds the session it read, on the same phone.
   */
  lemma EveryInterleaving(steps: seq<Step>)
    ensures Steady(RunSteps(Machine(START, []), steps))
  {
    RunKeepsSteady(Machine(START, []), steps);
  }

  // ------------------------------------------------------------------------
  //  Agreement of phones and sessions
  // ------------------------------------------------------------------------

  /**
   * A late crossing keeps the whole invariant exactly when every other open session
   * of the phone already has the state it writes.
   */
  lemma CrossingKeepsInvExactly(db: Db, id: nat, deviceId: nat, decision: G.Decision, at: int)
    requires Inv(db) && id < |db.sessions| && db.sessions[id].deviceId == deviceId && deviceId in db.devices
    ensures Inv(Written(db, Crossing(id, deviceId, decision, at))) <==>
      forall other :: other != id && IsActive(db.sessions, other) && db.sessions[other].deviceId == deviceId ==>
        db.sessions[other].state == decision.next
  {
    var p := Crossing(id, deviceId, decision, at);
    var after := Written(db, p);
    WritingStays(db, p);
    StayingKeepsOnePer(db.sessions, after.sessions);
    forall k | IsActive(after.sessions, k) && (db.sessions[k].deviceId != deviceId || k == id)
      ensures Agrees(after.sessions[k], after.devices)
    {
      assert Agrees(db.sessions[k], db.devices);
    }
    forall k | k != id && IsActive(db.sessions, k) && db.sessions[k].deviceId == deviceId
      ensures IsActive(after.sessions, k)
      ensures Agrees(after.sessions[k], after.devices) <==> db.sessions[k].state == decision.next
    {
    }
  }

  /** Late ends and expiries always keep it: they show the phone as locked. */
  lemma ClosingLateKeepsInv(db: Db, p: Pending)
    requires Inv(db) && Targets(db, p) && !p.Crossing?
    ensures Inv(Written(db, p))
  {
    var after := Written(db, p);
    WritingStays(db, p);
    StayingKeepsOnePer(db.sessions, after.sessions);
    forall id | IsActive(after.sessions, id) ensures Agrees(after.sessions[id], after.devices) {
      assert Agrees(db.sessions[id], db.devices);
    }
  }

  /** Any writing but a crossing that another open session of the phone contradicts. */
  ghost predicate Harmless(db: Db, p: Pending) {
    p.Crossing? && p.deviceId in db.devices ==> forall other ::
      other != p.id && IsActive(db.sessions, other) && db.sessions[other].deviceId == p.deviceId ==>
        db.sessions[other].state == p.decision.next
  }

  lemma HarmlessExactly(db: Db, p: Pending)
    requires Inv(db) && Targets(db, p)
    ensures Inv(Written(db, p)) <==> Harmless(db, p)
  {
    if !p.Crossing? {
      ClosingLateKeepsInv(db, p);
    } else if p.deviceId in db.devices {
      CrossingKeepsInvExactly(db, p.id, p.deviceId, p.decision, p.at);
    } else {
      WritingStays(db, p);
      StayingKeepsOnePer(db.sessions, Written(db, p).sessions);
      forall k | IsActive(Written(db, p).sessions, k)
        ensures Agrees(Written(db, p).sessions[k], Written(db, p).devices)
      {
        assert Agrees(db.sessions[k], db.devices);
      }
    }
  }

  /** Every writing of the run is harmless when it is made. */
  ghost predicate HarmlessRun(m: Machine, steps: seq<Step>)
    decreases |steps|
  {
    steps == [] || (
      && (steps[0].Finish? && steps[0].k < |m.pending| ==> Harmless(m.db, m.pending[steps[0].k]))
      && HarmlessRun(Act(m, steps[0]), steps[1..]))
  }

  ghost predicate InvThroughout(m: Machine, steps: seq<Step>)
    decreases |steps|
  {
    Inv(m.db) && (steps == [] || InvThroughout(Act(m, steps[0]), steps[1..]))
  }

  lemma ActKeepsInvExactly(m: Machine, step: Step)
    requires Inv(m.db) && Steady(m)
    ensures Inv(Act(m, step).db) <==>
      (step.Finish? && step.k < |m.pending| ==> Harmless(m.db, m.pending[step.k]))
  {
    hide Inv, Steady, Apply, Written, Read, Harmless, Targets, OnePerDevice, OnePerUser;
    if step.Atomic? {
      StepKeepsInv(m.db, step.call);
    } else if step.Finish? && step.k < |m.pending| {
      PendingTargets(m, step.k);
      HarmlessExactly(m.db, m.pending[step.k]);
    }
  }

  /** An interleaving keeps phones and sessions in agreement throughout exactly when all its writings are harmless. */
  lemma {:induction false} InvThroughoutExactly(m: Machine, steps: seq<Step>)
    requires Inv(m.db) && Steady(m)
    ensures InvThroughout(m, steps) <==> HarmlessRun(m, steps)
    decreases |steps|
  {
    hide Inv, Steady, Act, Harmless;
    if steps != [] {
      ActKeepsSteady(m, steps[0]);
      ActKeepsInvExactly(m, steps[0]);
      if Inv(Act(m, steps[0]).db) {
        InvThroughoutExactly(Act(m, steps[0]), steps[1..]);
      }
    }
  }

  lemma PendingTargets(m: Machine, k: nat)
    requires Steady(m) && k < |m.pending|
    ensures Targets(m.db, m.pending[k])
  {
  }

  // ------------------------------------------------------------------------
  //  Closed sessions
  // ------------------------------------------------------------------------

  /** The session already shows what the writing would set. */
  predicate Shows(s: Session, p: Pending) {
    match p
    case Crossing(_, _, decision, at) => s.state == decision.next && (decision.markReturned ==> s.returnedAt == Some(at))
    case Ending(_, _, reason, now) =>
      s.status == EndStatus(reason) && s.endedAt == Some(now) && s.endReason == Some(reason)
    case Expiring(_, _, now) => s.status == Expired && s.endedAt == Some(now) && s.endReason == Some(ReasonExpired)
  }

  predicate Names(p: Pending, id: nat) {
    if p.Expiring? then id in p.ids else p.id == id
  }

  /**
   * A late writing leaves closed sessions as they were exactly when every session it
   * names is still open, or already shows what it writes.
   */
  lemma ClosedForGoodExactly(db: Db, p: Pending)
    requires Targets(db, p)
    ensures (forall id: nat :: id < |db.sessions| && db.sessions[id].status != Active ==>
               Written(db, p).sessions[id] == db.sessions[id])
       <==> (forall id: nat :: id < |db.sessions| && Names(p, id) ==>
               db.sessions[id].status == Active || Shows(db.sessions[id], p))
  {
    var after := Written(db, p);
    forall id: nat | id < |db.sessions| && db.sessions[id].status != Active
      ensures after.sessions[id] == db.sessions[id] <==> (Names(p, id) ==> Shows(db.sessions[id], p))
    {
    }
  }

  // ------------------------------------------------------------------------
  //  Runs that fail
  // ------------------------------------------------------------------------

  const IN_USE := Device(1, InUse, Enrolled, false, false)

  const OPEN := Session(1, 7, 1, Active, G.OnTour, 1000, None, None, None)

  const ONE_OPEN := Db([OPEN], map[7 := IN_USE])

  const TO_RETURNED := G.Decision(G.EnterAfterReturnTime, G.Returned, true, false)

  lemma ThreeSteps(m: Machine, steps: seq<Step>)
    requires |steps| == 3
    ensures RunSteps(m, steps) == Act(Act(Act(m, steps[0]), steps[1]), steps[2])
  {
    hide Act;
    var first := Act(m, steps[0]);
    var second := Act(first, steps[1]);
    assert steps[1..][1..] == [steps[2]] && [steps[2]][1..] == [];
    assert RunSteps(second, [steps[2]]) == RunSteps(Act(second, steps[2]), []);
    assert RunSteps(first, steps[1..]) == RunSteps(second, [steps[2]]);
  }

  /**
   * A crossing decides that the first session has returned, a second driver scans,
   * then the crossing writes: the phone shows "back at the depot" with a session on tour.
   */
  lemma CrossingAfterScanBreaksAgreement(s: S.DepotSchedule, c: G.Crossing)
    requires c.transition == G.Enter && S.IsAfterReturnTime(s, c.at)
    ensures var steps := [Begin(ReadCrossing(7, s, c)), Atomic(ScanCall(7, 2, 1, 10, 2000)), Finish(0)];
      var after := RunSteps(Machine(ONE_OPEN, []), steps).db;
      && Inv(ONE_OPEN) && !Inv(after)
      && 7 in after.devices && after.devices[7].state == BackAtDepot
      && IsActive(after.sessions, 1) && after.sessions[1].state == G.OnTour
  {
    var steps := [Begin(ReadCrossing(7, s, c)), Atomic(ScanCall(7, 2, 1, 10, 2000)), Finish(0)];
    var pending := Crossing(0, 7, TO_RETURNED, c.at);
    var scanned := Apply(ONE_OPEN, ScanCall(7, 2, 1, 10, 2000));
    var after := Written(scanned, pending);
    assert ONE_OPEN.sessions[..0] == [];
    assert ActiveOf(ONE_OPEN.sessions, 7) == Some(0);
    assert Act(Machine(ONE_OPEN, []), steps[0]) == Machine(ONE_OPEN, [pending]);
    assert Act(Machine(ONE_OPEN, [pending]), steps[1]) == Machine(scanned, [pending]);
    assert Act(Machine(scanned, [pending]), steps[2]) == Machine(after, []);
    ThreeSteps(Machine(ONE_OPEN, []), steps);
    assert IsActive(after.sessions, 1) && !Agrees(after.sessions[1], after.devices);
  }

  /** A crossing, an end and an expiry that read the session before it ended each rewrite the closed row. */
  lemma LateWritesChangeAClosedRow()
    ensures var ended := Apply(ONE_OPEN, EndCall(0, AdminLogout, 20));
      && ended.sessions[0].status == Ended
      && Written(ended, Crossing(0, 7, TO_RETURNED, 5)).sessions[0].state == G.Returned != ended.sessions[0].state
      && Written(ended, Ending(0, 7, ReasonRevoked, 30)).sessions[0].status == Revoked
      && Written(ended, Expiring({0}, {7}, 2000)).sessions[0].status == Expired
  {
  }
}
