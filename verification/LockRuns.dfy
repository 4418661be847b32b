/**
 * The scheduled lock over whole runs: which lock instants are honoured, how
 * often and when, for any sequence of run instants; then for the runs that the
 * leader election lets through.
 */
module LockRuns {
  import opened Wrappers
  import opened Schedule
  import opened Zones
  import opened LockPlanner
  import C = Commands
  import R = CommandRuns
  import LeaderLock

  /** What happens to the queue: a run of the planner, or any other call. */
  datatype Event = Planner(now: int) | Other(call: R.Call)

  /** Only the planner writes the keys of scheduled locks. */
  predicate OwnKeys(events: seq<Event>) {
    forall i :: 0 <= i < |events| && events[i].Other? ==> Ordinary(events[i].call)
  }

  predicate Ordinary(call: R.Call) {
    call.EnqueueCall? && call.request.key.Some? ==> !call.request.key.value.ScheduledLock?
  }

  function Called(rows: C.Table, call: R.Call): C.Table {
    R.Step(R.History(rows, multiset{}, []), call).rows
  }

  /** The table after the events, from an empty one. */
  function AfterEvents(fleet: Fleet, events: seq<Event>): C.Table {
    if events == [] then []
    else
      var last := |events| - 1;
      var before := AfterEvents(fleet, events[..last]);
      match events[last]
      case Planner(now) => HandledDepots(before, fleet.depots, fleet.devices, now)
      case Other(call) => Called(before, call)
  }

  /** The instants of the planner's runs. */
  function Times(events: seq<Event>): seq<int> {
    if events == [] then []
    else
      var last := |events| - 1;
      Times(events[..last]) + (if events[last].Planner? then [events[last].now] else [])
  }

  /** A run at `now` acts on this phone of this depot, for this lock instant. */
  ghost predicate Acts(depot: Depot, device: Device, deviceId: nat, lock: int, now: int) {
    Scheduled(depot) && Targeted(device, depot) && device.id == deviceId && Due(depot.schedule, now) == Some(lock)
  }

  ghost predicate Fires(depots: seq<Depot>, devices: seq<Device>, deviceId: nat, lock: int, now: int) {
    exists depot, device :: depot in depots && device in devices && Acts(depot, device, deviceId, lock, now)
  }

  ghost predicate HasLock(rows: C.Table, deviceId: nat, lock: int) {
    C.HasKey(rows, deviceId, C.ScheduledLock(lock))
  }

  /** A command written by a run at `now` for a lock instant it acted on. */
  ghost predicate WrittenBy(c: C.Command, depots: seq<Depot>, devices: seq<Device>, now: int) {
    && c.kind == C.LockDevice && c.createdAt == now && c.expiresAt == now + 43_200_000 && c.priority == 90
    && c.key.Some? && c.key.value.ScheduledLock?
    && Fires(depots, devices, c.deviceId, c.key.value.at, now)
  }

  lemma EnqueuedKeys(rows: C.Table, q: C.Request, now: int, deviceId: nat, lock: int)
    requires q.key.Some?
    ensures HasLock(C.Enqueued(rows, q, now), deviceId, lock)
       <==> HasLock(rows, deviceId, lock) || (q.deviceId == deviceId && q.key.value == C.ScheduledLock(lock))
  {
    var after := C.Enqueued(rows, q, now);
    var key := C.ScheduledLock(lock);
    if after != rows {
      assert forall id: nat :: id < |rows| ==> C.Holds(after, id, deviceId, key) == C.Holds(rows, id, deviceId, key);
      assert C.Holds(after, |rows|, deviceId, key) == (q.deviceId == deviceId && q.key.value == key);
      assert forall id: nat :: C.Holds(after, id, deviceId, key) ==> id <= |rows|;
      if HasLock(rows, deviceId, lock) {
        var id: nat :| C.Holds(rows, id, deviceId, key);
        assert C.Holds(after, id, deviceId, key);
      }
    }
  }

  lemma {:induction false} EnqueueDevicesKeys(
    rows: C.Table, depot: Depot, devices: seq<Device>, due: int, now: int, deviceId: nat, lock: int)
    ensures HasLock(EnqueueDevices(rows, depot, devices, due, now), deviceId, lock)
       <==> HasLock(rows, deviceId, lock)
            || (lock == due && exists device :: device in devices && Targeted(device, depot) && device.id == deviceId)
    decreases |devices|
  {
    if devices != [] {
      var device := devices[0];
      var next := if Targeted(device, depot) then C.Enqueued(rows, LockRequest(device, due), now) else rows;
      if Targeted(device, depot) {
        EnqueuedKeys(rows, LockRequest(device, due), now, deviceId, lock);
      }
      EnqueueDevicesKeys(next, depot, devices[1..], due, now, deviceId, lock);
      assert forall d :: d in devices <==> d == device || d in devices[1..];
    }
  }

  lemma {:induction false} HandledDepotsKeys(
    rows: C.Table, depots: seq<Depot>, devices: seq<Device>, now: int, deviceId: nat, lock: int)
    ensures HasLock(HandledDepots(rows, depots, devices, now), deviceId, lock)
       <==> HasLock(rows, deviceId, lock) || Fires(depots, devices, deviceId, lock, now)
    decreases |depots|
  {
    if depots != [] {
      var depot := depots[0];
      var due := Due(depot.schedule, now);
      if Scheduled(depot) && due.Some? {
        EnqueueDevicesKeys(rows, depot, devices, due.value, now, deviceId, lock);
      }
      HandledDepotsKeys(HandledDepot(rows, depot, devices, now), depots[1..], devices, now, deviceId, lock);
      FiresFirstOrRest(depots, devices, deviceId, lock, now);
    }
  }

  lemma FiresFirstOrRest(depots: seq<Depot>, devices: seq<Device>, deviceId: nat, lock: int, now: int)
    requires depots != []
    ensures Fires(depots, devices, deviceId, lock, now) <==>
      (exists device :: device in devices && Acts(depots[0], device, deviceId, lock, now))
      || Fires(depots[1..], devices, deviceId, lock, now)
  {
  }

  /** Some run of the list acted on the phone for the lock instant. */
  ghost predicate FiredIn(fleet: Fleet, ts: seq<int>, deviceId: nat, lock: int) {
    exists now :: now in ts && Fires(fleet.depots, fleet.devices, deviceId, lock, now)
  }

  lemma FiredByOneMore(fleet: Fleet, ts: seq<int>, now: int, deviceId: nat, lock: int)
    ensures FiredIn(fleet, ts + [now], deviceId, lock) <==>
      FiredIn(fleet, ts, deviceId, lock) || Fires(fleet.depots, fleet.devices, deviceId, lock, now)
  {
    hide Fires;
    assert forall t :: t in ts + [now] <==> t in ts || t == now;
  }

  lemma NothingYet(fleet: Fleet, deviceId: nat, lock: int)
    ensures !HasLock([], deviceId, lock) && !FiredIn(fleet, [], deviceId, lock)
  {
  }

  /** No other call adds, removes or changes the key of a scheduled lock. */
  lemma OthersKeepLocks(rows: C.Table, call: R.Call, deviceId: nat, lock: int)
    requires Ordinary(call)
    ensures HasLock(Called(rows, call), deviceId, lock) <==> HasLock(rows, deviceId, lock)
  {
    hide R.Step;
    var after, key := Called(rows, call), C.ScheduledLock(lock);
    OthersEvolve(rows, call);
    forall id: nat ensures C.Holds(after, id, deviceId, key) <==> C.Holds(rows, id, deviceId, key) {
      assert id < |rows| ==> R.Evolves(rows[id], after[id]);
    }
  }

  lemma OthersEvolve(rows: C.Table, call: R.Call)
    requires Ordinary(call)
    ensures var after := Called(rows, call);
      && |rows| <= |after|
      && (forall id :: 0 <= id < |rows| ==> R.Evolves(rows[id], after[id]))
      && (forall id :: |rows| <= id < |after| ==> after[id].key.None? || !after[id].key.value.ScheduledLock?)
      && (C.UniqueKeys(rows) ==> C.UniqueKeys(after))
  {
    hide C.UniqueKeys;
    var h := R.History(rows, multiset{}, []);
    R.StepGrows(h, call);
    if C.UniqueKeys(rows) {
      R.StepKeepsUniqueKeys(h, call);
    }
  }

  /** A lock command exists exactly when some run fired for it, whatever else the queue is asked. */
  lemma {:induction false} CommandExactlyWhenFired(fleet: Fleet, events: seq<Event>, deviceId: nat, lock: int)
    requires OwnKeys(events)
    ensures HasLock(AfterEvents(fleet, events), deviceId, lock) <==> FiredIn(fleet, Times(events), deviceId, lock)
  {
    hide HasLock, FiredIn, Fires, HandledDepots, Called, Ordinary;
    if events == [] {
      NothingYet(fleet, deviceId, lock);
    } else {
      var last := |events| - 1;
      var before := AfterEvents(fleet, events[..last]);
      CommandExactlyWhenFired(fleet, events[..last], deviceId, lock);
      match events[last]
      case Planner(now) =>
        HandledDepotsKeys(before, fleet.depots, fleet.devices, now, deviceId, lock);
        FiredByOneMore(fleet, Times(events[..last]), now, deviceId, lock);
      case Other(call) =>
        OthersKeepLocks(before, call, deviceId, lock);
        assert Times(events) == Times(events[..last]);
    }
  }

  // ------------------------------------------------------------------------
  //  What the rows are
  // ------------------------------------------------------------------------

  ghost predicate Extends(
    before: C.Table, after: C.Table, depots: seq<Depot>, devices: seq<Device>, now: int)
  {
    && before <= after
    && (C.UniqueKeys(before) ==> C.UniqueKeys(after))
    && forall id :: |before| <= id < |after| ==> WrittenBy(after[id], depots, devices, now)
  }

  lemma {:induction false} EnqueueDevicesExtends(
    rows: C.Table, depots: seq<Depot>, all: seq<Device>, depot: Depot, devices: seq<Device>, due: int, now: int)
    requires depot in depots && Scheduled(depot) && Due(depot.schedule, now) == Some(due)
    requires forall d :: d in devices ==> d in all
    ensures Extends(rows, EnqueueDevices(rows, depot, devices, due, now), depots, all, now)
    decreases |devices|
  {
    if devices != [] {
      var device := devices[0];
      if Targeted(device, depot) {
        assert device in devices;
        assert Acts(depot, device, device.id, due, now);
        var next := C.Enqueued(rows, LockRequest(device, due), now);
        if C.UniqueKeys(rows) {
          C.EnqueueKeepsUniqueKeys(rows, LockRequest(device, due), now);
        }
        assert Extends(rows, next, depots, all, now);
        EnqueueDevicesExtends(next, depots, all, depot, devices[1..], due, now);
      } else {
        EnqueueDevicesExtends(rows, depots, all, depot, devices[1..], due, now);
      }
    }
  }

  lemma {:induction false} HandledDepotsExtends(
    rows: C.Table, all: seq<Depot>, depots: seq<Depot>, devices: seq<Device>, now: int)
    requires forall d :: d in depots ==> d in all
    ensures Extends(rows, HandledDepots(rows, depots, devices, now), all, devices, now)
    decreases |depots|
  {
    if depots != [] {
      var depot := depots[0];
      var due := Due(depot.schedule, now);
      assert depot in depots;
      if Scheduled(depot) && due.Some? {
        EnqueueDevicesExtends(rows, all, devices, depot, devices, due.value, now);
      }
      HandledDepotsExtends(HandledDepot(rows, depot, devices, now), all, depots[1..], devices, now);
    }
  }

  /** The command of a scheduled lock was written by a run at one of the instants. */
  ghost predicate LockWrittenIn(c: C.Command, fleet: Fleet, ts: seq<int>) {
    c.key.Some? && c.key.value.ScheduledLock? ==>
      c.createdAt in ts && WrittenBy(c, fleet.depots, fleet.devices, c.createdAt)
  }

  /** Every lock command was written by one of the runs, and no phone has two for the same lock instant. */
  lemma {:induction false} EveryCommandWasWritten(fleet: Fleet, events: seq<Event>)
    requires OwnKeys(events)
    ensures var rows := AfterEvents(fleet, events);
      && C.UniqueKeys(rows)
      && forall id :: 0 <= id < |rows| ==> LockWrittenIn(rows[id], fleet, Times(events))
  {
    hide HandledDepots, Called, C.UniqueKeys, Fires, Ordinary;
    if events == [] {
      NoKeys();
    } else {
      var last := |events| - 1;
      var before, after := AfterEvents(fleet, events[..last]), AfterEvents(fleet, events);
      EveryCommandWasWritten(fleet, events[..last]);
      match events[last]
      case Planner(now) => HandledDepotsExtends(before, fleet.depots, fleet.depots, fleet.devices, now);
      case Other(call) =>
        OthersEvolve(before, call);
        forall id | 0 <= id < |before| ensures LockWrittenIn(after[id], fleet, Times(events)) {
          assert LockWrittenIn(before[id], fleet, Times(events[..last])) && R.Evolves(before[id], after[id]);
        }
    }
  }

  lemma NoKeys()
    ensures C.UniqueKeys([])
  {
  }

  // ------------------------------------------------------------------------
  //  When a run fires
  // ------------------------------------------------------------------------

  ghost predicate IsLock(s: DepotSchedule, lock: int) {
    exists day :: LockAt(s, day) == Some(lock)
  }

  /** What the time rules need of a depot: a tidy zone, and days longer than the catch-up window. */
  ghost predicate Usable(s: DepotSchedule) {
    Tidy(s) && DaysLast(s, WINDOW)
  }

  /** No lock instant of the window comes before this one. */
  ghost predicate FirstInWindow(s: DepotSchedule, lock: int, now: int) {
    forall other :: IsLock(s, other) && other < lock ==> other + 600_000 <= now
  }

  /** A lock instant of the window is within reach of the horizon. */
  lemma WindowInsideHorizon(s: DepotSchedule, day: int, now: int)
    requires Usable(s) && LockAt(s, day).Some? && LockAt(s, day).value <= now
    ensures day <= OperationalDay(s, now - WINDOW) + HORIZON_DAYS
  {
    var start := OperationalDay(s, now - WINDOW);
    OperationalDaysTileTime(s, now - WINDOW, start);
    LockInsideItsDay(s, day);
    assert DayBegins(s, start + 1 + 1) >= DayBegins(s, start + 1) + WINDOW;
    if day > start + 2 {
      DayBeginningsIncrease(s, start + 2, day);
    }
  }

  /**
   * A run acts on a lock instant exactly when it comes at or after it, less than
   * ten minutes after it, and at least ten minutes after every earlier one.
   */
  lemma DueExactly(s: DepotSchedule, lock: int, now: int)
    requires Usable(s)
    ensures Due(s, now) == Some(lock)
       <==> IsLock(s, lock) && lock <= now < lock + 600_000 && FirstInWindow(s, lock, now)
  {
    var from := now - WINDOW;
    var last := OperationalDay(s, from) + HORIZON_DAYS;
    NextLockIsLeast(s, from);
    forall other | IsLock(s, other) && other <= now ensures IsLockUpTo(s, other, last) {
      var day :| LockAt(s, day) == Some(other);
      WindowInsideHorizon(s, day, now);
    }
    var next := NextLock(s, from);
    if next.Some? {
      assert IsLock(s, next.value);
    }
    if next == Some(lock) && lock <= now {
      forall other | IsLock(s, other) && other < lock ensures other + WINDOW <= now {
        assert IsLockUpTo(s, other, last);
      }
    }
    if IsLock(s, lock) && lock <= now < lock + WINDOW && FirstInWindow(s, lock, now) {
      assert IsLockUpTo(s, lock, last);
    }
  }

  // ------------------------------------------------------------------------
  //  Exactly once
  // ------------------------------------------------------------------------

  /** Instants in order, at most `gap` apart. */
  predicate Spaced(ts: seq<int>, gap: int) {
    forall i :: 0 <= i < |ts| - 1 ==> ts[i] <= ts[i + 1] <= ts[i] + gap
  }

  lemma {:induction false} SomeRunInside(ts: seq<int>, gap: int, start: int) returns (i: nat)
    requires Spaced(ts, gap) && ts != [] && ts[0] <= start <= ts[|ts| - 1] && gap > 0
    ensures i < |ts| && start <= ts[i] < start + gap
  {
    var last := |ts| - 1;
    if last == 0 || ts[last - 1] < start {
      i := last;
    } else {
      assert Spaced(ts[..last], gap);
      i := SomeRunInside(ts[..last], gap, start);
    }
  }

  /** The instant from which a run can act on a lock: its own, or the end of the previous one's window. */
  ghost predicate OpensAt(s: DepotSchedule, lock: int, start: int) {
    lock <= start && FirstInWindow(s, lock, start)
  }

  /** The command is that of the phone for the lock instant. */
  predicate LocksAt(c: C.Command, deviceId: nat, lock: int) {
    c.deviceId == deviceId && c.key == Some(C.ScheduledLock(lock))
  }

  /** The one command of a phone for a lock instant: a lock written in the ten minutes that follow it, for twelve hours. */
  ghost predicate ExactlyOneLock(rows: C.Table, deviceId: nat, lock: int) {
    exists id :: 0 <= id < |rows| && LocksAt(rows[id], deviceId, lock)
      && rows[id].kind == C.LockDevice && lock <= rows[id].createdAt < lock + 600_000
      && rows[id].expiresAt == rows[id].createdAt + 43_200_000 && rows[id].priority == 90
      && forall other :: 0 <= other < |rows| && LocksAt(rows[other], deviceId, lock) ==> other == id
  }

  /** A phone of a working depot that the depot can lock. */
  predicate Enrolled(depot: Depot, device: Device) {
    && depot.active && !depot.deleted
    && device.depotId == depot.id && device.enrolled && !device.deleted && !device.revoked
  }

  /** Every depot of the fleet follows time rules the zone can honour. */
  ghost predicate UsableFleet(fleet: Fleet) {
    forall depot :: depot in fleet.depots ==> Usable(depot.schedule)
  }

  /** The phone is one the depot locks at that instant. */
  ghost predicate Locked(fleet: Fleet, deviceId: nat, lock: int) {
    exists depot, device :: depot in fleet.depots && device in fleet.devices && device.id == deviceId
      && Enrolled(depot, device) && IsLock(depot.schedule, lock)
  }

  lemma WrittenInTime(fleet: Fleet, c: C.Command, ts: seq<int>, deviceId: nat, lock: int)
    requires UsableFleet(fleet) && LockWrittenIn(c, fleet, ts) && LocksAt(c, deviceId, lock)
    ensures c.kind == C.LockDevice && lock <= c.createdAt < lock + 600_000
    ensures c.expiresAt == c.createdAt + 43_200_000 && c.priority == 90 && Locked(fleet, deviceId, lock)
  {
    hide IsLock, FirstInWindow, Usable, Due;
    var depot, device :|
      depot in fleet.depots && device in fleet.devices && Acts(depot, device, deviceId, lock, c.createdAt);
    DueExactly(depot.schedule, lock, c.createdAt);
    assert Enrolled(depot, device);
  }

  /**
   * Safety, for ANY run instants and any other use of the queue in between: a
   * scheduled lock is never early, never late, never doubled, and never sent to a
   * phone that no working depot locks at that instant.
   */
  lemma LocksAreTimely(fleet: Fleet, events: seq<Event>, deviceId: nat, lock: int)
    requires UsableFleet(fleet) && OwnKeys(events)
    requires HasLock(AfterEvents(fleet, events), deviceId, lock)
    ensures ExactlyOneLock(AfterEvents(fleet, events), deviceId, lock) && Locked(fleet, deviceId, lock)
  {
    var rows := AfterEvents(fleet, events);
    EveryCommandWasWritten(fleet, events);
    var id: nat :| C.Holds(rows, id, deviceId, C.ScheduledLock(lock));
    hide AfterEvents, LockWrittenIn, UsableFleet, OwnKeys, Locked;
    WrittenInTime(fleet, rows[id], Times(events), deviceId, lock);
    forall other | 0 <= other < |rows| && LocksAt(rows[other], deviceId, lock) ensures other == id {
      assert C.Holds(rows, other, deviceId, C.ScheduledLock(lock));
    }
    assert LocksAt(rows[id], deviceId, lock);
  }

  /**
   * Liveness: when runs are at most `gap` apart, `gap` being at most ten minutes
   * and at most the time since the previous lock instant, every enrolled phone
   * gets exactly one command for the lock instant, within ten minutes of it, even
   * while commands are enqueued, pulled, acknowledged and expired.
   */
  lemma EveryLockExactlyOnce(
    fleet: Fleet, events: seq<Event>, gap: int, depot: Depot, device: Device, lock: int)
    requires UsableFleet(fleet) && OwnKeys(events)
    requires depot in fleet.depots && device in fleet.devices && Enrolled(depot, device)
    requires IsLock(depot.schedule, lock)
    requires Spaced(Times(events), gap) && 0 < gap <= 600_000
    requires forall other :: IsLock(depot.schedule, other) && other < lock ==> other + gap <= lock
    requires var ts := Times(events); ts != [] && ts[0] <= lock && lock + 600_000 <= ts[|ts| - 1] + gap
    ensures ExactlyOneLock(AfterEvents(fleet, events), device.id, lock)
  {
    var ts := Times(events);
    var start := lock + WINDOW - gap;
    assert OpensAt(depot.schedule, lock, start);
    var i := SomeRunInside(ts, gap, start);
    DueExactly(depot.schedule, lock, ts[i]);
    assert Acts(depot, device, device.id, lock, ts[i]);
    assert Fires(fleet.depots, fleet.devices, device.id, lock, ts[i]);
    CommandExactlyWhenFired(fleet, events, device.id, lock);
    LocksAreTimely(fleet, events, device.id, lock);
  }

  /** Two lock instants closer than ten minutes and one run: the later one is left to a later run. */
  lemma EarlierLockGoesFirst(s: DepotSchedule, first: int, second: int, now: int)
    requires Usable(s) && IsLock(s, first) && IsLock(s, second)
    requires first < second <= now < first + WINDOW
    ensures Due(s, now) != Some(second)
  {
    DueExactly(s, second, now);
  }

  // ------------------------------------------------------------------------
  //  Together with the leader election
  // ------------------------------------------------------------------------

  lemma ElectedRunsAreSpaced(ticks: seq<int>)
    requires LeaderLock.MinuteTicks(ticks) && LeaderLock.NoMinuteMissed(ticks) && ticks != []
    ensures Spaced(LeaderLock.Runs(None, ticks), LeaderLock.MINUTE + LeaderLock.SKEW)
  {
    LeaderLock.ExactlyOneRunEveryMinute(ticks);
    var runs := LeaderLock.Runs(None, ticks);
    forall i | 0 <= i < |runs| - 1
      ensures runs[i] <= runs[i + 1] <= runs[i] + LeaderLock.MINUTE + LeaderLock.SKEW
    {
      assert LeaderLock.MinuteOf(runs[i + 1]) == LeaderLock.MinuteOf(runs[i]) + 1;
    }
  }

  /**
   * Any number of replicas ticking every minute, less than ten seconds late:
   * every lock instant at least 70 seconds after the previous one gives every
   * enrolled phone exactly one command, within ten minutes.
   */
  lemma ReplicatedPlannerLocksExactlyOnce(
    fleet: Fleet, ticks: seq<int>, events: seq<Event>, depot: Depot, device: Device, lock: int)
    requires LeaderLock.MinuteTicks(ticks) && LeaderLock.NoMinuteMissed(ticks) && ticks != []
    requires UsableFleet(fleet) && OwnKeys(events) && Times(events) == LeaderLock.Runs(None, ticks)
    requires depot in fleet.depots && device in fleet.devices && Enrolled(depot, device)
    requires IsLock(depot.schedule, lock)
    requires forall other :: IsLock(depot.schedule, other) && other < lock ==>
      other + 70_000 <= lock
    requires ticks[0] <= lock && lock + 600_000 <= ticks[|ticks| - 1]
    ensures ExactlyOneLock(AfterEvents(fleet, events), device.id, lock)
  {
    var runs := LeaderLock.Runs(None, ticks);
    ElectedRunsAreSpaced(ticks);
    LeaderLock.ExactlyOneRunEveryMinute(ticks);
    var last := |runs| - 1;
    assert LeaderLock.MinuteOf(runs[last]) == LeaderLock.MinuteOf(ticks[|ticks| - 1]);
    EveryLockExactlyOnce(fleet, events, LeaderLock.MINUTE + LeaderLock.SKEW, depot, device, lock);
  }
}
