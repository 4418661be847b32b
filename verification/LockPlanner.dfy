/**
 * The scheduled lock ("22h rule"): a job that runs about every minute, looks ten
 * minutes back and enqueues one idempotent LOCK_DEVICE command per enrolled phone
 * (apps/api/src/worker/lock-scheduler.job.ts).
 */
module LockPlanner {
  import opened Wrappers
  import opened Schedule
  import C = Commands

  const WINDOW := 10 * MINUTE
  const LOCK_TTL_MINUTES := 720
  const LOCK_PRIORITY := 90

  datatype Depot = Depot(id: nat, active: bool, deleted: bool, schedule: DepotSchedule)

  datatype Device = Device(id: nat, depotId: nat, enrolled: bool, deleted: bool, revoked: bool)

  /** The depots and phones the job reads; fixed while a run sequence is studied. */
  datatype Fleet = Fleet(depots: seq<Depot>, devices: seq<Device>)

  predicate Scheduled(depot: Depot) {
    depot.active && !depot.deleted
  }

  predicate Targeted(device: Device, depot: Depot) {
    device.depotId == depot.id && device.enrolled && !device.deleted && !device.revoked
  }

  /** The lock instant a run at `now` must act on for this depot. */
  function Due(schedule: DepotSchedule, now: int): Option<int> {
    var due := NextLock(schedule, now - WINDOW);
    if due.Some? && due.value <= now then due else None
  }

  function LockRequest(device: Device, due: int): C.Request {
    C.Request(device.id, C.LockDevice, Some(C.ScheduledLock(due)), Some(LOCK_TTL_MINUTES), Some(LOCK_PRIORITY))
  }

  function EnqueueDevices(rows: C.Table, depot: Depot, devices: seq<Device>, due: int, now: int): C.Table
    decreases |devices|
  {
    if devices == [] then rows
    else
      var rest := devices[1..];
      if Targeted(devices[0], depot)
      then EnqueueDevices(C.Enqueued(rows, LockRequest(devices[0], due), now), depot, rest, due, now)
      else EnqueueDevices(rows, depot, rest, due, now)
  }

  function HandledDepot(rows: C.Table, depot: Depot, devices: seq<Device>, now: int): C.Table {
    var due := Due(depot.schedule, now);
    if Scheduled(depot) && due.Some? then EnqueueDevices(rows, depot, devices, due.value, now) else rows
  }

  function HandledDepots(rows: C.Table, depots: seq<Depot>, devices: seq<Device>, now: int): C.Table
    decreases |depots|
  {
    if depots == [] then rows
    else HandledDepots(HandledDepot(rows, depots[0], devices, now), depots[1..], devices, now)
  }

  class LockScheduler {
    const queue: C.CommandQueue

    constructor (queue: C.CommandQueue)
      ensures this.queue == queue
    {
      this.queue := queue;
    }

    /** The lock part of `run`. */
    method Run(fleet: Fleet, now: int)
      modifies queue
      ensures queue.rows == HandledDepots(old(queue.rows), fleet.depots, fleet.devices, now)
    {
      var i := 0;
      while i < |fleet.depots|
        invariant 0 <= i <= |fleet.depots|
        invariant HandledDepots(old(queue.rows), fleet.depots, fleet.devices, now)
               == HandledDepots(queue.rows, fleet.depots[i..], fleet.devices, now)
      {
        var depot := fleet.depots[i];
        assert fleet.depots[i..][1..] == fleet.depots[i + 1..];
        if depot.active && !depot.deleted {
          HandleDepot(depot, fleet.devices, now);
        }
        i := i + 1;
      }
    }

    method HandleDepot(depot: Depot, devices: seq<Device>, now: int)
      requires Scheduled(depot)
      modifies queue
      ensures queue.rows == HandledDepot(old(queue.rows), depot, devices, now)
    {
      var windowStart := now - WINDOW;
      var due := NextLockInstant(depot.schedule, windowStart);
      if due.None? || due.value > now {
        return;
      }
      var i := 0;
      while i < |devices|
        invariant 0 <= i <= |devices|
        invariant EnqueueDevices(old(queue.rows), depot, devices, due.value, now)
               == EnqueueDevices(queue.rows, depot, devices[i..], due.value, now)
      {
        assert devices[i..][1..] == devices[i + 1..];
        if Targeted(devices[i], depot) {
          var _ := queue.Enqueue(LockRequest(devices[i], due.value), now);
        }
        i := i + 1;
      }
    }
  }
}
