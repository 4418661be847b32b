/**
 * The server-to-phone command queue (apps/api/src/devices/commands.service.ts).
 * The table is a sequence in creation order; a command's id is its position.
 */
module Commands {
  import opened Wrappers

  const MINUTE := 60_000
  const DEFAULT_TTL_MINUTES := 720
  const PULL_LIMIT := 50

  datatype CommandKind =
    LockDevice | UnlockDevice | ForceLogout | RevokeSession | WipeDevice | OtherCommand

  datatype CommandStatus = Pending | Sent | Delivered | Executed | Failed | Expired | Cancelled

  /** The idempotency keys the server writes, and any other one. */
  datatype Key =
    | ScheduledLock(at: int)
    | SessionExpired(sessionId: nat)
    | OfflineRevalidation(sessionId: nat)
    | CustomKey(text: string)

  datatype Command = Command(
    deviceId: nat, kind: CommandKind, key: Option<Key>, priority: int,
    createdAt: int, expiresAt: int, status: CommandStatus, attempts: nat)

  type Table = seq<Command>

  function DefaultPriority(kind: CommandKind): int {
    match kind
    case WipeDevice | RevokeSession | ForceLogout => 100
    case LockDevice => 90
    case UnlockDevice => 80
    case OtherCommand => 10
  }

  // ------------------------------------------------------------------------
  //  Enqueue
  // ------------------------------------------------------------------------

  predicate Holds(rows: Table, id: nat, deviceId: nat, key: Key) {
    id < |rows| && rows[id].deviceId == deviceId && rows[id].key == Some(key)
  }

  ghost predicate HasKey(rows: Table, deviceId: nat, key: Key) {
    exists id: nat :: Holds(rows, id, deviceId, key)
  }

  /** The partial unique index on (device_id, idempotency_key). */
  ghost predicate UniqueKeys(rows: Table) {
    forall a: nat, b: nat, deviceId: nat, key ::
      Holds(rows, a, deviceId, key) && Holds(rows, b, deviceId, key) ==> a == b
  }

  /** `findFirst` on the idempotency key. */
  function FindKey(rows: Table, deviceId: nat, key: Key): (r: Option<nat>)
    ensures r.None? <==> !HasKey(rows, deviceId, key)
    ensures r.Some? ==> Holds(rows, r.value, deviceId, key)
  {
    if rows == [] then None
    else
      var last := |rows| - 1;
      var earlier := FindKey(rows[..last], deviceId, key);
      assert forall id: nat :: id < last ==> Holds(rows[..last], id, deviceId, key) == Holds(rows, id, deviceId, key);
      assert forall id: nat :: Holds(rows, id, deviceId, key) ==> id <= last;
      if earlier.Some? then earlier
      else if Holds(rows, last, deviceId, key) then Some(last)
      else None
  }

  datatype Request = Request(
    deviceId: nat, kind: CommandKind, key: Option<Key>, ttlMinutes: Option<nat>, priority: Option<int>)

  function NewCommand(q: Request, now: int): Command {
    var ttl := if q.ttlMinutes.Some? then q.ttlMinutes.value else DEFAULT_TTL_MINUTES;
    var priority := if q.priority.Some? then q.priority.value else DefaultPriority(q.kind);
    Command(q.deviceId, q.kind, q.key, priority, now, now + ttl * MINUTE, Pending, 0)
  }

  /**
   * A new command is pending, not yet attempted, and lives twelve hours unless the
   * request says otherwise; by default a wipe, a revocation or a logout goes first, then
   * a lock, then an unlock, and anything else last.
   */
  lemma NewCommandExactly(q: Request, now: int)
    ensures var c := NewCommand(q, now);
      && c == Command(q.deviceId, q.kind, q.key, c.priority, now, c.expiresAt, Pending, 0)
      && (q.ttlMinutes.Some? ==> c.expiresAt == now + 60_000 * q.ttlMinutes.value)
      && (q.ttlMinutes.None? ==> c.expiresAt == now + 43_200_000)
      && (q.priority.Some? ==> c.priority == q.priority.value)
      && (q.priority.None? ==>
            (c.priority == 100 <==> q.kind in {WipeDevice, RevokeSession, ForceLogout})
            && (c.priority == 90 <==> q.kind == LockDevice) && (c.priority == 80 <==> q.kind == UnlockDevice)
            && (c.priority == 10 <==> q.kind == OtherCommand))
  {
  }

  /** A request whose key is already in the table changes nothing. */
  function Enqueued(rows: Table, q: Request, now: int): Table {
    if q.key.Some? && FindKey(rows, q.deviceId, q.key.value).Some? then rows
    else rows + [NewCommand(q, now)]
  }

  lemma EnqueueKeepsUniqueKeys(rows: Table, q: Request, now: int)
    requires UniqueKeys(rows)
    ensures UniqueKeys(Enqueued(rows, q, now))
    ensures q.key.Some? ==> HasKey(Enqueued(rows, q, now), q.deviceId, q.key.value)
    ensures rows <= Enqueued(rows, q, now)
  {
    var after := Enqueued(rows, q, now);
    if after != rows {
      forall a: nat, b: nat, deviceId: nat, key | Holds(after, a, deviceId, key) && Holds(after, b, deviceId, key)
        ensures a == b
      {
        assert a < |rows| ==> Holds(rows, a, deviceId, key);
        assert b < |rows| ==> Holds(rows, b, deviceId, key);
      }
      if q.key.Some? {
        assert Holds(after, |rows|, q.deviceId, q.key.value);
      }
    }
  }

  // ------------------------------------------------------------------------
  //  Delivery
  // ------------------------------------------------------------------------

  predicate InFlight(c: Command) {
    c.status == Pending || c.status == Sent
  }

  predicate Deliverable(c: Command, deviceId: nat, now: int) {
    c.deviceId == deviceId && InFlight(c) && c.expiresAt >= now
  }

  /** What the purge selects: of one device before a pull, of all of them at night. */
  predicate Overdue(c: Command, device: Option<nat>, now: int) {
    InFlight(c) && c.expiresAt < now && (device.Some? ==> c.deviceId == device.value)
  }

  /** `updateMany` to EXPIRED. */
  function ExpireOverdue(rows: Table, device: Option<nat>, now: int): (r: Table)
    ensures |r| == |rows|
    ensures forall id :: 0 <= id < |rows| ==>
      r[id] == if Overdue(rows[id], device, now) then rows[id].(status := Expired) else rows[id]
  {
    seq(|rows|, id requires 0 <= id < |rows| =>
      if Overdue(rows[id], device, now) then rows[id].(status := Expired) else rows[id])
  }

  function MarkSent(rows: Table, ids: seq<nat>): (r: Table)
    ensures |r| == |rows|
    ensures forall id :: 0 <= id < |rows| ==>
      r[id] == if id in ids then rows[id].(status := Sent, attempts := rows[id].attempts + 1) else rows[id]
  {
    seq(|rows|, id requires 0 <= id < |rows| =>
      if id in ids then rows[id].(status := Sent, attempts := rows[id].attempts + 1) else rows[id])
  }

  /** Priority descending, then creation ascending. */
  predicate Before(a: Command, b: Command) {
    a.priority > b.priority || (a.priority == b.priority && a.createdAt <= b.createdAt)
  }

  predicate ValidIds(rows: Table, ids: seq<nat>) {
    forall i :: 0 <= i < |ids| ==> ids[i] < |rows|
  }

  ghost predicate Distinct(ids: seq<nat>) {
    forall i, j :: 0 <= i < j < |ids| ==> ids[i] != ids[j]
  }

  ghost predicate Ranked(rows: Table, ids: seq<nat>)
    requires ValidIds(rows, ids)
  {
    forall i, j :: 0 <= i < j < |ids| ==> Before(rows[ids[i]], rows[ids[j]])
  }

  /** Where `orderBy` puts one more row: after the rows that do not rank behind it. */
  function Rank(rows: Table, id: nat, ids: seq<nat>): (r: seq<nat>)
    requires id < |rows| && ValidIds(rows, ids)
    ensures ValidIds(rows, r) && |r| == |ids| + 1
    ensures forall x :: x in r <==> x == id || x in ids
  {
    if ids == [] then [id]
    else if !Before(rows[ids[0]], rows[id]) then [id] + ids
    else [ids[0]] + Rank(rows, id, ids[1..])
  }

  lemma NothingIsRanked(rows: Table)
    ensures Ranked(rows, []) && Distinct([])
  {
  }

  lemma ConsRanked(rows: Table, x: nat, r: seq<nat>)
    requires x < |rows| && ValidIds(rows, r) && Ranked(rows, r) && Distinct(r)
    requires forall j :: 0 <= j < |r| ==> Before(rows[x], rows[r[j]]) && x != r[j]
    ensures Ranked(rows, [x] + r) && Distinct([x] + r)
  {
  }

  lemma UnconsRanked(rows: Table, ids: seq<nat>)
    requires ids != [] && ValidIds(rows, ids) && Ranked(rows, ids) && Distinct(ids)
    ensures Ranked(rows, ids[1..]) && Distinct(ids[1..])
    ensures forall j :: 0 <= j < |ids[1..]| ==> Before(rows[ids[0]], rows[ids[1..][j]]) && ids[0] != ids[1..][j]
  {
  }

  lemma {:induction false} RankKeepsOrder(rows: Table, id: nat, ids: seq<nat>)
    requires id < |rows| && ValidIds(rows, ids) && Ranked(rows, ids) && Distinct(ids) && id !in ids
    ensures Ranked(rows, Rank(rows, id, ids)) && Distinct(Rank(rows, id, ids))
  {
    hide Ranked, Distinct;
    if ids == [] {
      NothingIsRanked(rows);
      ConsRanked(rows, id, []);
      assert [id] == [id] + [];
    } else {
      UnconsRanked(rows, ids);
      assert [ids[0]] + ids[1..] == ids;
      if Before(rows[ids[0]], rows[id]) {
        var r := Rank(rows, id, ids[1..]);
        RankKeepsOrder(rows, id, ids[1..]);
        forall j | 0 <= j < |r| ensures Before(rows[ids[0]], rows[r[j]]) && ids[0] != r[j] {
          assert r[j] == id || r[j] in ids[1..];
        }
        ConsRanked(rows, ids[0], r);
      } else {
        forall j | 0 <= j < |ids| ensures Before(rows[id], rows[ids[j]]) {
          if j > 0 {
            assert Before(rows[ids[0]], rows[ids[1..][j - 1]]);
          }
        }
        ConsRanked(rows, id, ids);
      }
    }
  }

  /** Every deliverable command of the device among the first `n`, ranked. */
  function RankedLive(rows: Table, deviceId: nat, now: int, n: nat): (r: seq<nat>)
    requires n <= |rows|
    ensures ValidIds(rows, r)
  {
    if n == 0 then []
    else
      var earlier := RankedLive(rows, deviceId, now, n - 1);
      if Deliverable(rows[n - 1], deviceId, now) then Rank(rows, n - 1, earlier) else earlier
  }

  lemma {:induction false} RankedLiveIsRanked(rows: Table, deviceId: nat, now: int, n: nat)
    requires n <= |rows|
    ensures var r := RankedLive(rows, deviceId, now, n);
      && Ranked(rows, r) && Distinct(r)
      && forall id :: id in r <==> 0 <= id < n && Deliverable(rows[id], deviceId, now)
  {
    hide Rank, Before, Deliverable, Ranked, Distinct;
    if n == 0 {
      NothingIsRanked(rows);
    } else {
      RankedLiveIsRanked(rows, deviceId, now, n - 1);
      var earlier := RankedLive(rows, deviceId, now, n - 1);
      if Deliverable(rows[n - 1], deviceId, now) {
        RankKeepsOrder(rows, n - 1, earlier);
      }
    }
  }

  function Take(ids: seq<nat>, limit: nat): seq<nat> {
    if |ids| <= limit then ids else ids[..limit]
  }

  /** What a pull delivers, read before the delivered rows are marked. */
  function PullIds(rows: Table, deviceId: nat, now: int): seq<nat> {
    Take(RankedLive(rows, deviceId, now, |rows|), PULL_LIMIT)
  }

  /** The table after a pull: overdue commands expired first, then the delivered ones marked. */
  function Pulled(rows: Table, deviceId: nat, now: int): Table {
    var purged := ExpireOverdue(rows, Some(deviceId), now);
    MarkSent(purged, PullIds(purged, deviceId, now))
  }

  /**
   * A pull delivers the first fifty live commands of the device in rank order:
   * none expired, none twice, and none kept back that ranks before a delivered one.
   */
  lemma PullDeliversTheFirstFifty(rows: Table, deviceId: nat, now: int)
    ensures var ids := PullIds(rows, deviceId, now);
      && ValidIds(rows, ids) && Distinct(ids) && Ranked(rows, ids) && |ids| <= PULL_LIMIT
      && (forall id :: id in ids ==> Deliverable(rows[id], deviceId, now))
      && (forall id :: 0 <= id < |rows| && Deliverable(rows[id], deviceId, now) && id !in ids ==>
            |ids| == PULL_LIMIT && forall sent :: sent in ids ==> Before(rows[sent], rows[id]))
  {
    hide Before, Deliverable;
    RankedLiveIsRanked(rows, deviceId, now, |rows|);
    var all := RankedLive(rows, deviceId, now, |rows|);
    var ids := PullIds(rows, deviceId, now);
    forall id, sent | 0 <= id < |rows| && Deliverable(rows[id], deviceId, now) && id !in ids && sent in ids
      ensures Before(rows[sent], rows[id])
    {
      assert id in all;
      var j :| 0 <= j < |all| && all[j] == id;
      var i :| 0 <= i < |ids| && ids[i] == sent;
      assert all[i] == sent && i < j;
    }
    forall id | 0 <= id < |rows| && Deliverable(rows[id], deviceId, now) && id !in ids
      ensures |ids| == PULL_LIMIT
    {
      assert id in all;
    }
  }

  /** The rows read, in that order. */
  function RowsAt(rows: Table, ids: seq<nat>): (r: seq<Command>)
    requires ValidIds(rows, ids)
    ensures |r| == |ids| && forall i :: 0 <= i < |ids| ==> r[i] == rows[ids[i]]
  {
    seq(|ids|, i requires 0 <= i < |ids| && ids[i] < |rows| => rows[ids[i]])
  }

  /** What a pull answers: the rows it delivers, as they were before they were marked. */
  function PullAnswer(rows: Table, deviceId: nat, now: int): seq<Command> {
    var purged := ExpireOverdue(rows, Some(deviceId), now);
    RowsAt(purged, PullIds(purged, deviceId, now))
  }

  /** A command of the phone that can still be delivered. */
  predicate Live(c: Command, deviceId: nat, now: int) {
    c.deviceId == deviceId && c.status in {Pending, Sent} && now <= c.expiresAt
  }

  function LiveIds(rows: Table, deviceId: nat, now: int): (r: set<nat>)
    ensures forall id: nat :: id in r <==> id < |rows| && Live(rows[id], deviceId, now)
  {
    set id: nat | id < |rows| && Live(rows[id], deviceId, now)
  }

  function IdSet(ids: seq<nat>): set<nat> {
    set id | id in ids
  }

  lemma {:induction false} DistinctCount(ids: seq<nat>)
    requires Distinct(ids)
    ensures |IdSet(ids)| == |ids|
  {
    if ids != [] {
      var last := |ids| - 1;
      DistinctCount(ids[..last]);
      assert IdSet(ids) == IdSet(ids[..last]) + {ids[last]};
    }
  }

  /** Commands that can be delivered no longer, of this phone. */
  predicate Stale(c: Command, deviceId: nat, now: int) {
    c.deviceId == deviceId && c.status in {Pending, Sent} && c.expiresAt < now
  }

  /**
   * A pull answers fifty of the phone's live commands, or all of them if there are
   * fewer, each once, by decreasing priority then increasing date; those it keeps back
   * rank after all it answers. Exactly the commands answered become sent, with one
   * more attempt; exactly the phone's stale ones expire; nothing else changes.
   */
  lemma PullAnswersExactly(rows: Table, deviceId: nat, now: int) returns (ids: seq<nat>)
    ensures ValidIds(rows, ids) && Distinct(ids)
    ensures PullAnswer(rows, deviceId, now) == RowsAt(rows, ids)
    ensures forall id :: id in ids ==> id in LiveIds(rows, deviceId, now)
    ensures |ids| == if |LiveIds(rows, deviceId, now)| < 50 then |LiveIds(rows, deviceId, now)| else 50
    ensures forall i, j :: 0 <= i < j < |ids| ==>
      var a, b := rows[ids[i]], rows[ids[j]];
      a.priority > b.priority || (a.priority == b.priority && a.createdAt <= b.createdAt)
    ensures forall id, sent :: id in LiveIds(rows, deviceId, now) && id !in ids && sent in ids ==>
      var a, b := rows[sent], rows[id];
      a.priority > b.priority || (a.priority == b.priority && a.createdAt <= b.createdAt)
    ensures var after := Pulled(rows, deviceId, now);
      |after| == |rows| && forall id :: 0 <= id < |rows| ==>
        after[id] == if id in ids then rows[id].(status := Sent, attempts := rows[id].attempts + 1)
                     else if Stale(rows[id], deviceId, now) then rows[id].(status := Expired) else rows[id]
  {
    var purged := ExpireOverdue(rows, Some(deviceId), now);
    ids := PullIds(purged, deviceId, now);
    PullDeliversTheFirstFifty(purged, deviceId, now);
    hide RankedLive, Rank;
    forall id: nat | id < |rows| ensures Deliverable(purged[id], deviceId, now) <==> Live(rows[id], deviceId, now) {
    }
    forall id | id in ids ensures purged[id] == rows[id] && id in LiveIds(rows, deviceId, now) {
      assert Deliverable(purged[id], deviceId, now);
    }
    DistinctCount(ids);
    var live := LiveIds(rows, deviceId, now);
    assert IdSet(ids) <= live;
    SubsetSize(IdSet(ids), live);
    if |ids| < PULL_LIMIT {
      assert IdSet(ids) == live by {
        forall id | id in live ensures id in ids {
          assert Deliverable(purged[id], deviceId, now);
        }
      }
    }
  }

  lemma SubsetSize(a: set<nat>, b: set<nat>)
    requires a <= b
    ensures |a| <= |b|
  {
    assert |b| == |a| + |b - a|;
  }

  // ------------------------------------------------------------------------
  //  Acknowledgement
  // ------------------------------------------------------------------------

  datatype Ack = NotFound | Replayed | Recorded(executed: bool)

  predicate Known(rows: Table, deviceId: nat, id: nat) {
    id < |rows| && rows[id].deviceId == deviceId
  }

  function AckOutcome(rows: Table, deviceId: nat, id: nat, executed: bool): Ack {
    if !Known(rows, deviceId, id) then NotFound
    else if rows[id].status == Executed then Replayed
    else Recorded(executed)
  }

  function Acknowledged(rows: Table, deviceId: nat, id: nat, executed: bool): Table {
    if AckOutcome(rows, deviceId, id, executed).Recorded?
    then rows[id := rows[id].(status := if executed then Executed else Failed)]
    else rows
  }

  // ------------------------------------------------------------------------
  //  The service
  // ------------------------------------------------------------------------

  class CommandQueue {
    var rows: Table

    constructor ()
      ensures rows == []
    {
      rows := [];
    }

    /** `enqueue`, without a concurrent caller. */
    method Enqueue(q: Request, now: int) returns (id: nat)
      modifies this
      ensures rows == Enqueued(old(rows), q, now)
      ensures id < |rows| && rows[id].deviceId == q.deviceId && rows[id].key == q.key
      ensures q.key.None? ==> id == |old(rows)|
      ensures id < |old(rows)| ==> rows == old(rows)
    {
      if q.key.Some? {
        var known := FindKey(rows, q.deviceId, q.key.value);
        if known.Some? {
          return known.value;
        }
      }
      rows := rows + [NewCommand(q, now)];
      id := |rows| - 1;
    }

    /** `pullPending`. */
    method PullPending(deviceId: nat, now: int) returns (commands: seq<Command>)
      modifies this
      ensures rows == Pulled(old(rows), deviceId, now)
      ensures commands == PullAnswer(old(rows), deviceId, now)
      ensures |commands| <= PULL_LIMIT
      ensures forall i :: 0 <= i < |commands| ==> Deliverable(commands[i], deviceId, now)
      ensures forall i, j :: 0 <= i < j < |commands| ==> Before(commands[i], commands[j])
    {
      rows := ExpireOverdue(rows, Some(deviceId), now);
      var ids := PullIds(rows, deviceId, now);
      PullDeliversTheFirstFifty(rows, deviceId, now);
      commands := RowsAt(rows, ids);
      if |ids| > 0 {
        rows := MarkSent(rows, ids);
      }
    }

    /** The command's half of `reportResult`; the caller applies the side effects of `Recorded(true)`. */
    method Acknowledge(deviceId: nat, id: nat, executed: bool) returns (outcome: Ack)
      modifies this
      ensures outcome == AckOutcome(old(rows), deviceId, id, executed)
      ensures rows == Acknowledged(old(rows), deviceId, id, executed)
    {
      if id >= |rows| || rows[id].deviceId != deviceId {
        return NotFound;
      }
      if rows[id].status == Executed {
        return Replayed;
      }
      rows := rows[id := rows[id].(status := if executed then Executed else Failed)];
      outcome := Recorded(executed);
    }
  }
}
