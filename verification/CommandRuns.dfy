/** The life of a command over whole runs of the queue's calls. */
module CommandRuns {
  import opened Wrappers
  import opened Commands

  /** The calls that touch the table; `ExpireAll` is the nightly `expireCommands`. */
  datatype Call =
    | EnqueueCall(request: Request, now: int)
    | PullCall(deviceId: nat, now: int)
    | AckCall(deviceId: nat, id: nat, executed: bool)
    | ExpireAll(now: int)

  /** The table, the ids whose side effects were applied, and what was delivered when. */
  datatype History = History(rows: Table, applied: multiset<nat>, delivered: seq<(nat, int)>)

  const START := History([], multiset{}, [])

  function Deliveries(ids: seq<nat>, now: int): (r: seq<(nat, int)>)
    ensures |r| == |ids| && forall i :: 0 <= i < |ids| ==> r[i] == (ids[i], now)
  {
    seq(|ids|, i requires 0 <= i < |ids| => (ids[i], now))
  }

  function Step(h: History, call: Call): History {
    match call
    case EnqueueCall(q, now) => h.(rows := Enqueued(h.rows, q, now))
    case PullCall(deviceId, now) =>
      var purged := ExpireOverdue(h.rows, Some(deviceId), now);
      History(Pulled(h.rows, deviceId, now), h.applied,
              h.delivered + Deliveries(PullIds(purged, deviceId, now), now))
    case AckCall(deviceId, id, executed) =>
      h.(rows := Acknowledged(h.rows, deviceId, id, executed),
         applied := if AckOutcome(h.rows, deviceId, id, executed) == Recorded(true)
                    then h.applied + multiset{id} else h.applied)
    case ExpireAll(now) =>
      h.(rows := ExpireOverdue(h.rows, None, now))
  }

  function Run(h: History, calls: seq<Call>): History
    decreases |calls|
  {
    if calls == [] then h else Run(Step(h, calls[0]), calls[1..])
  }

  /** Side effects were applied once for each executed command, and for no other. */
  ghost predicate EffectsOnce(h: History) {
    forall id: nat :: h.applied[id] == if id < |h.rows| && h.rows[id].status == Executed then 1 else 0
  }

  /** No command was ever handed out past its deadline. */
  ghost predicate DeliveredInTime(h: History) {
    forall i :: 0 <= i < |h.delivered| ==>
      h.delivered[i].0 < |h.rows| && h.delivered[i].1 <= h.rows[h.delivered[i].0].expiresAt
  }

  /** What a call may do to a command already in the table. */
  predicate Evolves(before: Command, after: Command) {
    && after == before.(status := after.status, attempts := after.attempts)
    && (before.status == Executed ==> after.status == Executed && after.attempts == before.attempts)
    && (!InFlight(before) ==> !InFlight(after) && after.attempts == before.attempts)
  }

  ghost predicate Grows(before: History, after: History) {
    && |before.rows| <= |after.rows|
    && before.delivered <= after.delivered
    && forall id :: 0 <= id < |before.rows| ==> Evolves(before.rows[id], after.rows[id])
  }

  lemma SameKeysStayUnique(before: Table, after: Table)
    requires UniqueKeys(before) && |after| == |before|
    requires forall id :: 0 <= id < |before| ==> Evolves(before[id], after[id])
    ensures UniqueKeys(after)
  {
    assert forall id: nat, deviceId: nat, key :: Holds(after, id, deviceId, key) ==> Holds(before, id, deviceId, key);
  }

  /** A pull, seen row by row: expire, then mark the delivered ones, which were all live. */
  lemma PullRowByRow(rows: Table, deviceId: nat, now: int, ids: seq<nat>, id: nat)
    requires ids == PullIds(ExpireOverdue(rows, Some(deviceId), now), deviceId, now)
    requires id < |rows|
    ensures Evolves(rows[id], Pulled(rows, deviceId, now)[id])
    ensures id in ids ==> InFlight(rows[id]) && now <= rows[id].expiresAt
    ensures rows[id].status == Executed <==> Pulled(rows, deviceId, now)[id].status == Executed
  {
    PullDeliversTheFirstFifty(ExpireOverdue(rows, Some(deviceId), now), deviceId, now);
  }

  lemma StepGrows(h: History, call: Call)
    ensures Grows(h, Step(h, call))
  {
    if call.PullCall? {
      var ids := PullIds(ExpireOverdue(h.rows, Some(call.deviceId), call.now), call.deviceId, call.now);
      forall id | 0 <= id < |h.rows| ensures Evolves(h.rows[id], Step(h, call).rows[id]) {
        PullRowByRow(h.rows, call.deviceId, call.now, ids, id);
      }
    }
  }

  lemma StepKeepsUniqueKeys(h: History, call: Call)
    requires UniqueKeys(h.rows)
    ensures UniqueKeys(Step(h, call).rows)
  {
    if call.EnqueueCall? {
      EnqueueKeepsUniqueKeys(h.rows, call.request, call.now);
    } else {
      StepGrows(h, call);
      SameKeysStayUnique(h.rows, Step(h, call).rows);
    }
  }

  lemma StepKeepsEffectsOnce(h: History, call: Call)
    requires EffectsOnce(h)
    ensures EffectsOnce(Step(h, call))
  {
    var after := Step(h, call);
    forall id: nat
      ensures after.applied[id] == if id < |after.rows| && after.rows[id].status == Executed then 1 else 0
    {
      assert h.applied[id] == if id < |h.rows| && h.rows[id].status == Executed then 1 else 0;
      if call.PullCall? && id < |h.rows| {
        var ids := PullIds(ExpireOverdue(h.rows, Some(call.deviceId), call.now), call.deviceId, call.now);
        PullRowByRow(h.rows, call.deviceId, call.now, ids, id);
      }
    }
  }

  lemma StepKeepsDeliveredInTime(h: History, call: Call)
    requires DeliveredInTime(h)
    ensures DeliveredInTime(Step(h, call))
  {
    var after := Step(h, call);
    StepGrows(h, call);
    forall i | 0 <= i < |after.delivered|
      ensures after.delivered[i].0 < |after.rows| && after.delivered[i].1 <= after.rows[after.delivered[i].0].expiresAt
    {
      if i < |h.delivered| {
        assert after.delivered[i] == h.delivered[i];
        assert Evolves(h.rows[h.delivered[i].0], after.rows[h.delivered[i].0]);
      } else {
        PullKeepsDeadlines(h, call.deviceId, call.now, i);
      }
    }
  }

  lemma PullKeepsDeadlines(h: History, deviceId: nat, now: int, i: nat)
    requires |h.delivered| <= i < |Step(h, PullCall(deviceId, now)).delivered|
    ensures var after := Step(h, PullCall(deviceId, now));
      after.delivered[i].0 < |after.rows| && after.delivered[i].1 <= after.rows[after.delivered[i].0].expiresAt
  {
    var purged := ExpireOverdue(h.rows, Some(deviceId), now);
    var ids := PullIds(purged, deviceId, now);
    PullDeliversTheFirstFifty(purged, deviceId, now);
    var id := ids[i - |h.delivered|];
    assert id in ids;
    PullRowByRow(h.rows, deviceId, now, ids, id);
  }

  lemma GrowsTransitive(a: History, b: History, c: History)
    requires Grows(a, b) && Grows(b, c)
    ensures Grows(a, c)
  {
  }

  lemma {:induction false} RunGrows(h: History, calls: seq<Call>)
    ensures Grows(h, Run(h, calls))
    decreases |calls|
  {
    if calls != [] {
      var next := Step(h, calls[0]);
      StepGrows(h, calls[0]);
      RunGrows(next, calls[1..]);
      GrowsTransitive(h, next, Run(next, calls[1..]));
    }
  }

  ghost predicate Sound(h: History) {
    EffectsOnce(h) && DeliveredInTime(h) && UniqueKeys(h.rows)
  }

  lemma StepKeepsSound(h: History, call: Call)
    requires Sound(h)
    ensures Sound(Step(h, call))
  {
    StepKeepsUniqueKeys(h, call);
    StepKeepsEffectsOnce(h, call);
    StepKeepsDeliveredInTime(h, call);
  }

  lemma {:induction false} RunKeepsSound(h: History, calls: seq<Call>)
    requires Sound(h)
    ensures Sound(Run(h, calls))
    decreases |calls|
  {
    if calls != [] {
      StepKeepsSound(h, calls[0]);
      RunKeepsSound(Step(h, calls[0]), calls[1..]);
    }
  }

  /**
   * Over any run, whatever acknowledgements are replayed or arrive late: side
   * effects are applied exactly once per command that becomes EXECUTED, no
   * command is delivered past its deadline, and no two share an idempotency key.
   */
  lemma EveryRunIsSound(calls: seq<Call>)
    ensures var end := Run(START, calls);
      EffectsOnce(end) && DeliveredInTime(end) && UniqueKeys(end.rows)
  {
    RunKeepsSound(START, calls);
  }

  lemma {:induction false} RunConcat(h: History, calls: seq<Call>, more: seq<Call>)
    ensures Run(h, calls + more) == Run(Run(h, calls), more)
    decreases |calls|
  {
    if calls == [] {
      assert calls + more == more;
    } else {
      assert (calls + more)[1..] == calls[1..] + more;
      RunConcat(Step(h, calls[0]), calls[1..], more);
    }
  }

  /**
   * EXECUTED is absorbing, and a command that is neither pending nor sent is
   * never handed out again: its status may only be settled by a late acknowledgement.
   */
  lemma SettledForGood(calls: seq<Call>, more: seq<Call>, id: nat)
    requires id < |Run(START, calls).rows| && !InFlight(Run(START, calls).rows[id])
    ensures var c := Run(START, calls).rows[id];
      var later := Run(START, calls + more).rows;
      && id < |later| && !InFlight(later[id]) && later[id].attempts == c.attempts
      && (c.status == Executed ==> later[id] == c)
  {
    RunConcat(START, calls, more);
    RunGrows(Run(START, calls), more);
  }

  /** A late acknowledgement does turn an expired command into an executed one, side effects included. */
  lemma LateAckExecutesExpired(h: History, deviceId: nat, id: nat)
    requires Known(h.rows, deviceId, id) && h.rows[id].status in {Expired, Failed, Cancelled}
    ensures var end := Step(h, AckCall(deviceId, id, true));
      end.rows[id].status == Executed && end.applied == h.applied + multiset{id}
  {
  }
}
