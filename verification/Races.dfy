/**
 * Calls that read outside their write: `refresh` of a token
 * (apps/api/src/auth/admin-auth.service.ts), `reportResult` and `pullPending` of
 * commands (apps/api/src/devices/commands.service.ts). A caller reads that a row is
 * still to be taken, and later takes it without looking again.
 */
module Races {
  import opened Wrappers
  import T = Tokens
  import C = Commands
  import CR = CommandRuns

  // ------------------------------------------------------------------------
  //  The schedules on which several callers act
  // ------------------------------------------------------------------------

  datatype Stage = Reading | Writing | Acted | Refused

  /** One row, taken or not, and where its callers stand. */
  datatype System = System(taken: bool, stages: seq<Stage>)

  function Step(s: System, i: nat): System {
    if i >= |s.stages| then s
    else match s.stages[i]
      case Reading => s.(stages := s.stages[i := if s.taken then Refused else Writing])
      case Writing => System(true, s.stages[i := Acted])
      case Acted | Refused => s
  }

  function Callers(n: nat): System {
    System(false, seq(n, _ => Reading))
  }

  /** The system after the first `m` steps of a schedule of callers. */
  function After(n: nat, schedule: seq<nat>, m: nat): System
    requires m <= |schedule|
  {
    if m == 0 then Callers(n) else Step(After(n, schedule, m - 1), schedule[m - 1])
  }

  /** Some caller has stepped twice among the first `m` steps: its read and its write, or its refusal and a repetition. */
  ghost predicate SteppedTwice(n: nat, schedule: seq<nat>, m: nat)
    requires m <= |schedule|
  {
    exists q :: 0 <= q < m && Again(n, schedule, q)
  }

  /** The step at `q` is not its caller's first. */
  ghost predicate Again(n: nat, schedule: seq<nat>, q: int)
    requires 0 <= q < |schedule|
  {
    schedule[q] < n && schedule[q] in schedule[..q]
  }

  ghost predicate FirstAt(schedule: seq<nat>, r: nat, i: nat)
    requires r < |schedule|
  {
    schedule[r] == i && i !in schedule[..r]
  }

  /** Where the schedule puts a caller after `m` steps. */
  ghost predicate StandsAt(n: nat, schedule: seq<nat>, m: nat, i: nat, stage: Stage)
    requires m <= |schedule| && i < n
  {
    match stage
    case Reading => i !in schedule[..m]
    case Refused => exists r: nat :: r < m && FirstAt(schedule, r, i) && SteppedTwice(n, schedule, r)
    case Writing =>
      && (exists r: nat :: r < m && FirstAt(schedule, r, i) && !SteppedTwice(n, schedule, r))
      && forall q :: 0 <= q < m && schedule[q] == i ==> !Again(n, schedule, q)
    case Acted =>
      && (exists r: nat :: r < m && FirstAt(schedule, r, i) && !SteppedTwice(n, schedule, r))
      && exists q :: 0 <= q < m && schedule[q] == i && Again(n, schedule, q)
  }

  ghost predicate Described(n: nat, schedule: seq<nat>, m: nat)
    requires m <= |schedule|
  {
    var s := After(n, schedule, m);
    && |s.stages| == n
    && (s.taken <==> SteppedTwice(n, schedule, m))
    && forall i: nat :: i < n ==> StandsAt(n, schedule, m, i, s.stages[i])
  }

  lemma InPrefix(schedule: seq<nat>, q: nat, m: nat)
    requires q < m <= |schedule|
    ensures schedule[q] in schedule[..m]
  {
    assert schedule[..m][q] == schedule[q];
  }

  lemma NotBefore(schedule: seq<nat>, m: nat, i: nat)
    requires m <= |schedule| && i !in schedule[..m]
    ensures forall q :: 0 <= q < m ==> schedule[q] != i
  {
    forall q: nat | q < m ensures schedule[q] != i {
      InPrefix(schedule, q, m);
    }
  }

  lemma PrefixOneMore(schedule: seq<nat>, m: nat)
    requires m < |schedule|
    ensures schedule[..m + 1] == schedule[..m] + [schedule[m]]
    ensures forall i :: i in schedule[..m + 1] <==> i in schedule[..m] || i == schedule[m]
  {
  }

  lemma TwiceOneMore(n: nat, schedule: seq<nat>, m: nat)
    requires m < |schedule|
    ensures SteppedTwice(n, schedule, m + 1) <==> SteppedTwice(n, schedule, m) || Again(n, schedule, m)
  {
    hide Again;
  }

  /** A caller that does not move stands where it stood. */
  lemma OthersStand(n: nat, schedule: seq<nat>, m: nat, i: nat, stage: Stage)
    requires m < |schedule| && i < n && schedule[m] != i && StandsAt(n, schedule, m, i, stage)
    ensures StandsAt(n, schedule, m + 1, i, stage)
  {
    hide SteppedTwice, Again, FirstAt;
    PrefixOneMore(schedule, m);
  }

  lemma MoverStands(n: nat, schedule: seq<nat>, m: nat, stage: Stage)
    requires m < |schedule| && schedule[m] < n && StandsAt(n, schedule, m, schedule[m], stage)
    ensures StandsAt(n, schedule, m + 1, schedule[m],
      match stage
      case Reading => if SteppedTwice(n, schedule, m) then Refused else Writing
      case Writing => Acted
      case Acted => Acted
      case Refused => Refused)
    ensures stage.Reading? <==> !Again(n, schedule, m)
    ensures stage.Refused? || stage.Acted? ==> SteppedTwice(n, schedule, m)
  {
    hide SteppedTwice;
    var i := schedule[m];
    if stage.Reading? {
      assert FirstAt(schedule, m, i);
      NotBefore(schedule, m, i);
    } else {
      var r: nat :| r < m && FirstAt(schedule, r, i);
      InPrefix(schedule, r, m);
      assert Again(n, schedule, m);
      if stage.Refused? {
        var r': nat :| r' < m && FirstAt(schedule, r', i) && SteppedTwice(n, schedule, r');
        TwiceStays(n, schedule, r', m);
      }
      if stage.Acted? {
        AgainIsTwice(n, schedule, i, m);
      }
    }
  }

  lemma AgainIsTwice(n: nat, schedule: seq<nat>, i: nat, m: nat)
    requires m <= |schedule| && exists q :: 0 <= q < m && schedule[q] == i && Again(n, schedule, q)
    ensures SteppedTwice(n, schedule, m)
  {
    hide Again;
  }

  lemma TwiceStays(n: nat, schedule: seq<nat>, r: nat, m: nat)
    requires r <= m <= |schedule| && SteppedTwice(n, schedule, r)
    ensures SteppedTwice(n, schedule, m)
  {
    hide Again;
  }

  lemma {:induction false} EveryStepDescribed(n: nat, schedule: seq<nat>, m: nat)
    requires m <= |schedule|
    ensures Described(n, schedule, m)
  {
    hide SteppedTwice, StandsAt, Again;
    if m == 0 {
      NobodyStepped(n, schedule);
    } else {
      var before, i := After(n, schedule, m - 1), schedule[m - 1];
      EveryStepDescribed(n, schedule, m - 1);
      TwiceOneMore(n, schedule, m - 1);
      if i < n {
        MoverStands(n, schedule, m - 1, before.stages[i]);
      } else {
        NotACaller(n, schedule, m - 1);
      }
      forall j: nat | j < n && j != i ensures StandsAt(n, schedule, m, j, before.stages[j]) {
        OthersStand(n, schedule, m - 1, j, before.stages[j]);
      }
    }
  }

  lemma NobodyStepped(n: nat, schedule: seq<nat>)
    ensures !SteppedTwice(n, schedule, 0)
    ensures forall i: nat :: i < n ==> StandsAt(n, schedule, 0, i, Reading)
  {
  }

  lemma NotACaller(n: nat, schedule: seq<nat>, q: nat)
    requires q < |schedule| && schedule[q] >= n
    ensures !Again(n, schedule, q)
  {
  }

  /** The caller steps first before anybody has stepped twice, and steps again. */
  ghost predicate Overlaps(n: nat, schedule: seq<nat>, i: nat) {
    && (exists r: nat :: r < |schedule| && FirstAt(schedule, r, i) && !SteppedTwice(n, schedule, r))
    && exists q :: 0 <= q < |schedule| && schedule[q] == i && Again(n, schedule, q)
  }

  /**
   * A caller acts exactly when it reads before any caller has written, and writes.
   * So several act on the same row exactly when several read before the first write.
   */
  lemma ActsExactly(n: nat, schedule: seq<nat>, i: nat)
    requires i < n
    ensures |After(n, schedule, |schedule|).stages| == n
    ensures After(n, schedule, |schedule|).stages[i] == Acted <==> Overlaps(n, schedule, i)
  {
    hide SteppedTwice, Again, FirstAt;
    EveryStepDescribed(n, schedule, |schedule|);
    var stage := After(n, schedule, |schedule|).stages[i];
    assert StandsAt(n, schedule, |schedule|, i, stage);
    if Overlaps(n, schedule, i) {
      var r: nat :| r < |schedule| && FirstAt(schedule, r, i) && !SteppedTwice(n, schedule, r);
      OneFirst(schedule, r, i);
    }
  }

  lemma OneFirst(schedule: seq<nat>, r: nat, i: nat)
    requires r < |schedule| && FirstAt(schedule, r, i)
    ensures i in schedule[..|schedule|]
    ensures forall other: nat :: other < |schedule| && FirstAt(schedule, other, i) ==> other == r
  {
    assert schedule[..|schedule|] == schedule;
    forall other: nat | other < |schedule| && FirstAt(schedule, other, i) ensures other == r {
      if other < r {
        InPrefix(schedule, other, r);
      } else if r < other {
        InPrefix(schedule, r, other);
      }
    }
  }

  /** Read, read, write, write: both act. */
  lemma TwoAct()
    ensures After(2, [0, 1, 0, 1], 4).stages == [Acted, Acted]
  {
    var schedule := [0, 1, 0, 1];
    assert After(2, schedule, 0).stages == [Reading, Reading];
    assert After(2, schedule, 1).stages == [Writing, Reading];
    assert After(2, schedule, 2).stages == [Writing, Writing];
    assert After(2, schedule, 3).stages == [Acted, Writing];
  }

  // ------------------------------------------------------------------------
  //  Refresh
  // ------------------------------------------------------------------------

  /** The writes of a refresh whose checks have passed. */
  function Rotate(tokens: T.Table, id: nat, now: int, ttl: nat): T.Table
    requires id < |tokens|
  {
    T.Issued(tokens[id := tokens[id].(usedAt := Some(now))], tokens[id].owner, Some(tokens[id].family), now + ttl)
  }

  /** Checks and writes with nothing in between are `refresh`. */
  lemma RotateIsRefresh(tokens: T.Table, id: nat, now: int, ttl: nat, active: bool)
    requires T.RefreshOutcome(tokens, id, now, active).Rotated?
    ensures T.Refreshed(tokens, id, now, ttl, active) == Rotate(tokens, id, now, ttl)
  {
  }

  /** Clients that present the same token, each between its checks and its writes or not. */
  datatype Clients = Clients(tokens: T.Table, stages: seq<Stage>)

  function RefreshStep(c: Clients, id: nat, now: int, ttl: nat, i: nat): Clients
    requires id < |c.tokens|
  {
    if i >= |c.stages| then c
    else match c.stages[i]
      case Reading =>
        if T.RefreshOutcome(c.tokens, id, now, true).Rotated? then c.(stages := c.stages[i := Writing])
        else Clients(T.Refreshed(c.tokens, id, now, ttl, true), c.stages[i := Refused])
      case Writing => Clients(Rotate(c.tokens, id, now, ttl), c.stages[i := Acted])
      case Acted | Refused => c
  }

  function RefreshAfter(tokens: T.Table, id: nat, now: int, ttl: nat, n: nat, schedule: seq<nat>, m: nat): (r: Clients)
    requires id < |tokens| && m <= |schedule|
    ensures id < |r.tokens|
  {
    if m == 0 then Clients(tokens, Callers(n).stages)
    else RefreshStep(RefreshAfter(tokens, id, now, ttl, n, schedule, m - 1), id, now, ttl, schedule[m - 1])
  }

  predicate Taken(t: T.Token) {
    t.usedAt.Some? || t.revokedAt.Some?
  }

  lemma {:induction false} RefreshesFollow(
    tokens: T.Table, id: nat, now: int, ttl: nat, n: nat, schedule: seq<nat>, m: nat)
    requires id < |tokens| && m <= |schedule| && !Taken(tokens[id]) && now <= tokens[id].expiresAt
    ensures var c := RefreshAfter(tokens, id, now, ttl, n, schedule, m);
      && c.stages == After(n, schedule, m).stages
      && (After(n, schedule, m).taken <==> Taken(c.tokens[id]))
      && c.tokens[id].expiresAt == tokens[id].expiresAt
  {
    if m > 0 {
      RefreshesFollow(tokens, id, now, ttl, n, schedule, m - 1);
    }
  }

  /** Of the clients that present a good token, those accepted are exactly those that read before the first one writes. */
  lemma RefreshedTogetherExactly(tokens: T.Table, id: nat, now: int, ttl: nat, n: nat, schedule: seq<nat>, i: nat)
    requires id < |tokens| && !Taken(tokens[id]) && now <= tokens[id].expiresAt && i < n
    ensures var c := RefreshAfter(tokens, id, now, ttl, n, schedule, |schedule|);
      |c.stages| == n && (c.stages[i] == Acted <==> Overlaps(n, schedule, i))
  {
    RefreshesFollow(tokens, id, now, ttl, n, schedule, |schedule|);
    ActsExactly(n, schedule, i);
  }

  lemma NewestOf(tokens: T.Table, id: nat) returns (newest: nat)
    requires T.WellFormed(tokens) && id < |tokens|
    ensures newest < |tokens| && tokens[newest].family == tokens[id].family && tokens[newest].usedAt.None?
  {
    newest := T.NewestExists(tokens, id);
    T.UnusedIsNewest(tokens, newest);
  }

  /** Two tokens of a family, the older one unused. */
  lemma Forked(tokens: T.Table, older: nat, newer: nat)
    requires older < newer < |tokens| && tokens[older].family == tokens[newer].family && tokens[older].usedAt.None?
    ensures !T.WellFormed(tokens)
  {
    assert !T.Newest(tokens, older);
  }

  lemma RotatingUsedForks(tokens: T.Table, id: nat, now: int, ttl: nat)
    requires T.WellFormed(tokens) && id < |tokens| && tokens[id].usedAt.Some?
    ensures !T.WellFormed(Rotate(tokens, id, now, ttl))
  {
    hide T.WellFormed;
    var newest := NewestOf(tokens, id);
    Forked(Rotate(tokens, id, now, ttl), newest, |tokens|);
  }

  /**
   * The writes leave one unused token per family, all others used, exactly when the
   * token was not used between the checks and the writes.
   */
  lemma RotateKeepsFamiliesExactly(tokens: T.Table, id: nat, now: int, ttl: nat)
    requires T.WellFormed(tokens) && id < |tokens|
    ensures T.WellFormed(Rotate(tokens, id, now, ttl)) <==> tokens[id].usedAt.None?
  {
    if tokens[id].usedAt.None? {
      T.UnusedIsNewest(tokens, id);
      hide T.Numbered, T.OneOwner, T.UsedInOrder, T.Newest;
      T.RotationKeepsFamilies(tokens, id, now, now + ttl);
    } else {
      RotatingUsedForks(tokens, id, now, ttl);
    }
  }

  /** A family revoked between the checks and the writes comes back to life, exactly in its new token. */
  lemma RotateRevives(tokens: T.Table, id: nat, now: int, ttl: nat)
    requires id < |tokens| && T.Dead(tokens, tokens[id].family)
    ensures var after := Rotate(tokens, id, now, ttl);
      && !T.Dead(after, tokens[id].family)
      && forall i :: 0 <= i < |after| && after[i].family == tokens[id].family && after[i].revokedAt.None? ==> i == |tokens|
  {
    var after := Rotate(tokens, id, now, ttl);
    assert after[|tokens|].family == tokens[id].family && after[|tokens|].revokedAt.None?;
  }

  // ------------------------------------------------------------------------
  //  Acknowledgement
  // ------------------------------------------------------------------------

  /** The transaction of an acknowledgement whose check has passed. */
  function Settle(h: CR.History, id: nat, executed: bool): CR.History
    requires id < |h.rows|
  {
    h.(rows := h.rows[id := h.rows[id].(status := if executed then C.Executed else C.Failed)],
       applied := if executed then h.applied + multiset{id} else h.applied)
  }

  lemma SettleIsAcknowledge(h: CR.History, deviceId: nat, id: nat, executed: bool)
    requires C.AckOutcome(h.rows, deviceId, id, executed).Recorded?
    ensures CR.Step(h, CR.AckCall(deviceId, id, executed)) == Settle(h, id, executed)
  {
  }

  /** Acknowledgements of the execution of one command. */
  datatype Acks = Acks(history: CR.History, stages: seq<Stage>)

  function AckStep(a: Acks, id: nat, i: nat): Acks
    requires id < |a.history.rows|
  {
    if i >= |a.stages| then a
    else match a.stages[i]
      case Reading => a.(stages := a.stages[i := if a.history.rows[id].status == C.Executed then Refused else Writing])
      case Writing => Acks(Settle(a.history, id, true), a.stages[i := Acted])
      case Acted | Refused => a
  }

  function AckAfter(h: CR.History, id: nat, n: nat, schedule: seq<nat>, m: nat): (r: Acks)
    requires id < |h.rows| && m <= |schedule|
    ensures id < |r.history.rows|
  {
    if m == 0 then Acks(h, Callers(n).stages) else AckStep(AckAfter(h, id, n, schedule, m - 1), id, schedule[m - 1])
  }

  function Count(stages: seq<Stage>): nat {
    if stages == [] then 0
    else Count(stages[..|stages| - 1]) + (if stages[|stages| - 1] == Acted then 1 else 0)
  }

  lemma {:induction false} CountUpdate(stages: seq<Stage>, i: nat, stage: Stage)
    requires i < |stages|
    ensures Count(stages[i := stage]) + (if stages[i] == Acted then 1 else 0)
         == Count(stages) + (if stage == Acted then 1 else 0)
  {
    var last := |stages| - 1;
    if i < last {
      CountUpdate(stages[..last], i, stage);
      assert stages[i := stage][..last] == stages[..last][i := stage];
    } else {
      assert stages[i := stage][..last] == stages[..last];
    }
  }

  lemma {:induction false} NobodyActed(n: nat)
    ensures Count(Callers(n).stages) == 0
  {
    if n > 0 {
      NobodyActed(n - 1);
      assert Callers(n).stages[..n - 1] == Callers(n - 1).stages;
    }
  }

  lemma {:induction false} AcksFollow(h: CR.History, id: nat, n: nat, schedule: seq<nat>, m: nat)
    requires id < |h.rows| && m <= |schedule| && h.rows[id].status != C.Executed
    ensures var a := AckAfter(h, id, n, schedule, m);
      && a.stages == After(n, schedule, m).stages
      && (After(n, schedule, m).taken <==> a.history.rows[id].status == C.Executed)
      && a.history.applied[id] == h.applied[id] + Count(a.stages)
  {
    hide Count;
    if m == 0 {
      NobodyActed(n);
    } else {
      AcksFollow(h, id, n, schedule, m - 1);
      var before, i := AckAfter(h, id, n, schedule, m - 1), schedule[m - 1];
      if i < |before.stages| {
        CountUpdate(before.stages, i, AckAfter(h, id, n, schedule, m).stages[i]);
      }
    }
  }

  /**
   * Side effects are applied once for each acknowledgement that acts, and those are
   * exactly the ones that read before the first one writes.
   */
  lemma AcknowledgedTogetherExactly(h: CR.History, id: nat, n: nat, schedule: seq<nat>, i: nat)
    requires id < |h.rows| && h.rows[id].status != C.Executed && i < n
    ensures var a := AckAfter(h, id, n, schedule, |schedule|);
      && |a.stages| == n && (a.stages[i] == Acted <==> Overlaps(n, schedule, i))
      && a.history.applied[id] == h.applied[id] + Count(a.stages)
  {
    AcksFollow(h, id, n, schedule, |schedule|);
    ActsExactly(n, schedule, i);
  }

  /** Effects stay applied once per executed command exactly when no other acknowledgement executed it in between. */
  lemma SettleKeepsEffectsExactly(h: CR.History, id: nat, executed: bool)
    requires CR.EffectsOnce(h) && id < |h.rows|
    ensures CR.EffectsOnce(Settle(h, id, executed)) <==> h.rows[id].status != C.Executed
  {
    var after := Settle(h, id, executed);
    assert h.applied[id] == if h.rows[id].status == C.Executed then 1 else 0;
    if h.rows[id].status == C.Executed {
      assert after.applied[id] != if after.rows[id].status == C.Executed then 1 else 0;
    } else {
      forall other: nat
        ensures after.applied[other] == if other < |after.rows| && after.rows[other].status == C.Executed then 1 else 0
      {
        assert h.applied[other] == if other < |h.rows| && h.rows[other].status == C.Executed then 1 else 0;
      }
    }
  }

  // ------------------------------------------------------------------------
  //  Delivery
  // ------------------------------------------------------------------------

  /** The last statement of a pull: the commands it read are marked sent, whatever has become of them. */
  function Mark(h: CR.History, ids: seq<nat>): CR.History {
    h.(rows := C.MarkSent(h.rows, ids))
  }

  /** Reading and marking with nothing in between are the pull. */
  lemma ReadThenMarkIsPull(h: CR.History, deviceId: nat, now: int)
    ensures var purged := C.ExpireOverdue(h.rows, Some(deviceId), now);
      CR.Step(h, CR.PullCall(deviceId, now)).rows
      == Mark(h.(rows := purged), C.PullIds(purged, deviceId, now)).rows
  {
  }

  /** A late marking keeps effects once per executed command exactly when it names none executed since it was read. */
  lemma MarkKeepsEffectsExactly(h: CR.History, ids: seq<nat>)
    requires CR.EffectsOnce(h) && C.ValidIds(h.rows, ids)
    ensures CR.EffectsOnce(Mark(h, ids)) <==> forall id :: id in ids ==> h.rows[id].status != C.Executed
  {
    var after := Mark(h, ids);
    if id :| id in ids && h.rows[id].status == C.Executed {
      assert h.applied[id] == 1 && after.rows[id].status == C.Sent;
    } else {
      forall id: nat
        ensures after.applied[id] == if id < |after.rows| && after.rows[id].status == C.Executed then 1 else 0
      {
        assert h.applied[id] == if id < |h.rows| && h.rows[id].status == C.Executed then 1 else 0;
      }
    }
  }

  /** It keeps settled commands settled exactly when it names none settled since it was read. */
  lemma MarkEvolvesExactly(rows: C.Table, ids: seq<nat>)
    requires C.ValidIds(rows, ids)
    ensures (forall id :: 0 <= id < |rows| ==> CR.Evolves(rows[id], C.MarkSent(rows, ids)[id]))
       <==> (forall id :: id in ids ==> C.InFlight(rows[id]))
  {
    forall id | 0 <= id < |rows|
      ensures CR.Evolves(rows[id], C.MarkSent(rows, ids)[id]) <==> (id in ids ==> C.InFlight(rows[id]))
    {
    }
  }

  /** Whatever the command: executed between the reading and the marking of a pull, it is sent and executed again. */
  lemma ExecutedTwice(h: CR.History, deviceId: nat, id: nat, ids: seq<nat>)
    requires C.Known(h.rows, deviceId, id) && h.rows[id].status != C.Executed && id in ids
    ensures var ack := CR.AckCall(deviceId, id, true);
      var marked := Mark(CR.Step(h, ack), ids);
      marked.rows[id].status == C.Sent && CR.Step(marked, ack).applied[id] == h.applied[id] + 2
  {
  }
}
