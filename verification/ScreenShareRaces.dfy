/**
 * Screen-sharing calls that overlap (apps/api/src/screen-share/screen-share.service.ts):
 * each reads a session, lets others run, then writes by id without looking again.
 */
module ScreenShareRaces {
  import opened Wrappers
  import opened ScreenShare
  import R = Races

  // ------------------------------------------------------------------------
  //  What each call reads and writes
  // ------------------------------------------------------------------------

  /** A request that found an overdue session closes it first, and opens its own after. */
  datatype Opening = Opening(companyId: nat, deviceId: nat)

  type Over = s: State | IsTerminal(s) witness Expired

  /** A call between its reading and its writing. */
  datatype Pending =
    | Creating(opening: Opening)
    | Closing(id: nat, deviceId: nat, opens: Option<Opening>)
    | Answering(id: nat, deviceId: nat, accepted: bool)
    | Ending(id: nat, deviceId: nat, target: Over)
    | Counting(id: nat, deviceId: nat)

  function ReadLook(sessions: Table, deviceId: nat, now: int, opens: Option<Opening>): Option<Pending> {
    var found := FindLive(sessions, deviceId);
    if found.None? then (if opens.Some? then Some(Creating(opens.value)) else None)
    else if now < sessions[found.value].expiresAt then None
    else Some(Closing(found.value, deviceId, opens))
  }

  /** What a call is left to write once it has read; nothing when it is refused or has no effect. */
  function Read(sessions: Table, call: Call, config: Config): Option<Pending> {
    match call
    case RequestCall(company, d, known, now) =>
      if known then ReadLook(sessions, d, now, Some(Opening(company, d))) else None
    case LookCall(d, now) => ReadLook(sessions, d, now, None)
    case ConsentCall(d, id, accepted, _) =>
      if id < |sessions| && sessions[id].deviceId == d && sessions[id].state == Requested
      then Some(Answering(id, d, accepted)) else None
    case EndCall(scope, id, event, _) =>
      if id < |sessions| && Sees(scope, sessions[id]) && Next(sessions[id].state, event).Applied?
      then Some(Ending(id, sessions[id].deviceId, Next(sessions[id].state, event).state)) else None
    case FrameCall(d, id, _, _) => if Relays(sessions, call, config) then Some(Counting(id, d)) else None
  }

  /** What a row becomes, whatever has become of it. */
  function Rewritten(s: Session, p: Pending, at: int, config: Config): Session {
    match p
    case Creating(_) => s
    case Closing(_, _, _) => s.(state := Expired, endedAt := Some(at))
    case Answering(_, _, accepted) => Consented(s, accepted, at, config)
    case Ending(_, _, target) => s.(state := target, endedAt := Some(at))
    case Counting(_, _) => s.(frameCount := s.frameCount + 1)
  }

  function Written(sessions: Table, p: Pending, at: int, config: Config): Table {
    if p.Creating? then
      var Opening(company, d) := p.opening;
      sessions + [Session(company, d, Requested, at, None, None, at + config.responseTimeout, 0)]
    else if p.id < |sessions| then sessions[p.id := Rewritten(sessions[p.id], p, at, config)]
    else sessions
  }

  /** What is left to write after that. */
  function Rest(p: Pending): Option<Pending> {
    if p.Closing? && p.opens.Some? then Some(Creating(p.opens.value)) else None
  }

  function Completed(sessions: Table, p: Option<Pending>, at: int, config: Config): Table {
    if p.None? then sessions
    else
      var written := Written(sessions, p.value, at, config);
      if Rest(p.value).Some? then Written(written, Rest(p.value).value, at, config) else written
  }

  /** Reading then writing at once is the call. */
  lemma ReadThenWriteIsTheCall(sessions: Table, call: Call, config: Config)
    ensures Completed(sessions, Read(sessions, call, config), call.now, config) == Step(sessions, call, config)
  {
  }

  // ------------------------------------------------------------------------
  //  Any interleaving
  // ------------------------------------------------------------------------

  datatype Machine = Machine(sessions: Table, pending: seq<Pending>)

  const EMPTY := Machine([], [])

  /** A call reads, or one that has read writes, at its own instant. */
  datatype Move = Begin(call: Call) | Finish(k: nat, at: int)

  function Pend(pending: seq<Pending>, p: Option<Pending>): seq<Pending> {
    if p.Some? then pending + [p.value] else pending
  }

  function Act(m: Machine, move: Move, config: Config): Machine {
    match move
    case Begin(call) => m.(pending := Pend(m.pending, Read(m.sessions, call, config)))
    case Finish(k, at) =>
      if k >= |m.pending| then m
      else Machine(Written(m.sessions, m.pending[k], at, config),
                   Pend(m.pending[..k] + m.pending[k + 1..], Rest(m.pending[k])))
  }

  function AfterMoves(moves: seq<Move>, n: nat, config: Config): Machine
    requires n <= |moves|
  {
    if n == 0 then EMPTY else Act(AfterMoves(moves, n - 1, config), moves[n - 1], config)
  }

  /** Move `n` writes `p`. */
  predicate WritesAt(moves: seq<Move>, n: nat, p: Pending, config: Config) {
    && n < |moves| && moves[n].Finish? && moves[n].k < |AfterMoves(moves, n, config).pending|
    && AfterMoves(moves, n, config).pending[moves[n].k] == p
  }

  /** A writing finds the row it read, on the same phone. */
  predicate Targets(sessions: Table, p: Pending) {
    p.Creating? || (p.id < |sessions| && sessions[p.id].deviceId == p.deviceId)
  }

  ghost predicate Steady(m: Machine, config: Config) {
    AllDated(m.sessions, config) && forall k :: 0 <= k < |m.pending| ==> Targets(m.sessions, m.pending[k])
  }

  lemma PendHas(m: Machine, move: Move, config: Config, p: Pending)
    requires p in Act(m, move, config).pending
    ensures p in m.pending
      || (move.Begin? && Read(m.sessions, move.call, config) == Some(p))
      || (move.Finish? && p.Creating?)
  {
  }

  /** Rows stay, with their phone, and the dates keep their meaning. */
  lemma WrittenStays(sessions: Table, p: Pending, at: int, config: Config)
    requires AllDated(sessions, config)
    ensures AllDated(Written(sessions, p, at, config), config)
    ensures forall other :: Targets(sessions, other) ==> Targets(Written(sessions, p, at, config), other)
  {
    var after := Written(sessions, p, at, config);
    assert forall id :: 0 <= id < |sessions| ==>
      Dated(sessions[id], config) && after[id].deviceId == sessions[id].deviceId;
  }

  lemma ActKeepsSteady(m: Machine, move: Move, config: Config)
    requires Steady(m, config)
    ensures Steady(Act(m, move, config), config)
  {
    hide AllDated, Written, FindLive, AcceptsFrames, Dated;
    var after := Act(m, move, config);
    if move.Finish? && move.k < |m.pending| {
      WrittenStays(m.sessions, m.pending[move.k], move.at, config);
    }
    forall k | 0 <= k < |after.pending| ensures Targets(after.sessions, after.pending[k]) {
      PendHas(m, move, config, after.pending[k]);
    }
  }

  /**
   * Under any interleaving of readings and writings, a running session has a start and
   * ends `maxDuration` after it, and every writing finds the row it read, on the same phone.
   */
  lemma {:induction false} EveryInterleaving(moves: seq<Move>, n: nat, config: Config)
    requires n <= |moves|
    ensures Steady(AfterMoves(moves, n, config), config)
  {
    hide Act;
    if n > 0 {
      EveryInterleaving(moves, n - 1, config);
      ActKeepsSteady(AfterMoves(moves, n - 1, config), moves[n - 1], config);
    }
  }

  // ------------------------------------------------------------------------
  //  One live session
  // ------------------------------------------------------------------------

  /** A creation that finds no live session still, an acceptance of a live one; any other writing. */
  predicate Free(sessions: Table, p: Pending)
    requires Targets(sessions, p)
  {
    match p
    case Creating(o) => FindLive(sessions, o.deviceId).None?
    case Answering(id, d, accepted) =>
      accepted && IsTerminal(sessions[id].state) ==> FindLive(sessions, d).None?
    case _ => true
  }

  /** One live session of the phone, and another one written. */
  lemma TwoLive(after: Table, a: nat, b: nat, deviceId: nat)
    requires a < |after| && b < |after| && a != b && Live(after[a], deviceId) && Live(after[b], deviceId)
    ensures !OneLive(after)
  {
    assert BothLive(after, a, b);
  }

  lemma AnsweredLive(sessions: Table, id: nat, s: Session)
    requires OneLive(sessions) && id < |sessions| && s.deviceId == sessions[id].deviceId
    requires IsTerminal(s.state) || !IsTerminal(sessions[id].state) || FindLive(sessions, s.deviceId).None?
    ensures OneLive(sessions[id := s])
  {
    var after := sessions[id := s];
    forall a, b | BothLive(after, a, b) ensures a == b {
      if (a != id && b != id) || !IsTerminal(sessions[id].state) {
        assert BothLive(sessions, a, b);
      }
    }
  }

  /** A writing keeps at most one live session per phone exactly when it is free to be made. */
  lemma WriteKeepsOneLiveExactly(sessions: Table, p: Pending, at: int, config: Config)
    requires OneLive(sessions) && Targets(sessions, p)
    ensures OneLive(Written(sessions, p, at, config)) <==> Free(sessions, p)
  {
    var after := Written(sessions, p, at, config);
    hide OneLive, BothLive;
    if p.Creating? {
      var d := p.opening.deviceId;
      if FindLive(sessions, d).Some? {
        TwoLive(after, FindLive(sessions, d).value, |sessions|, d);
      } else {
        OneMore(sessions, after[|sessions|]);
      }
    } else if Free(sessions, p) {
      AnsweredLive(sessions, p.id, after[p.id]);
    } else {
      TwoLive(after, FindLive(sessions, p.deviceId).value, p.id, p.deviceId);
    }
  }

  /** Every writing among the first `n` moves is free to be made. */
  ghost predicate FreeRun(moves: seq<Move>, n: nat, config: Config) {
    forall j, p :: 0 <= j < n && WritesAt(moves, j, p, config) ==>
      Targets(AfterMoves(moves, j, config).sessions, p) && Free(AfterMoves(moves, j, config).sessions, p)
  }

  ghost predicate OneLiveThroughout(moves: seq<Move>, n: nat, config: Config)
    requires n <= |moves|
  {
    forall m :: 0 <= m <= n ==> OneLive(AfterMoves(moves, m, config).sessions)
  }

  lemma MoveKeepsOneLiveExactly(moves: seq<Move>, j: nat, config: Config)
    requires j < |moves| && OneLive(AfterMoves(moves, j, config).sessions)
    ensures OneLive(AfterMoves(moves, j + 1, config).sessions) <==>
      forall p :: WritesAt(moves, j, p, config) ==>
        Targets(AfterMoves(moves, j, config).sessions, p) && Free(AfterMoves(moves, j, config).sessions, p)
  {
    hide OneLive, Written, Free, Targets, Rest, Read;
    var m := AfterMoves(moves, j, config);
    EveryInterleaving(moves, j, config);
    if moves[j].Finish? && moves[j].k < |m.pending| {
      var p := m.pending[moves[j].k];
      WriteKeepsOneLiveExactly(m.sessions, p, moves[j].at, config);
      assert WritesAt(moves, j, p, config);
    }
  }

  /** An interleaving keeps at most one live session per phone throughout exactly when all its writings are free. */
  lemma {:induction false} OneLiveThroughoutExactly(moves: seq<Move>, n: nat, config: Config)
    requires n <= |moves|
    ensures OneLiveThroughout(moves, n, config) <==> FreeRun(moves, n, config)
  {
    hide OneLive, Written, Free, Targets, WritesAt, Act;
    if n > 0 {
      OneLiveThroughoutExactly(moves, n - 1, config);
      if OneLive(AfterMoves(moves, n - 1, config).sessions) {
        MoveKeepsOneLiveExactly(moves, n - 1, config);
      }
    } else {
      NothingLive();
    }
  }

  lemma NothingLive()
    ensures OneLive([])
  {
  }

  // ------------------------------------------------------------------------
  //  Sessions that are over
  // ------------------------------------------------------------------------

  /**
   * The session awaits its answer, or runs and is not started again, or is over and
   * already shows what is written.
   */
  predicate Suits(s: Session, p: Pending, at: int) {
    if s.state == Requested then true
    else if s.state == Accepted then p.Answering? && p.accepted ==> s.startedAt == Some(at)
    else match p
      case Creating(_) => true
      case Closing(_, _, _) => s.state == Expired && s.endedAt == Some(at)
      case Answering(_, _, accepted) => !accepted && s.state == Refused && s.endedAt == Some(at)
      case Ending(_, _, target) => s.state == target && s.endedAt == Some(at)
      case Counting(_, _) => false
  }

  /** A writing keeps the history of sessions, those that are over above all, exactly when its own suits it. */
  lemma WriteFollowsExactly(sessions: Table, p: Pending, at: int, config: Config)
    requires AllDated(sessions, config) && Targets(sessions, p)
    ensures History(sessions, Written(sessions, p, at, config)) <==> p.Creating? || Suits(sessions[p.id], p, at)
  {
    if !p.Creating? {
      var s, after := sessions[p.id], Written(sessions, p, at, config);
      assert Dated(s, config);
      assert after[p.id] == Rewritten(s, p, at, config);
      assert Follows(s, after[p.id]) <==> Suits(s, p, at);
    }
  }

  /** Every writing among the first `n` moves suits the session it names. */
  ghost predicate SuitedRun(moves: seq<Move>, n: nat, config: Config) {
    forall j, p :: 0 <= j < n && WritesAt(moves, j, p, config) && !p.Creating? ==>
      var sessions := AfterMoves(moves, j, config).sessions;
      p.id < |sessions| && Suits(sessions[p.id], p, moves[j].at)
  }

  lemma MoveFollowsExactly(moves: seq<Move>, j: nat, config: Config)
    requires j < |moves|
    ensures History(AfterMoves(moves, j, config).sessions, AfterMoves(moves, j + 1, config).sessions) <==>
      forall p :: WritesAt(moves, j, p, config) && !p.Creating? ==>
        var sessions := AfterMoves(moves, j, config).sessions;
        p.id < |sessions| && Suits(sessions[p.id], p, moves[j].at)
  {
    hide Written, Suits, Rest, Read, AllDated, Follows;
    var m := AfterMoves(moves, j, config);
    EveryInterleaving(moves, j, config);
    SameHistory(m.sessions);
    if moves[j].Finish? && moves[j].k < |m.pending| {
      var p := m.pending[moves[j].k];
      WriteFollowsExactly(m.sessions, p, moves[j].at, config);
      assert WritesAt(moves, j, p, config);
    }
  }

  lemma SameHistory(sessions: Table)
    ensures History(sessions, sessions)
  {
  }

  /** An interleaving keeps the history at every move exactly when all its writings suit their sessions. */
  lemma {:induction false} FollowsThroughoutExactly(moves: seq<Move>, n: nat, config: Config)
    requires n <= |moves|
    ensures (forall j :: 0 <= j < n ==>
               History(AfterMoves(moves, j, config).sessions, AfterMoves(moves, j + 1, config).sessions))
       <==> SuitedRun(moves, n, config)
  {
    hide History, Suits, WritesAt, Act;
    if n > 0 {
      FollowsThroughoutExactly(moves, n - 1, config);
      MoveFollowsExactly(moves, n - 1, config);
    }
  }

  // ------------------------------------------------------------------------
  //  Images
  // ------------------------------------------------------------------------

  /** Move `n` relays an image of session `id`. */
  predicate ImageAt(moves: seq<Move>, n: nat, id: nat, config: Config) {
    && n < |moves| && moves[n].Finish?
    && var pending := AfterMoves(moves, n, config).pending;
       moves[n].k < |pending| && pending[moves[n].k].Counting? && pending[moves[n].k].id == id
  }

  function Images(moves: seq<Move>, n: nat, id: nat, config: Config): nat
    requires n <= |moves|
  {
    if n == 0 then 0 else Images(moves, n - 1, id, config) + (if ImageAt(moves, n - 1, id, config) then 1 else 0)
  }

  function Frames(sessions: Table, id: nat): nat {
    if id < |sessions| then sessions[id].frameCount else 0
  }

  lemma MoveCounts(moves: seq<Move>, n: nat, id: nat, config: Config)
    requires n < |moves|
    ensures Frames(AfterMoves(moves, n + 1, config).sessions, id)
         == Frames(AfterMoves(moves, n, config).sessions, id) + (if ImageAt(moves, n, id, config) then 1 else 0)
  {
    hide Read, AllDated, Rest, Dated;
    EveryInterleaving(moves, n, config);
  }

  /** The increment is the database's own: under any interleaving the counter is the number of images relayed. */
  lemma {:induction false} CounterIsTheImages(moves: seq<Move>, n: nat, id: nat, config: Config)
    requires n <= |moves|
    ensures Frames(AfterMoves(moves, n, config).sessions, id) == Images(moves, n, id, config)
  {
    hide Act, ImageAt, Frames;
    if n > 0 {
      CounterIsTheImages(moves, n - 1, id, config);
      MoveCounts(moves, n - 1, id, config);
    } else {
      assert Frames([], id) == 0 by {
        NoFrames(id);
      }
    }
  }

  lemma NoFrames(id: nat)
    ensures Frames([], id) == 0
  {
  }

  /** Move `n` writes the driver's acceptance of session `id`. */
  predicate AcceptsAt(moves: seq<Move>, n: nat, id: nat, config: Config) {
    && n < |moves| && moves[n].Finish?
    && var m := AfterMoves(moves, n, config);
       && moves[n].k < |m.pending| && id < |m.sessions|
       && m.pending[moves[n].k] == Answering(id, m.sessions[id].deviceId, true)
  }

  lemma StartsByAcceptance(moves: seq<Move>, n: nat, id: nat, config: Config)
    requires n < |moves| && id < |AfterMoves(moves, n + 1, config).sessions|
    requires var before, after := AfterMoves(moves, n, config).sessions, AfterMoves(moves, n + 1, config).sessions;
      var start := after[id].startedAt;
      start.Some? && (id < |before| ==> before[id].startedAt != start)
    ensures AcceptsAt(moves, n, id, config)
    ensures AfterMoves(moves, n + 1, config).sessions[id].startedAt == Some(moves[n].at)
  {
    hide Read, AllDated;
    EveryInterleaving(moves, n, config);
  }

  lemma {:induction false} StartIsAnAcceptance(moves: seq<Move>, n: nat, id: nat, config: Config) returns (j: nat)
    requires n <= |moves| && id < |AfterMoves(moves, n, config).sessions|
    requires AfterMoves(moves, n, config).sessions[id].startedAt.Some?
    ensures j < n && AcceptsAt(moves, j, id, config)
    ensures moves[j].at == AfterMoves(moves, n, config).sessions[id].startedAt.value
  {
    hide Act, AcceptsAt;
    var before := AfterMoves(moves, n - 1, config).sessions;
    if id < |before| && before[id].startedAt == AfterMoves(moves, n, config).sessions[id].startedAt {
      j := StartIsAnAcceptance(moves, n - 1, id, config);
    } else {
      StartsByAcceptance(moves, n - 1, id, config);
      j := n - 1;
    }
  }

  /** A frame about to be counted was read by a call. */
  lemma {:induction false} CountingWasRead(moves: seq<Move>, n: nat, p: Pending, config: Config) returns (i: nat)
    requires n <= |moves| && p.Counting? && p in AfterMoves(moves, n, config).pending
    ensures i < n && moves[i].Begin? && Read(AfterMoves(moves, i, config).sessions, moves[i].call, config) == Some(p)
  {
    hide Act, Read;
    PendHas(AfterMoves(moves, n - 1, config), moves[n - 1], config, p);
    if p in AfterMoves(moves, n - 1, config).pending {
      i := CountingWasRead(moves, n - 1, p, config);
    } else {
      i := n - 1;
    }
  }

  /**
   * What any interleaving leaves of the rule: an image relayed was let through by a
   * reading that came, by less than `maxDuration`, after an acceptance by the phone.
   */
  lemma EveryImageWasAccepted(moves: seq<Move>, n: nat, id: nat, config: Config) returns (i: nat, j: nat)
    requires ImageAt(moves, n, id, config)
    ensures j < i < n && AcceptsAt(moves, j, id, config)
    ensures moves[i].Begin? && Relays(AfterMoves(moves, i, config).sessions, moves[i].call, config)
    ensures moves[i].call.id == id && moves[i].call.now < moves[j].at + config.maxDuration
  {
    hide AcceptsAt;
    var m := AfterMoves(moves, n, config);
    i := CountingWasRead(moves, n, m.pending[moves[n].k], config);
    EveryInterleaving(moves, i, config);
    assert Dated(AfterMoves(moves, i, config).sessions[id], config);
    j := StartIsAnAcceptance(moves, i, id, config);
  }

  // ------------------------------------------------------------------------
  //  Requests made together
  // ------------------------------------------------------------------------

  /** Requests for one phone, each between its look and its creation or not; `at[i]` is the date of caller `i`. */
  datatype Requests = Requests(sessions: Table, stages: seq<R.Stage>)

  function RequestStep(r: Requests, o: Opening, at: seq<int>, config: Config, i: nat): Requests
    requires |at| == |r.stages|
  {
    if i >= |r.stages| then r
    else match r.stages[i]
      case Reading =>
        var p := Read(r.sessions, RequestCall(o.companyId, o.deviceId, true, at[i]), config);
        r.(stages := r.stages[i := if p == Some(Creating(o)) then R.Writing else R.Refused])
      case Writing => Requests(Written(r.sessions, Creating(o), at[i], config), r.stages[i := R.Acted])
      case Acted | Refused => r
  }

  function RequestsAfter(
    sessions: Table, o: Opening, at: seq<int>, config: Config, schedule: seq<nat>, m: nat): (r: Requests)
    requires m <= |schedule|
    ensures |r.stages| == |at|
  {
    if m == 0 then Requests(sessions, R.Callers(|at|).stages)
    else RequestStep(RequestsAfter(sessions, o, at, config, schedule, m - 1), o, at, config, schedule[m - 1])
  }

  function LiveOf(sessions: Table, deviceId: nat): nat {
    if sessions == [] then 0
    else
      LiveOf(sessions[..|sessions| - 1], deviceId) + (if Live(sessions[|sessions| - 1], deviceId) then 1 else 0)
  }

  /** Each caller comes before the requests of the others are overdue. */
  ghost predicate Together(at: seq<int>, config: Config) {
    forall i, j :: 0 <= i < |at| && 0 <= j < |at| ==> at[i] < at[j] + config.responseTimeout
  }

  /** The live session of the phone, if any, is overdue for none of the callers. */
  ghost predicate NoneOverdue(sessions: Table, deviceId: nat, at: seq<int>) {
    forall id, i :: 0 <= id < |sessions| && Live(sessions[id], deviceId) && 0 <= i < |at| ==>
      at[i] < sessions[id].expiresAt
  }

  lemma {:induction false} NoneLive(sessions: Table, deviceId: nat)
    requires FindLive(sessions, deviceId).None?
    ensures LiveOf(sessions, deviceId) == 0
  {
    if sessions != [] {
      NoneLive(sessions[..|sessions| - 1], deviceId);
    }
  }

  lemma OneMoreLive(sessions: Table, s: Session)
    requires !IsTerminal(s.state)
    ensures LiveOf(sessions + [s], s.deviceId) == LiveOf(sessions, s.deviceId) + 1
    ensures FindLive(sessions + [s], s.deviceId) == Some(|sessions|)
  {
    assert (sessions + [s])[..|sessions|] == sessions;
  }

  /** Where the requests stand: the phone is taken once one of them has created its session. */
  ghost predicate RequestsStand(r: Requests, o: Opening, at: seq<int>, s: R.System) {
    && r.stages == s.stages
    && (s.taken <==> FindLive(r.sessions, o.deviceId).Some?)
    && NoneOverdue(r.sessions, o.deviceId, at)
    && LiveOf(r.sessions, o.deviceId) == R.Count(r.stages)
  }

  lemma RequestStepStands(r: Requests, o: Opening, at: seq<int>, config: Config, s: R.System, i: nat)
    requires |at| == |r.stages| && Together(at, config) && RequestsStand(r, o, at, s)
    ensures RequestsStand(RequestStep(r, o, at, config, i), o, at, R.Step(s, i))
  {
    hide R.Count, LiveOf, FindLive;
    var after := RequestStep(r, o, at, config, i);
    if i < |r.stages| {
      R.CountUpdate(r.stages, i, after.stages[i]);
      if r.stages[i].Writing? {
        OneMoreLive(r.sessions, after.sessions[|r.sessions|]);
      }
    }
  }

  lemma {:induction false} RequestsFollow(
    sessions: Table, o: Opening, at: seq<int>, config: Config, schedule: seq<nat>, m: nat)
    requires m <= |schedule| && FindLive(sessions, o.deviceId).None? && Together(at, config)
    ensures RequestsStand(RequestsAfter(sessions, o, at, config, schedule, m), o, at, R.After(|at|, schedule, m))
  {
    if m == 0 {
      R.NobodyActed(|at|);
      NoneLive(sessions, o.deviceId);
    } else {
      hide RequestsStand, Together, RequestStep, R.Step;
      RequestsFollow(sessions, o, at, config, schedule, m - 1);
      RequestStepStands(RequestsAfter(sessions, o, at, config, schedule, m - 1), o, at, config,
                        R.After(|at|, schedule, m - 1), schedule[m - 1]);
    }
  }

  /**
   * Of any number of requests on a phone without a live session, in any interleaving,
   * exactly those open a session that look before the first one is created, and the
   * phone then has one live session for each of them.
   */
  lemma RequestedTogetherExactly(sessions: Table, o: Opening, at: seq<int>, config: Config, schedule: seq<nat>, i: nat)
    requires FindLive(sessions, o.deviceId).None? && Together(at, config) && i < |at|
    ensures var r := RequestsAfter(sessions, o, at, config, schedule, |schedule|);
      && (r.stages[i] == R.Acted <==> R.Overlaps(|at|, schedule, i))
      && LiveOf(r.sessions, o.deviceId) == R.Count(r.stages)
  {
    RequestsFollow(sessions, o, at, config, schedule, |schedule|);
    R.ActsExactly(|at|, schedule, i);
  }

  // ------------------------------------------------------------------------
  //  Runs that fail
  // ------------------------------------------------------------------------

  const TWO_MINUTES := Config(120_000, 600_000, 400_000)

  const TWO_REQUESTS := [Begin(RequestCall(1, 7, true, 0)), Begin(RequestCall(1, 7, true, 1)), Finish(0, 2), Finish(0, 3)]

  /** Two requests that look, then create: the phone has two live sessions. */
  lemma TwoRequestsLeaveTwoLive()
    ensures var after := AfterMoves(TWO_REQUESTS, 4, TWO_MINUTES).sessions;
      |after| == 2 && Live(after[0], 7) && Live(after[1], 7) && !OneLive(after)
  {
    var p := Creating(Opening(1, 7));
    assert AfterMoves(TWO_REQUESTS, 1, TWO_MINUTES) == Machine([], [p]);
    assert AfterMoves(TWO_REQUESTS, 2, TWO_MINUTES) == Machine([], [p, p]);
    var s := Session(1, 7, Requested, 2, None, None, 120_002, 0);
    assert AfterMoves(TWO_REQUESTS, 3, TWO_MINUTES) == Machine([s], [p]);
    assert BothLive(AfterMoves(TWO_REQUESTS, 4, TWO_MINUTES).sessions, 0, 1);
  }

  const LATE_ANSWER := [
    Begin(RequestCall(1, 7, true, 0)), Finish(0, 0),
    Begin(ConsentCall(7, 0, true, 10)), Begin(EndCall(OfCompany(1), 0, AdminStops, 20)), Finish(1, 20), Finish(0, 30),
    Begin(FrameCall(7, 0, 1000, 40))]

  lemma OneMoreMove(moves: seq<Move>, n: nat, config: Config)
    requires n < |moves|
    ensures AfterMoves(moves, n + 1, config) == Act(AfterMoves(moves, n, config), moves[n], config)
  {
  }

  const PENDING := Session(1, 7, Requested, 0, None, None, 120_000, 0)

  const STOPPED := PENDING.(state := EndedByAdmin, endedAt := Some(20))

  const RUNNING := STOPPED.(state := Accepted, startedAt := Some(30), expiresAt := 600_030)

  /** The request is made, the answer and the stop have read it. */
  lemma BothHaveRead()
    ensures AfterMoves(LATE_ANSWER, 4, TWO_MINUTES)
         == Machine([PENDING], [Answering(0, 7, true), Ending(0, 7, EndedByAdmin)])
  {
    assert AfterMoves(LATE_ANSWER, 0, TWO_MINUTES) == EMPTY;
    OneMoreMove(LATE_ANSWER, 0, TWO_MINUTES);
    OneMoreMove(LATE_ANSWER, 1, TWO_MINUTES);
    OneMoreMove(LATE_ANSWER, 2, TWO_MINUTES);
    OneMoreMove(LATE_ANSWER, 3, TWO_MINUTES);
    hide AfterMoves;
    assert AfterMoves(LATE_ANSWER, 1, TWO_MINUTES) == Machine([], [Creating(Opening(1, 7))]);
    assert AfterMoves(LATE_ANSWER, 2, TWO_MINUTES) == Machine([PENDING], []);
    assert AfterMoves(LATE_ANSWER, 3, TWO_MINUTES) == Machine([PENDING], [Answering(0, 7, true)]);
  }

  /** An answer reads the request, an administrator stops it, the answer is written: the session runs and relays images. */
  lemma LateAnswerReopens()
    ensures AfterMoves(LATE_ANSWER, 5, TWO_MINUTES) == Machine([STOPPED], [Answering(0, 7, true)])
    ensures AfterMoves(LATE_ANSWER, 6, TWO_MINUTES) == Machine([RUNNING], [])
    ensures AfterMoves(LATE_ANSWER, 7, TWO_MINUTES) == Machine([RUNNING], [Counting(0, 7)])
  {
    BothHaveRead();
    OneMoreMove(LATE_ANSWER, 4, TWO_MINUTES);
    OneMoreMove(LATE_ANSWER, 5, TWO_MINUTES);
    OneMoreMove(LATE_ANSWER, 6, TWO_MINUTES);
    hide AfterMoves;
  }

  /** Whatever the running session: an image read before a stop is relayed after it. */
  lemma ImageAfterTheEnd(sessions: Table, frame: Call, stop: Call, at: int, later: int, config: Config)
    requires frame.FrameCall? && Relays(sessions, frame, config)
    requires stop.EndCall? && stop.id == frame.id && Sees(stop.scope, sessions[frame.id])
    ensures var read := Act(Act(Machine(sessions, []), Begin(frame), config), Begin(stop), config);
      var stopped := Act(read, Finish(1, at), config).sessions;
      var after := Act(Act(read, Finish(1, at), config), Finish(0, later), config).sessions;
      && |stopped| == |after| == |sessions| && IsTerminal(stopped[frame.id].state)
      && after[frame.id] == stopped[frame.id].(frameCount := stopped[frame.id].frameCount + 1)
  {
  }
}
