/**
 * Screen sharing with the driver's consent (apps/api/src/screen-share/rules.ts,
 * apps/api/src/screen-share/screen-share.service.ts). A session's id is its
 * position in the table.
 */
module ScreenShare {
  import opened Wrappers

  datatype State = Requested | Accepted | Refused | EndedByDriver | EndedByAdmin | Expired | Failed

  datatype Event = DriverAccepts | DriverRefuses | DriverStops | AdminStops | CaptureFailed | DeadlineReached

  /** What `end` is called with. */
  type Stop = e: Event | e in {AdminStops, DriverStops, CaptureFailed} witness AdminStops

  predicate IsTerminal(state: State) {
    state != Requested && state != Accepted
  }

  datatype Transition = Applied(state: State) | Ignored | Rejected

  /** `transition`: replaying a stop on a finished session is ignored, anything else is rejected. */
  function Next(state: State, event: Event): Transition {
    if IsTerminal(state) then (if event in {AdminStops, DriverStops, DeadlineReached} then Ignored else Rejected)
    else match event
      case DeadlineReached => Applied(Expired)
      case AdminStops => Applied(EndedByAdmin)
      case CaptureFailed => Applied(Failed)
      case DriverAccepts => if state == Requested then Applied(Accepted) else Rejected
      case DriverRefuses => if state == Requested then Applied(Refused) else Rejected
      case DriverStops => if state == Accepted then Applied(EndedByDriver) else Rejected
  }

  datatype Session = Session(
    companyId: nat, deviceId: nat, state: State, requestedAt: int, startedAt: Option<int>, endedAt: Option<int>,
    expiresAt: int, frameCount: nat)

  type Table = seq<Session>

  datatype Config = Config(responseTimeout: int, maxDuration: int, maxFrame: nat)

  predicate AcceptsFrames(s: Session, now: int) {
    s.state == Accepted && now < s.expiresAt
  }

  predicate AwaitsDecision(s: Session, now: int) {
    s.state == Requested && now < s.expiresAt
  }

  // ------------------------------------------------------------------------
  //  Operations
  // ------------------------------------------------------------------------

  predicate Live(s: Session, deviceId: nat) {
    s.deviceId == deviceId && !IsTerminal(s.state)
  }

  /** `findFirst` of the phone's live session, the most recent request first. */
  function FindLive(sessions: Table, deviceId: nat): (r: Option<nat>)
    ensures r.Some? ==> r.value < |sessions| && Live(sessions[r.value], deviceId)
    ensures r.None? <==> forall id :: 0 <= id < |sessions| ==> !Live(sessions[id], deviceId)
  {
    if sessions == [] then None
    else
      var last := |sessions| - 1;
      if Live(sessions[last], deviceId) then Some(last) else FindLive(sessions[..last], deviceId)
  }

  /** `findOngoing` as a query: a live session whose deadline has passed is not one. */
  function Ongoing(sessions: Table, deviceId: nat, now: int): Option<nat> {
    var found := FindLive(sessions, deviceId);
    if found.Some? && now < sessions[found.value].expiresAt then found else None
  }

  /** `findOngoing` as a command: it closes that session. */
  function Looked(sessions: Table, deviceId: nat, now: int): Table {
    var found := FindLive(sessions, deviceId);
    if found.Some? && now >= sessions[found.value].expiresAt
    then sessions[found.value := sessions[found.value].(state := Expired, endedAt := Some(now))] else sessions
  }

  datatype Scope = OfDevice(deviceId: nat) | OfCompany(companyId: nat)

  predicate Sees(scope: Scope, s: Session) {
    match scope
    case OfDevice(d) => s.deviceId == d
    case OfCompany(c) => s.companyId == c
  }

  datatype Call =
    | RequestCall(companyId: nat, deviceId: nat, known: bool, now: int)
    | ConsentCall(deviceId: nat, id: nat, accepted: bool, now: int)
    | EndCall(scope: Scope, id: nat, event: Stop, now: int)
    | FrameCall(deviceId: nat, id: nat, size: nat, now: int)
    | LookCall(deviceId: nat, now: int)

  datatype Answer = NotFound | BadRequest | Forbidden | View(id: nat) | Relayed(sequence: nat) | Nothing

  function Consented(s: Session, accepted: bool, now: int, config: Config): Session {
    if accepted then s.(state := Accepted, startedAt := Some(now), expiresAt := now + config.maxDuration)
    else s.(state := Refused, endedAt := Some(now))
  }

  predicate Relays(sessions: Table, call: Call, config: Config) {
    && call.FrameCall? && call.id < |sessions| && sessions[call.id].deviceId == call.deviceId
    && AcceptsFrames(sessions[call.id], call.now) && call.size <= config.maxFrame
  }

  /** The call makes the driver's agreement to a pending request. */
  predicate Agrees(sessions: Table, call: Call) {
    && call.ConsentCall? && call.accepted && call.id < |sessions| && sessions[call.id].deviceId == call.deviceId
    && sessions[call.id].state == Requested
  }

  function Step(sessions: Table, call: Call, config: Config): Table {
    match call
    case RequestCall(company, d, known, now) =>
      if !known then sessions
      else if Ongoing(sessions, d, now).Some? then Looked(sessions, d, now)
      else Looked(sessions, d, now) + [Session(company, d, Requested, now, None, None, now + config.responseTimeout, 0)]
    case ConsentCall(d, id, accepted, now) =>
      if id < |sessions| && sessions[id].deviceId == d && sessions[id].state == Requested
      then sessions[id := Consented(sessions[id], accepted, now, config)] else sessions
    case EndCall(scope, id, event, now) =>
      if id < |sessions| && Sees(scope, sessions[id]) && Next(sessions[id].state, event).Applied?
      then sessions[id := sessions[id].(state := Next(sessions[id].state, event).state, endedAt := Some(now))] else sessions
    case FrameCall(_, id, _, _) =>
      if Relays(sessions, call, config)
      then sessions[id := sessions[id].(frameCount := sessions[id].frameCount + 1)] else sessions
    case LookCall(d, now) => Looked(sessions, d, now)
  }

  class ScreenShareService {
    const config: Config
    var sessions: Table

    constructor (config: Config)
      ensures this.config == config && sessions == []
    {
      this.config := config;
      sessions := [];
    }

    /** `findOngoing` with `refresh`. */
    method FindOngoing(deviceId: nat, now: int) returns (found: Option<nat>)
      modifies this
      ensures sessions == Looked(old(sessions), deviceId, now)
      ensures found == Ongoing(old(sessions), deviceId, now)
      ensures found.Some? ==> sessions == old(sessions)
    {
      found := FindLive(sessions, deviceId);
      if found.Some? {
        found := Refresh(found.value, now);
      }
    }

    method Refresh(id: nat, now: int) returns (still: Option<nat>)
      requires id < |sessions|
      modifies this
      ensures still == if IsTerminal(old(sessions)[id].state) || now >= old(sessions)[id].expiresAt then None else Some(id)
      ensures sessions == if IsTerminal(old(sessions)[id].state) || now < old(sessions)[id].expiresAt then old(sessions)
                          else old(sessions)[id := old(sessions)[id].(state := Expired, endedAt := Some(now))]
    {
      if IsTerminal(sessions[id].state) {
        return None;
      }
      if now < sessions[id].expiresAt {
        return Some(id);
      }
      sessions := sessions[id := sessions[id].(state := Expired, endedAt := Some(now))];
      still := None;
    }

    method Request(companyId: nat, deviceId: nat, known: bool, now: int) returns (answer: Answer)
      modifies this
      ensures sessions == Step(old(sessions), RequestCall(companyId, deviceId, known, now), config)
      ensures answer == if !known then NotFound
                        else if Ongoing(old(sessions), deviceId, now).Some? then BadRequest
                        else View(|old(sessions)|)
    {
      if !known {
        return NotFound;
      }
      var ongoing := FindOngoing(deviceId, now);
      if ongoing.Some? {
        return BadRequest;
      }
      answer := View(|sessions|);
      sessions := sessions + [Session(companyId, deviceId, Requested, now, None, None, now + config.responseTimeout, 0)];
    }

    method RecordConsent(deviceId: nat, id: nat, accepted: bool, now: int) returns (answer: Answer)
      modifies this
      ensures sessions == Step(old(sessions), ConsentCall(deviceId, id, accepted, now), config)
      ensures answer == if id >= |old(sessions)| || old(sessions)[id].deviceId != deviceId then NotFound
                        else if old(sessions)[id].state == Requested then View(id) else BadRequest
    {
      if id >= |sessions| || sessions[id].deviceId != deviceId {
        return NotFound;
      }
      var result := Next(sessions[id].state, if accepted then DriverAccepts else DriverRefuses);
      if !result.Applied? {
        return BadRequest;
      }
      var updated := sessions[id].(state := result.state);
      if accepted {
        updated := updated.(startedAt := Some(now), expiresAt := now + config.maxDuration);
      } else {
        updated := updated.(endedAt := Some(now));
      }
      sessions := sessions[id := updated];
      answer := View(id);
    }

    method End(scope: Scope, id: nat, event: Stop, now: int) returns (answer: Answer)
      modifies this
      ensures sessions == Step(old(sessions), EndCall(scope, id, event, now), config)
      ensures answer == if id >= |old(sessions)| || !Sees(scope, old(sessions)[id]) then NotFound
                        else if Next(old(sessions)[id].state, event) == Rejected then BadRequest else View(id)
    {
      if id >= |sessions| || !Sees(scope, sessions[id]) {
        return NotFound;
      }
      var result := Next(sessions[id].state, event);
      if !result.Applied? {
        return if result == Rejected then BadRequest else View(id);
      }
      sessions := sessions[id := sessions[id].(state := result.state, endedAt := Some(now))];
      answer := View(id);
    }

    method RelayFrame(deviceId: nat, id: nat, size: nat, now: int) returns (answer: Answer)
      modifies this
      ensures var call := FrameCall(deviceId, id, size, now);
        && sessions == Step(old(sessions), call, config)
        && (answer.Relayed? <==> Relays(old(sessions), call, config))
        && (answer.Relayed? ==> answer.sequence == sessions[id].frameCount)
        && (answer == NotFound <==> id >= |old(sessions)| || old(sessions)[id].deviceId != deviceId)
        && (answer == BadRequest <==>
              id < |old(sessions)| && old(sessions)[id].deviceId == deviceId && AcceptsFrames(old(sessions)[id], now)
              && size > config.maxFrame)
        && (answer.Relayed? || answer in {NotFound, BadRequest, Forbidden})
    {
      if id >= |sessions| || sessions[id].deviceId != deviceId {
        return NotFound;
      }
      if !AcceptsFrames(sessions[id], now) {
        return Forbidden;
      }
      if size > config.maxFrame {
        return BadRequest;
      }
      sessions := sessions[id := sessions[id].(frameCount := sessions[id].frameCount + 1)];
      answer := Relayed(sessions[id].frameCount);
    }
  }

  // ------------------------------------------------------------------------
  //  Runs
  // ------------------------------------------------------------------------

  function After(calls: seq<Call>, n: nat, config: Config): Table
    requires n <= |calls|
  {
    if n == 0 then [] else Step(After(calls, n - 1, config), calls[n - 1], config)
  }

  /** Call `k` relays an image of session `id`. */
  predicate RelaysAt(calls: seq<Call>, k: nat, id: nat, config: Config) {
    k < |calls| && Relays(After(calls, k, config), calls[k], config) && calls[k].id == id
  }

  /** Call `k` is the driver's agreement to session `id`. */
  predicate AgreesAt(calls: seq<Call>, k: nat, id: nat, config: Config) {
    k < |calls| && Agrees(After(calls, k, config), calls[k]) && calls[k].id == id
  }

  /** The images of session `id` relayed by the first `n` calls. */
  function Frames(calls: seq<Call>, n: nat, id: nat, config: Config): nat
    requires n <= |calls|
  {
    if n == 0 then 0 else Frames(calls, n - 1, id, config) + (if RelaysAt(calls, n - 1, id, config) then 1 else 0)
  }

  // ------------------------------------------------------------------------
  //  At most one live session
  // ------------------------------------------------------------------------

  predicate BothLive(sessions: Table, a: int, b: int) {
    && 0 <= a < |sessions| && 0 <= b < |sessions|
    && Live(sessions[a], sessions[b].deviceId) && Live(sessions[b], sessions[b].deviceId)
  }

  ghost predicate OneLive(sessions: Table) {
    forall a, b :: BothLive(sessions, a, b) ==> a == b
  }

  lemma LookLeavesOngoing(sessions: Table, deviceId: nat, now: int)
    requires OneLive(sessions)
    ensures OneLive(Looked(sessions, deviceId, now))
    ensures Ongoing(sessions, deviceId, now).None? ==> FindLive(Looked(sessions, deviceId, now), deviceId).None?
  {
    var found := FindLive(sessions, deviceId);
    if found.Some? {
      var after := Looked(sessions, deviceId, now);
      assert forall id :: 0 <= id < |sessions| && !IsTerminal(after[id].state) ==> after[id] == sessions[id];
      forall id | 0 <= id < |sessions| && Live(sessions[id], deviceId) ensures id == found.value {
        assert BothLive(sessions, id, found.value);
      }
      forall a, b | BothLive(after, a, b) ensures a == b {
        assert BothLive(sessions, a, b);
      }
    }
  }

  lemma StepKeepsOneLive(sessions: Table, call: Call, config: Config)
    requires OneLive(sessions)
    ensures OneLive(Step(sessions, call, config))
  {
    hide Looked, Ongoing;
    match call
    case RequestCall(company, d, _, now) =>
      LookLeavesOngoing(sessions, d, now);
      OneMore(Looked(sessions, d, now), Session(company, d, Requested, now, None, None, now + config.responseTimeout, 0));
    case LookCall(d, now) => LookLeavesOngoing(sessions, d, now);
    case ConsentCall(_, _, _, _) => SameOrLessLive(sessions, Step(sessions, call, config));
    case EndCall(_, _, _, _) => SameOrLessLive(sessions, Step(sessions, call, config));
    case FrameCall(_, _, _, _) => SameOrLessLive(sessions, Step(sessions, call, config));
  }

  lemma OneMore(sessions: Table, s: Session)
    requires OneLive(sessions)
    ensures FindLive(sessions, s.deviceId).None? ==> OneLive(sessions + [s])
  {
    if FindLive(sessions, s.deviceId).None? {
      var after := sessions + [s];
      forall a, b | BothLive(after, a, b) ensures a == b {
        if a < |sessions| && b < |sessions| {
          assert BothLive(sessions, a, b);
        }
      }
    }
  }

  lemma SameOrLessLive(before: Table, after: Table)
    requires OneLive(before) && |before| == |after|
    requires forall id :: 0 <= id < |before| ==>
      after[id].deviceId == before[id].deviceId && (!IsTerminal(after[id].state) ==> !IsTerminal(before[id].state))
    ensures OneLive(after)
  {
    forall a, b | BothLive(after, a, b) ensures a == b {
      assert BothLive(before, a, b);
    }
  }

  /** Whatever the calls, a phone never has two sessions awaiting an answer or running. */
  lemma {:induction false} AtMostOneLive(calls: seq<Call>, n: nat, config: Config)
    requires n <= |calls|
    ensures OneLive(After(calls, n, config))
  {
    hide Step;
    if n > 0 {
      AtMostOneLive(calls, n - 1, config);
      StepKeepsOneLive(After(calls, n - 1, config), calls[n - 1], config);
    }
  }

  // ------------------------------------------------------------------------
  //  What each call does to a session
  // ------------------------------------------------------------------------

  /** The transitions there are: each event, from where it leads where. */
  const TRANSITIONS: set<(State, Event, State)> := {
    (Requested, DriverAccepts, Accepted), (Requested, DriverRefuses, Refused), (Accepted, DriverStops, EndedByDriver),
    (Requested, AdminStops, EndedByAdmin), (Accepted, AdminStops, EndedByAdmin),
    (Requested, CaptureFailed, Failed), (Accepted, CaptureFailed, Failed),
    (Requested, DeadlineReached, Expired), (Accepted, DeadlineReached, Expired)}

  /** There is no other; on a finished session a stop or the deadline is ignored, and everything else is rejected. */
  lemma NextExactly(a: State, e: Event)
    ensures forall b :: Next(a, e) == Applied(b) <==> (a, e, b) in TRANSITIONS
    ensures Next(a, e) == Ignored <==>
      a in {Refused, EndedByDriver, EndedByAdmin, Expired, Failed} && e in {AdminStops, DriverStops, DeadlineReached}
  {
  }

  /** The answer of the phone to its pending request. */
  predicate AnswersIt(s: Session, id: nat, call: Call) {
    call.ConsentCall? && call.id == id && call.deviceId == s.deviceId && s.state == Requested
  }

  /** A stop of the session by its phone or its company. */
  predicate StopsIt(s: Session, id: nat, call: Call) {
    call.EndCall? && call.id == id &&
    match call.scope
    case OfDevice(d) => d == s.deviceId
    case OfCompany(c) => c == s.companyId
  }

  /** An image of the phone in its running session, in time and small enough. */
  predicate ShowsIt(s: Session, id: nat, call: Call, config: Config) {
    && call.FrameCall? && call.id == id && call.deviceId == s.deviceId
    && s.state == Accepted && call.now < s.expiresAt && call.size <= config.maxFrame
  }

  /** A look at the phone, by itself or for a request, once its session is overdue. */
  predicate FindsItOverdue(s: Session, call: Call) {
    && (call.LookCall? || (call.RequestCall? && call.known)) && call.deviceId == s.deviceId
    && s.state in {Requested, Accepted} && s.expiresAt <= call.now
  }

  /** What a call makes of an existing session; anything but the four leaves it as it is. */
  lemma CallExactly(sessions: Table, call: Call, config: Config, id: nat)
    requires OneLive(sessions) && id < |sessions|
    ensures |sessions| <= |Step(sessions, call, config)|
    ensures var (s, after) := (sessions[id], Step(sessions, call, config)[id]);
      && (AnswersIt(s, id, call) ==>
            after == if call.accepted
                     then s.(state := Accepted, startedAt := Some(call.now), expiresAt := call.now + config.maxDuration)
                     else s.(state := Refused, endedAt := Some(call.now)))
      && (StopsIt(s, id, call) ==>
            forall b :: (s.state, call.event, b) in TRANSITIONS ==> after == s.(state := b, endedAt := Some(call.now)))
      && (ShowsIt(s, id, call, config) ==> after == s.(frameCount := s.frameCount + 1))
      && (FindsItOverdue(s, call) ==> after == s.(state := Expired, endedAt := Some(call.now)))
      && (after != s ==>
            || AnswersIt(s, id, call) || ShowsIt(s, id, call, config) || FindsItOverdue(s, call)
            || (StopsIt(s, id, call) && exists b :: (s.state, call.event, b) in TRANSITIONS))
  {
    if !IsTerminal(sessions[id].state) {
      LiveIsFound(sessions, id);
    }
    if call.EndCall? {
      NextExactly(sessions[id].state, call.event);
    }
    hide OneLive, FindLive;
  }

  /** A request opens a session exactly when the phone is known and has none in time; it awaits an answer for the response time. */
  lemma RequestExactly(sessions: Table, call: Call, config: Config)
    requires OneLive(sessions) && call.RequestCall?
    ensures var after := Step(sessions, call, config);
      if call.known && forall id :: 0 <= id < |sessions| ==>
           !(sessions[id].deviceId == call.deviceId && sessions[id].state in {Requested, Accepted}
             && call.now < sessions[id].expiresAt)
      then |after| == |sessions| + 1 && after[|sessions|] == Session(
             call.companyId, call.deviceId, Requested, call.now, None, None, call.now + config.responseTimeout, 0)
      else |after| == |sessions|
  {
    var found := FindLive(sessions, call.deviceId);
    forall id: nat | id < |sessions| && Live(sessions[id], call.deviceId) ensures found == Some(id) {
      LiveIsFound(sessions, id);
    }
    hide OneLive, FindLive;
  }

  // ------------------------------------------------------------------------
  //  Consent
  // ------------------------------------------------------------------------

  /** A session keeps its phone and its start; once over, it keeps everything. */
  predicate Follows(a: Session, b: Session) {
    && b.deviceId == a.deviceId && b.companyId == a.companyId && b.requestedAt == a.requestedAt
    && a.frameCount <= b.frameCount
    && (a.startedAt.Some? ==> b.startedAt == a.startedAt && b.expiresAt == a.expiresAt)
    && (IsTerminal(a.state) ==> b == a)
    && (a.state == Accepted ==> b.state != Requested)
  }

  ghost predicate History(a: Table, b: Table) {
    |a| <= |b| && forall id :: 0 <= id < |a| ==> Follows(a[id], b[id])
  }

  /** A running session has a start, and ends `maxDuration` after it; a pending one has none, and awaits its answer. */
  predicate Dated(s: Session, config: Config) {
    && (s.state == Requested ==> s.startedAt.None? && s.expiresAt == s.requestedAt + config.responseTimeout)
    && (s.state == Accepted ==> s.startedAt.Some?)
    && (s.startedAt.Some? ==> s.expiresAt == s.startedAt.value + config.maxDuration)
  }

  ghost predicate AllDated(sessions: Table, config: Config) {
    forall id :: 0 <= id < |sessions| ==> Dated(sessions[id], config)
  }

  lemma StepFollows(sessions: Table, call: Call, config: Config)
    requires AllDated(sessions, config)
    ensures AllDated(Step(sessions, call, config), config) && History(sessions, Step(sessions, call, config))
  {
    assert forall id :: 0 <= id < |sessions| ==> Dated(sessions[id], config);
  }

  lemma {:induction false} RunFollows(calls: seq<Call>, m: nat, n: nat, config: Config)
    requires m <= n <= |calls|
    ensures AllDated(After(calls, n, config), config)
    ensures History(After(calls, m, config), After(calls, n, config))
    decreases n
  {
    hide Step;
    if n > 0 {
      RunFollows(calls, if m < n then m else n - 1, n - 1, config);
      StepFollows(After(calls, n - 1, config), calls[n - 1], config);
      if m < n {
        FollowsOn(After(calls, m, config), After(calls, n - 1, config), After(calls, n, config));
      }
    }
  }

  lemma FollowsOn(a: Table, b: Table, c: Table)
    requires History(a, b) && History(b, c)
    ensures History(a, c)
  {
  }

  /** A start in a row is the date of an agreement. */
  lemma {:induction false} StartIsAnAgreement(calls: seq<Call>, n: nat, id: nat, config: Config) returns (j: nat)
    requires n <= |calls| && id < |After(calls, n, config)| && After(calls, n, config)[id].startedAt.Some?
    ensures j < n && AgreesAt(calls, j, id, config) && calls[j].now == After(calls, n, config)[id].startedAt.value
  {
    hide Step;
    var before := After(calls, n - 1, config);
    if id < |before| && before[id].startedAt.Some? {
      RunFollows(calls, n - 1, n, config);
      assert Follows(before[id], After(calls, n, config)[id]);
      j := StartIsAnAgreement(calls, n - 1, id, config);
    } else {
      StartsByAgreement(before, calls[n - 1], id, config);
      j := n - 1;
    }
  }

  lemma StartsByAgreement(sessions: Table, call: Call, id: nat, config: Config)
    requires id < |Step(sessions, call, config)| && Step(sessions, call, config)[id].startedAt.Some?
    requires id < |sessions| ==> sessions[id].startedAt.None?
    ensures Agrees(sessions, call) && call.id == id
    ensures Step(sessions, call, config)[id].startedAt.value == call.now
  {
  }

  /** The dates of the calls never go back. */
  ghost predicate Chronological(calls: seq<Call>) {
    forall i, j :: 0 <= i < j < |calls| ==> calls[i].now <= calls[j].now
  }

  /**
   * No image without the driver's agreement, and none once the agreed duration
   * has run out: every image relayed follows an agreement given by that phone to
   * that session, by less than `maxDuration`, and there is only one agreement.
   */
  lemma EveryFrameIsConsentedTo(calls: seq<Call>, k: nat, id: nat, config: Config) returns (j: nat)
    requires RelaysAt(calls, k, id, config)
    ensures j < k && AgreesAt(calls, j, id, config) && calls[j].deviceId == calls[k].deviceId
    ensures calls[k].now < calls[j].now + config.maxDuration
    ensures Chronological(calls) ==> calls[j].now <= calls[k].now
    ensures forall other: nat :: AgreesAt(calls, other, id, config) ==> other == j
  {
    RunFollows(calls, k, k, config);
    assert Dated(After(calls, k, config)[id], config);
    j := StartIsAnAgreement(calls, k, id, config);
    RunFollows(calls, j, k, config);
    assert Follows(After(calls, j, config)[id], After(calls, k, config)[id]);
    forall other: nat | AgreesAt(calls, other, id, config) ensures other == j {
      OneAgreement(calls, j, other, id, config);
    }
  }

  lemma AgreementShows(sessions: Table, call: Call, config: Config)
    requires Agrees(sessions, call)
    ensures call.id < |sessions| && sessions[call.id].state == Requested
    ensures var after := Step(sessions, call, config); |after| == |sessions| && after[call.id].state == Accepted
  {
  }

  lemma AnsweredForGood(a: Table, b: Table, id: nat)
    requires History(a, b) && id < |a| && a[id].state == Accepted
    ensures id < |b| && b[id].state != Requested
  {
  }

  lemma AfterStep(calls: seq<Call>, k: nat, config: Config)
    requires k < |calls|
    ensures After(calls, k + 1, config) == Step(After(calls, k, config), calls[k], config)
  {
  }

  lemma NoLongerPending(calls: seq<Call>, first: nat, second: nat, id: nat, config: Config)
    requires AgreesAt(calls, first, id, config) && first < second <= |calls|
    ensures id < |After(calls, second, config)| && After(calls, second, config)[id].state != Requested
  {
    hide After, Step, Agrees, History, AllDated;
    AgreementShows(After(calls, first, config), calls[first], config);
    AfterStep(calls, first, config);
    RunFollows(calls, first + 1, second, config);
    AnsweredForGood(After(calls, first + 1, config), After(calls, second, config), id);
  }

  /** A session is agreed to once at most. */
  lemma OneAgreement(calls: seq<Call>, a: nat, b: nat, id: nat, config: Config)
    requires AgreesAt(calls, a, id, config) && AgreesAt(calls, b, id, config)
    ensures a == b
  {
    hide After;
    if a < b {
      NoLongerPending(calls, a, b, id, config);
    } else if b < a {
      NoLongerPending(calls, b, a, id, config);
    }
  }

  // ------------------------------------------------------------------------
  //  Counting
  // ------------------------------------------------------------------------

  lemma StepCounts(sessions: Table, call: Call, id: nat, config: Config)
    ensures var after := Step(sessions, call, config);
      && |sessions| <= |after|
      && (id < |sessions| ==>
            var relayed := if Relays(sessions, call, config) && call.id == id then 1 else 0;
            after[id].frameCount == sessions[id].frameCount + relayed)
      && (|sessions| <= id < |after| ==> after[id].frameCount == 0)
  {
  }

  /** The counter of a session is the number of its images that were relayed, neither more nor less. */
  lemma {:induction false} CounterIsTheFrames(calls: seq<Call>, n: nat, id: nat, config: Config)
    requires n <= |calls|
    ensures var sessions := After(calls, n, config);
      if id < |sessions| then sessions[id].frameCount == Frames(calls, n, id, config) else Frames(calls, n, id, config) == 0
  {
    hide Step;
    if n > 0 {
      CounterIsTheFrames(calls, n - 1, id, config);
      StepCounts(After(calls, n - 1, config), calls[n - 1], id, config);
    }
  }

  /** Once over, a session is over for good: same row, same counter, no image after. */
  lemma OverForGood(calls: seq<Call>, m: nat, n: nat, id: nat, config: Config)
    requires m <= n <= |calls| && id < |After(calls, m, config)| && IsTerminal(After(calls, m, config)[id].state)
    ensures id < |After(calls, n, config)| && After(calls, n, config)[id] == After(calls, m, config)[id]
    ensures Frames(calls, n, id, config) == Frames(calls, m, id, config)
    ensures !RelaysAt(calls, n, id, config)
  {
    RunFollows(calls, m, n, config);
    assert Follows(After(calls, m, config)[id], After(calls, n, config)[id]);
    CounterIsTheFrames(calls, m, id, config);
    CounterIsTheFrames(calls, n, id, config);
  }

  // ------------------------------------------------------------------------
  //  The response deadline
  // ------------------------------------------------------------------------

  /**
   * The call settles a pending request: an answer of its phone, a stop other than
   * the driver's, or a look at the phone, by itself or for a new request, once the
   * time to answer has run out.
   */
  predicate Settles(s: Session, id: nat, call: Call, config: Config) {
    match call
    case ConsentCall(d, i, _, _) => i == id && d == s.deviceId
    case EndCall(scope, i, event, _) => i == id && Sees(scope, s) && event != DriverStops
    case LookCall(d, now) => d == s.deviceId && s.requestedAt + config.responseTimeout <= now
    case RequestCall(_, d, known, now) => known && d == s.deviceId && s.requestedAt + config.responseTimeout <= now
    case FrameCall(_, _, _, _) => false
  }

  /** Some call among the first `n`, made once the session existed, settled the request. */
  ghost predicate SettledBefore(calls: seq<Call>, n: nat, id: nat, config: Config)
    requires n <= |calls|
  {
    exists j: nat :: j < n && SettlesAt(calls, j, id, config)
  }

  predicate SettlesAt(calls: seq<Call>, j: nat, id: nat, config: Config) {
    j < |calls| && id < |After(calls, j, config)| && Settles(After(calls, j, config)[id], id, calls[j], config)
  }

  lemma LiveIsFound(sessions: Table, id: nat)
    requires OneLive(sessions) && id < |sessions| && !IsTerminal(sessions[id].state)
    ensures FindLive(sessions, sessions[id].deviceId) == Some(id)
  {
    assert Live(sessions[id], sessions[id].deviceId);
    var found := FindLive(sessions, sessions[id].deviceId);
    assert BothLive(sessions, id, found.value);
  }

  /** A pending request stays pending exactly through the calls that do not settle it; a new one is pending. */
  lemma StepSettles(sessions: Table, call: Call, id: nat, config: Config)
    requires OneLive(sessions) && AllDated(sessions, config)
    ensures var after := Step(sessions, call, config);
      && |sessions| <= |after|
      && (id < |sessions| ==>
            (after[id].state == Requested <==> sessions[id].state == Requested && !Settles(sessions[id], id, call, config)))
      && (|sessions| <= id < |after| ==> after[id].state == Requested)
  {
    if id < |sessions| {
      assert Dated(sessions[id], config);
      if sessions[id].state == Requested {
        LiveIsFound(sessions, id);
      }
    }
  }

  lemma {:induction false} PendingExactly(calls: seq<Call>, n: nat, id: nat, config: Config)
    requires n <= |calls| && id < |After(calls, n, config)|
    ensures After(calls, n, config)[id].state == Requested <==> !SettledBefore(calls, n, id, config)
  {
    hide Step, Settles;
    var before := After(calls, n - 1, config);
    AtMostOneLive(calls, n - 1, config);
    RunFollows(calls, n - 1, n - 1, config);
    StepSettles(before, calls[n - 1], id, config);
    if id < |before| {
      PendingExactly(calls, n - 1, id, config);
      assert SettledBefore(calls, n, id, config) <==>
        SettledBefore(calls, n - 1, id, config) || SettlesAt(calls, n - 1, id, config);
    } else {
      forall j: nat | j < n ensures !SettlesAt(calls, j, id, config) {
        RunFollows(calls, j, n - 1, config);
      }
    }
  }

  /**
   * The rules let only a request before its deadline await an answer; the service
   * does not look at the deadline. In any run, an answer of the phone counts exactly
   * when no earlier answer, stop or look past the deadline has settled the request;
   * it counts after the deadline, against the rules, exactly when nobody has.
   */
  lemma ConsentExactly(calls: seq<Call>, k: nat, config: Config)
    requires k < |calls| && calls[k].ConsentCall?
    requires var id := calls[k].id;
      id < |After(calls, k, config)| && After(calls, k, config)[id].deviceId == calls[k].deviceId
    ensures var id, now := calls[k].id, calls[k].now;
      var before, after := After(calls, k, config)[id], After(calls, k + 1, config)[id];
      && (after != before <==> !SettledBefore(calls, k, id, config))
      && (AwaitsDecision(before, now) <==>
            !SettledBefore(calls, k, id, config) && now < before.requestedAt + config.responseTimeout)
  {
    RunFollows(calls, k, k, config);
    assert Dated(After(calls, k, config)[calls[k].id], config);
    PendingExactly(calls, k, calls[k].id, config);
  }

  /** Two minutes to answer, an acceptance after three: the sharing starts all the same. */
  lemma LateConsentStarts()
    ensures var config := Config(120_000, 600_000, 400_000);
      var calls := [RequestCall(1, 7, true, 0), ConsentCall(7, 0, true, 180_000), FrameCall(7, 0, 1000, 180_001)];
      !AwaitsDecision(After(calls, 1, config)[0], 180_000) && RelaysAt(calls, 2, 0, config)
  {
  }
}
