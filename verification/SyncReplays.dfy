/** A batch pushed again after anything else the server does in between. */
module SyncReplays {
  import opened Wrappers
  import opened Sync
  import opened SyncProofs
  import A = Alerts
  import C = Commands
  import F = Fleet
  import R = FleetRuns

  /**
   * One step between two pushes of a batch: a push, a transaction on sessions and
   * phones, or any change at all to the commands or to the alerts.
   */
  datatype Between =
    | PushStep(batch: Batch)
    | FleetStep(call: R.Call)
    | CommandStep(rows: C.Table)
    | AlertStep(alerts: A.Table)

  function Apply(st: State, step: Between): State {
    match step
    case PushStep(b) => Pushed(st, b.phone, b.events, b.env)
    case FleetStep(call) => st.(fleet := R.Apply(st.fleet, call))
    case CommandStep(rows) => st.(commands := rows)
    case AlertStep(alerts) => st.(alerts := alerts)
  }

  function Run(st: State, steps: seq<Between>): State
    decreases |steps|
  {
    if steps == [] then st else Run(Apply(st, steps[0]), steps[1..])
  }

  // ------------------------------------------------------------------------
  //  What every step keeps
  // ------------------------------------------------------------------------

  /** Sessions are added and closed, event rows added, last positions moved forward. */
  ghost predicate Keeps(a: State, b: State) {
    && |a.fleet.sessions| <= |b.fleet.sessions|
    && (forall id :: 0 <= id < |a.fleet.sessions| ==> SessionKept(a.fleet.sessions[id], b.fleet.sessions[id]))
    && a.crossings.Keys <= b.crossings.Keys && a.securityEvents.Keys <= b.securityEvents.Keys
    && a.scans.Keys <= b.scans.Keys && a.locations.Keys <= b.locations.Keys
    && (forall d :: LastKept(a.last, b.last, d))
  }

  lemma KeepsOn(a: State, b: State, c: State)
    requires Keeps(a, b) && Keeps(b, c)
    ensures Keeps(a, c)
  {
    forall id | 0 <= id < |a.fleet.sessions| ensures SessionKept(a.fleet.sessions[id], c.fleet.sessions[id]) {
      assert SessionKept(a.fleet.sessions[id], b.fleet.sessions[id]);
    }
    forall d ensures LastKept(a.last, c.last, d) {
      assert LastKept(a.last, b.last, d) && LastKept(b.last, c.last, d);
    }
  }

  lemma FleetStepKeeps(st: State, call: R.Call)
    ensures Keeps(st, Apply(st, FleetStep(call)))
  {
    hide R.Apply;
    R.StepFollows(st.fleet, call);
    var after := R.Apply(st.fleet, call).sessions;
    forall id | 0 <= id < |st.fleet.sessions| ensures SessionKept(st.fleet.sessions[id], after[id]) {
      assert R.Follows(st.fleet.sessions[id], after[id]);
    }
  }

  lemma StepKeeps(st: State, step: Between)
    ensures Keeps(st, Apply(st, step))
  {
    hide Pushed, R.Apply;
    match step
    case PushStep(b) => PushGrows(st, b.phone, b.events, b.env);
    case FleetStep(call) => FleetStepKeeps(st, call);
    case CommandStep(_) =>
    case AlertStep(_) =>
  }

  lemma {:induction false} RunKeeps(st: State, steps: seq<Between>)
    ensures Keeps(st, Run(st, steps))
    decreases |steps|
  {
    hide Apply;
    if steps != [] {
      var next := Apply(st, steps[0]);
      StepKeeps(st, steps[0]);
      RunKeeps(next, steps[1..]);
      KeepsOn(st, next, Run(next, steps[1..]));
    }
  }

  // ------------------------------------------------------------------------
  //  Events on record
  // ------------------------------------------------------------------------

  /** The event's row is stored, and the session it names, if any, is not to be revoked. */
  predicate Recorded(st: State, phone: Phone, e: Event, env: Env) {
    env.fails(e) || match e.kind
      case Crossing => e.id in st.crossings || phone.depot.None?
      case Security => e.security.None? || e.id in st.securityEvents
      case BarcodeScan => e.id in st.scans && !MustRevoke(st, phone, e, env.valid)
      case Location => true
  }

  /** No session opened from `n` to `m` takes the id the event names: ids are drawn afresh. */
  predicate NamesNoLater(e: Event, n: nat, m: nat) {
    e.kind == BarcodeScan && e.sessionId.Some? ==> e.sessionId.value < n || m <= e.sessionId.value
  }

  lemma StaysRecorded(a: State, b: State, phone: Phone, e: Event, env: Env)
    requires Keeps(a, b) && Absorbed(a, phone, e, env)
    requires NamesNoLater(e, |a.fleet.sessions|, |b.fleet.sessions|)
    ensures Recorded(b, phone, e, env)
  {
    if e.kind == BarcodeScan && e.sessionId.Some? && e.sessionId.value < |a.fleet.sessions| {
      assert SessionKept(a.fleet.sessions[e.sessionId.value], b.fleet.sessions[e.sessionId.value]);
    }
  }

  /** Nothing but the alerts differs, and none of them is lost. */
  ghost predicate OnlyAlerts(a: State, b: State) {
    b == a.(alerts := b.alerts) && a.alerts <= b.alerts
  }

  lemma RecordedRaisesAtMost(st: State, phone: Phone, e: Event, env: Env)
    requires Recorded(st, phone, e, env)
    ensures OnlyAlerts(st, Handled(st, phone, e, env))
  {
    hide A.Raised, F.Crossed, F.DecisionFor;
    if e.security.Some? {
      RaisedGrows(st.alerts, phone.companyId, Some(A.Security(phone.id, e.security.value)));
    }
  }

  lemma {:induction false} AllRecordedRaiseAtMost(st: State, phone: Phone, events: seq<Event>, env: Env)
    requires forall e :: e in events ==> Recorded(st, phone, e, env)
    ensures OnlyAlerts(st, HandledAll(st, phone, events, env))
    decreases |events|
  {
    hide Handled;
    if events != [] {
      var next := Handled(st, phone, events[0], env);
      RecordedRaisesAtMost(st, phone, events[0], env);
      forall e | e in events[1..] ensures Recorded(next, phone, e, env) {
        assert Recorded(st, phone, e, env);
      }
      AllRecordedRaiseAtMost(next, phone, events[1..], env);
    }
  }

  /** Every position with coordinates is stored, and none is later than the last one known. */
  ghost predicate PlacesRecorded(st: State, phone: Phone, places: seq<Event>) {
    forall e :: e in Located(places) ==>
      (e.at, e.id) in st.locations && phone.id in st.last && e.at <= st.last[phone.id].at
  }

  lemma PlacesStayRecorded(a: State, b: State, phone: Phone, places: seq<Event>)
    requires Keeps(a, b) && PlacesRecorded(a, phone, places)
    ensures PlacesRecorded(b, phone, places)
  {
    assert LastKept(a.last, b.last, phone.id);
    forall e | e in Located(places)
      ensures (e.at, e.id) in b.locations && phone.id in b.last && e.at <= b.last[phone.id].at
    {
      assert (e.at, e.id) in a.locations.Keys;
    }
  }

  lemma PlacesRaiseAtMost(st: State, phone: Phone, places: seq<Event>)
    requires PlacesRecorded(st, phone, places)
    ensures OnlyAlerts(st, Positioned(st, phone, places))
  {
    hide A.Raised, AddLocations, F.ActiveOf;
    AddLocationsKeeps(st.locations, phone, F.ActiveOf(st.fleet.sessions, phone.id), Located(places));
    RaisedGrows(st.alerts, phone.companyId, Some(A.MockLocation(phone.id)));
  }

  // ------------------------------------------------------------------------
  //  The replay
  // ------------------------------------------------------------------------

  /** The batch meets the same failures and the same active badges and drivers. */
  ghost predicate SameFate(first: Env, again: Env) {
    again.fails == first.fails && again.valid == first.valid
  }

  /**
   * Whatever scans, ends, expiries, executed commands, crossings, enrolments and
   * pushes come in between, and whatever becomes of commands and alerts: pushing a
   * batch again leaves event rows, sessions, phones, commands, positions and last
   * positions as they are, and can only raise alerts.
   */
  lemma ReplayOnlyRaises(st: State, batch: Batch, steps: seq<Between>, again: Env)
    requires SameFate(batch.env, again)
    requires var first := Pushed(st, batch.phone, batch.events, batch.env);
      forall e :: e in OfKind(Ordered(batch.events), false) ==>
        NamesNoLater(e, |first.fleet.sessions|, |Run(first, steps).fleet.sessions|)
    ensures var before := Run(Pushed(st, batch.phone, batch.events, batch.env), steps);
      OnlyAlerts(before, Pushed(before, batch.phone, batch.events, again))
  {
    hide HandledAll, Positioned, A.Raised, Absorbed, Recorded, Keeps, Run, Skewed, NamesNoLater, MustRevoke;
    var Batch(phone, events, env) := batch;
    var others, places := OfKind(Ordered(events), false), OfKind(Ordered(events), true);
    var first := Pushed(st, phone, events, env);
    var before := Run(first, steps);
    PushAbsorbs(st, phone, events, env);
    RunKeeps(first, steps);
    forall e | e in others ensures Recorded(before, phone, e, again) {
      StaysRecorded(first, before, phone, e, env);
      SameRecord(before, phone, e, env, again);
    }
    PlacesStayRecorded(first, before, phone, places);
    AllRecordedRaiseAtMost(before, phone, others, again);
    var handled := HandledAll(before, phone, others, again);
    PlacesRaiseAtMost(handled, phone, places);
    var placed := Positioned(handled, phone, places);
    RaisedGrows(placed.alerts, phone.companyId, Some(A.ClockTampering(phone.id)));
  }

  lemma SameRecord(st: State, phone: Phone, e: Event, first: Env, again: Env)
    requires SameFate(first, again)
    ensures Recorded(st, phone, e, first) <==> Recorded(st, phone, e, again)
  {
  }
}
