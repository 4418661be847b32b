/** What replaying a batch can and cannot change, and what the phone is told about it. */
module SyncProofs {
  import opened Wrappers
  import opened Sync
  import C = Commands
  import A = Alerts
  import F = Fleet

  // ------------------------------------------------------------------------
  //  Order of treatment
  // ------------------------------------------------------------------------

  ghost predicate InOrder(events: seq<Event>) {
    forall i, j :: 0 <= i < j < |events| ==> Precedes(events[i], events[j])
  }

  lemma {:induction false} InsertKeepsOrder(e: Event, sorted: seq<Event>)
    requires InOrder(sorted)
    ensures InOrder(Insert(e, sorted))
  {
    if sorted != [] && !Precedes(e, sorted[0]) {
      InsertKeepsOrder(e, sorted[1..]);
      forall f | f in Insert(e, sorted[1..]) ensures Precedes(sorted[0], f) {
        assert f in multiset(Insert(e, sorted[1..]));
      }
    }
  }

  /** The events of one kind with one sequence number, in their order of arrival. */
  function Tied(events: seq<Event>, priority: nat, seqNo: int): seq<Event> {
    if events == [] then []
    else if Priority(events[0].kind) == priority && events[0].seqNo == seqNo
    then [events[0]] + Tied(events[1..], priority, seqNo)
    else Tied(events[1..], priority, seqNo)
  }

  lemma {:induction false} InsertIsStable(e: Event, sorted: seq<Event>, priority: nat, seqNo: int)
    ensures Tied(Insert(e, sorted), priority, seqNo) == Tied([e], priority, seqNo) + Tied(sorted, priority, seqNo)
  {
    hide Tied, Precedes;
    TiedOfCons([e] + sorted, priority, seqNo);
    assert ([e] + sorted)[1..] == sorted;
    if sorted == [] {
      assert [e] + sorted == [e];
    } else if !Precedes(e, sorted[0]) {
      InsertIsStable(e, sorted[1..], priority, seqNo);
      StrictlyBefore(e, sorted[0], priority, seqNo);
      var inserted := [sorted[0]] + Insert(e, sorted[1..]);
      assert inserted[1..] == Insert(e, sorted[1..]);
      TiedOfCons(inserted, priority, seqNo);
      TiedOfCons(sorted, priority, seqNo);
    }
  }

  /**
   * Security events are handled first, then crossings, scans and positions, each
   * kind by sequence number; events with the same number keep their order.
   */
  lemma {:induction false} TreatedInOrder(events: seq<Event>, priority: nat, seqNo: int)
    ensures InOrder(Ordered(events))
    ensures Tied(Ordered(events), priority, seqNo) == Tied(events, priority, seqNo)
  {
    hide Insert, InOrder, Tied;
    if events == [] {
      NothingToOrder();
    } else {
      var sorted := Ordered(events[1..]);
      TreatedInOrder(events[1..], priority, seqNo);
      InsertKeepsOrder(events[0], sorted);
      InsertIsStable(events[0], sorted, priority, seqNo);
      TiedOfCons(events, priority, seqNo);
    }
  }

  /** Of two events in strict order, at most one has a given rank. */
  lemma StrictlyBefore(e: Event, first: Event, priority: nat, seqNo: int)
    requires !Precedes(e, first)
    ensures Tied([e], priority, seqNo) == [] || Tied([first], priority, seqNo) == []
  {
  }

  lemma NothingToOrder()
    ensures InOrder([])
  {
  }

  lemma TiedOfCons(events: seq<Event>, priority: nat, seqNo: int)
    requires events != []
    ensures Tied(events, priority, seqNo) == Tied([events[0]], priority, seqNo) + Tied(events[1..], priority, seqNo)
  {
    hide Priority;
    var e, rest := events[0], Tied(events[1..], priority, seqNo);
    if Priority(e.kind) == priority && e.seqNo == seqNo {
      assert [e][1..] == [];
      assert Tied([e], priority, seqNo) == [e];
    } else {
      assert [e][1..] == [];
      assert Tied([e], priority, seqNo) == [];
      assert [] + rest == rest;
    }
  }

  // ------------------------------------------------------------------------
  //  What the phone is told
  // ------------------------------------------------------------------------

  /** The positions without coordinates: the server says nothing of them. */
  function Silent(events: seq<Event>): seq<Event> {
    if events == [] then []
    else if events[0].kind == Location && events[0].position.None? then [events[0]] + Silent(events[1..])
    else Silent(events[1..])
  }

  function Answered(ordered: seq<Event>, env: Env): multiset<nat> {
    multiset(Ids(Split(OfKind(ordered, false), env, false))) + multiset(Ids(Split(OfKind(ordered, false), env, true)))
    + multiset(Ids(Located(OfKind(ordered, true))))
  }

  lemma IdsOfCons(e: Event, events: seq<Event>)
    ensures multiset(Ids([e] + events)) == multiset{e.id} + multiset(Ids(events))
  {
  }

  lemma ListsOfCons(e: Event, events: seq<Event>, env: Env, flag: bool)
    ensures OfKind([e] + events, flag) ==
      if (e.kind == Location) == flag then [e] + OfKind(events, flag) else OfKind(events, flag)
    ensures Split([e] + events, env, flag) ==
      if env.fails(e) == flag then [e] + Split(events, env, flag) else Split(events, env, flag)
    ensures Located([e] + events) == if e.position.Some? then [e] + Located(events) else Located(events)
    ensures Silent([e] + events) ==
      if e.kind == Location && e.position.None? then [e] + Silent(events) else Silent(events)
  {
  }

  /** One more event, in front: it is answered, or silent. */
  lemma AnsweredCons(e: Event, events: seq<Event>, env: Env)
    ensures Answered([e] + events, env) + multiset(Ids(Silent([e] + events))) ==
      Answered(events, env) + multiset(Ids(Silent(events))) + multiset{e.id}
  {
    hide OfKind, Split, Located, Silent, Ids;
    var others, places := OfKind(events, false), OfKind(events, true);
    ListsOfCons(e, events, env, false);
    ListsOfCons(e, events, env, true);
    if e.kind == Location {
      ListsOfCons(e, places, env, true);
      IdsOfCons(e, Located(places));
      IdsOfCons(e, Silent(events));
    } else {
      ListsOfCons(e, others, env, false);
      ListsOfCons(e, others, env, true);
      IdsOfCons(e, Split(others, env, env.fails(e)));
    }
  }

  lemma {:induction false} AnsweredAll(events: seq<Event>, env: Env)
    ensures Answered(events, env) + multiset(Ids(Silent(events))) == multiset(Ids(events))
  {
    if events != [] {
      assert events == [events[0]] + events[1..];
      AnsweredCons(events[0], events[1..], env);
      AnsweredAll(events[1..], env);
      IdsOfCons(events[0], events[1..]);
    }
  }

  lemma {:induction false} InsertKeepsIds(e: Event, sorted: seq<Event>)
    ensures multiset(Ids(Insert(e, sorted))) == multiset(Ids([e] + sorted))
    ensures multiset(Ids(Silent(Insert(e, sorted)))) == multiset(Ids(Silent([e] + sorted)))
  {
    hide Ids, Silent, Precedes;
    if sorted == [] {
      assert [e] + sorted == [e];
    } else if !Precedes(e, sorted[0]) {
      var first, rest := sorted[0], sorted[1..];
      InsertKeepsIds(e, rest);
      SwapFirst(e, first, rest);
      assert sorted == [first] + rest;
      ConsKeeps(first, Insert(e, rest), [e] + rest);
      assert Insert(e, sorted) == [first] + Insert(e, rest);
    }
  }

  lemma ConsKeeps(e: Event, a: seq<Event>, b: seq<Event>)
    requires multiset(Ids(a)) == multiset(Ids(b)) && multiset(Ids(Silent(a))) == multiset(Ids(Silent(b)))
    ensures multiset(Ids([e] + a)) == multiset(Ids([e] + b))
    ensures multiset(Ids(Silent([e] + a))) == multiset(Ids(Silent([e] + b)))
  {
    IdsOfCons(e, a);
    IdsOfCons(e, b);
    IdsOfCons(e, Silent(a));
    IdsOfCons(e, Silent(b));
    assert ([e] + a)[1..] == a && ([e] + b)[1..] == b;
  }

  lemma SwapFirst(a: Event, b: Event, rest: seq<Event>)
    ensures multiset(Ids([a] + ([b] + rest))) == multiset(Ids([b] + ([a] + rest)))
    ensures multiset(Ids(Silent([a] + ([b] + rest)))) == multiset(Ids(Silent([b] + ([a] + rest))))
  {
    hide Silent, Ids;
    SilentOfTwo(a, b, rest);
    SilentOfTwo(b, a, rest);
  }

  lemma SilentOfTwo(a: Event, b: Event, rest: seq<Event>)
    ensures multiset(Ids([a] + ([b] + rest))) == multiset{a.id} + multiset{b.id} + multiset(Ids(rest))
    ensures multiset(Ids(Silent([a] + ([b] + rest)))) ==
      multiset(Ids(Silent([a]))) + multiset(Ids(Silent([b]))) + multiset(Ids(Silent(rest)))
  {
    hide Silent, Ids;
    SilentOfCons(b, rest);
    SilentOfCons(a, [b] + rest);
  }

  lemma SilentOfCons(e: Event, rest: seq<Event>)
    ensures multiset(Ids([e] + rest)) == multiset{e.id} + multiset(Ids(rest))
    ensures multiset(Ids(Silent([e] + rest))) == multiset(Ids(Silent([e]))) + multiset(Ids(Silent(rest)))
  {
    IdsOfCons(e, rest);
    assert ([e] + rest)[1..] == rest && [e][1..] == [];
    if e.kind == Location && e.position.None? {
      IdsOfCons(e, Silent(rest));
      assert Silent([e]) == [e];
      assert Ids([e]) == [e.id];
    }
  }

  lemma {:induction false} OrderKeepsIds(events: seq<Event>)
    ensures multiset(Ids(Ordered(events))) == multiset(Ids(events))
    ensures multiset(Ids(Silent(Ordered(events)))) == multiset(Ids(Silent(events)))
  {
    hide Ids, Silent, Insert;
    if events != [] {
      OrderKeepsIds(events[1..]);
      InsertKeepsIds(events[0], Ordered(events[1..]));
      ConsKeeps(events[0], Ordered(events[1..]), events[1..]);
      assert events == [events[0]] + events[1..];
    }
  }

  /**
   * Nothing is lost and nothing is told twice: the ids acknowledged, the ids
   * rejected and those of the positions without coordinates are together the ids
   * of the batch, as many times each.
   */
  lemma EveryEventIsAnsweredOnce(events: seq<Event>, env: Env)
    ensures multiset(Acked(events, env)) + multiset(Rejected(events, env)) + multiset(Ids(Silent(events))) ==
      multiset(Ids(events))
  {
    AnsweredAll(Ordered(events), env);
    OrderKeepsIds(events);
  }

  ghost predicate DistinctIds(events: seq<Event>) {
    forall e, f :: e in events && f in events && e.id == f.id ==> e == f
  }

  /** With distinct ids: which event is acknowledged, and which is rejected. */
  lemma AnsweredExactly(events: seq<Event>, env: Env, e: Event)
    requires DistinctIds(events) && e in events
    ensures e.id in Acked(events, env) <==> if e.kind == Location then e.position.Some? else !env.fails(e)
    ensures e.id in Rejected(events, env) <==> e.kind != Location && env.fails(e)
  {
    var ordered := Ordered(events);
    forall f | f in ordered ensures f in events {
      assert f in multiset(ordered);
    }
    assert e in multiset(events);
    assert e in ordered;
    forall f | f in events && f.id == e.id ensures f == e {
    }
  }

  // ------------------------------------------------------------------------
  //  Events already absorbed
  // ------------------------------------------------------------------------

  ghost predicate HasOpen(alerts: A.Table, companyId: nat, key: A.DedupeKey) {
    exists id: nat :: A.OpenWith(alerts, id, companyId, key)
  }

  /** The state already shows everything the event can bring. */
  ghost predicate Absorbed(st: State, phone: Phone, e: Event, env: Env) {
    env.fails(e) || match e.kind
      case Crossing => e.id in st.crossings || phone.depot.None?
      case Security =>
        e.security.None? || (
          && e.id in st.securityEvents
          && (e.security.value.OtherSecurity?
              || HasOpen(st.alerts, phone.companyId, A.Security(phone.id, e.security.value))))
      case BarcodeScan => e.id in st.scans && !MustRevoke(st, phone, e, env.valid)
      case Location => true
  }

  lemma RaisedUnchanged(alerts: A.Table, companyId: nat, key: A.DedupeKey)
    ensures A.Raised(alerts, companyId, Some(key)) == alerts <==> HasOpen(alerts, companyId, key)
    ensures HasOpen(A.Raised(alerts, companyId, Some(key)), companyId, key)
  {
    A.RaiseIsIdempotent(alerts, companyId, key);
  }

  lemma EndingChanges(st: State, phone: Phone, e: Event, env: Env)
    requires MustRevoke(st, phone, e, env.valid)
    ensures var after := Scanned(st, phone, e, env);
      && |after.fleet.sessions| == |st.fleet.sessions|
      && after.fleet.sessions[e.sessionId.value].status != F.Active
  {
  }

  /**
   * An event changes nothing exactly when it is already absorbed. A security event
   * already stored still raises its alert again once the first one was closed.
   */
  lemma UnchangedExactly(st: State, phone: Phone, e: Event, env: Env)
    ensures Handled(st, phone, e, env) == st <==> Absorbed(st, phone, e, env)
  {
    hide A.Raised, F.Crossed, F.DecisionFor;
    if !env.fails(e) && e.kind == Security && e.security.Some? {
      RaisedUnchanged(st.alerts, phone.companyId, A.Security(phone.id, e.security.value));
    }
    if !env.fails(e) && e.kind == BarcodeScan && MustRevoke(st, phone, e, env.valid) {
      EndingChanges(st, phone, e, env);
    }
  }

  /** A root detection stored and alerted, its alert resolved: pushed again, it raises a second alert. */
  lemma ResolvedAlertIsRaisedAgain(st: State, phone: Phone, e: Event, env: Env)
    requires !env.fails(e) && e.kind == Security && e.security == Some(A.RootDetected) && e.id in st.securityEvents
    requires st.alerts == [A.Alert(phone.companyId, Some(A.Security(phone.id, A.RootDetected)), A.Resolved)]
    ensures !Absorbed(st, phone, e, env)
    ensures Handled(st, phone, e, env).alerts ==
      st.alerts + [A.Alert(phone.companyId, Some(A.Security(phone.id, A.RootDetected)), A.Open)]
  {
    var key := A.Security(phone.id, A.RootDetected);
    assert forall id: nat :: !A.OpenWith(st.alerts, id, phone.companyId, key);
    assert A.FindOpen(st.alerts, phone.companyId, key).None?;
  }

  /** Handling an event absorbs it. */
  lemma HandlingAbsorbs(st: State, phone: Phone, e: Event, env: Env)
    ensures Absorbed(Handled(st, phone, e, env), phone, e, env)
  {
    hide A.Raised, F.Crossed, F.DecisionFor;
    if !env.fails(e) && e.kind == Security && e.security.Some? {
      RaisedUnchanged(st.alerts, phone.companyId, A.Security(phone.id, e.security.value));
    }
    if !env.fails(e) && e.kind == BarcodeScan && MustRevoke(st, phone, e, env.valid) {
      EndingChanges(st, phone, e, env);
    }
  }

  // ------------------------------------------------------------------------
  //  Pushes only add
  // ------------------------------------------------------------------------

  /** A session keeps its phone, badge and driver, and never opens again. */
  predicate SessionKept(a: F.Session, b: F.Session) {
    b.deviceId == a.deviceId && b.badgeId == a.badgeId && b.userId == a.userId
    && (a.status != F.Active ==> b.status != F.Active)
  }

  ghost predicate SessionsKept(a: seq<F.Session>, b: seq<F.Session>) {
    |a| == |b| && forall id :: 0 <= id < |a| ==> SessionKept(a[id], b[id])
  }

  predicate LastKept(a: map<nat, Fix>, b: map<nat, Fix>, d: nat) {
    d in a ==> d in b && a[d].at <= b[d].at
  }

  /** What a push does to the tables, whatever the batch: no row is changed or lost. */
  ghost predicate Grows(a: State, b: State) {
    && SessionsKept(a.fleet.sessions, b.fleet.sessions)
    && a.alerts <= b.alerts
    && (forall id :: id in a.crossings ==> id in b.crossings && b.crossings[id] == a.crossings[id])
    && (forall id :: id in a.securityEvents ==> id in b.securityEvents && b.securityEvents[id] == a.securityEvents[id])
    && (forall id :: id in a.scans ==> id in b.scans && b.scans[id] == a.scans[id])
    && (forall key :: key in a.locations ==> key in b.locations && b.locations[key] == a.locations[key])
    && (forall d :: LastKept(a.last, b.last, d))
  }

  lemma GrowsTransitive(a: State, b: State, c: State)
    requires Grows(a, b) && Grows(b, c)
    ensures Grows(a, c)
  {
    forall id | 0 <= id < |a.fleet.sessions| ensures SessionKept(a.fleet.sessions[id], c.fleet.sessions[id]) {
      assert SessionKept(a.fleet.sessions[id], b.fleet.sessions[id]);
    }
    forall d ensures LastKept(a.last, c.last, d) {
      assert LastKept(a.last, b.last, d) && LastKept(b.last, c.last, d);
    }
  }

  lemma RaisedGrows(alerts: A.Table, companyId: nat, key: Option<A.DedupeKey>)
    ensures alerts <= A.Raised(alerts, companyId, key)
  {
  }

  lemma CrossedKeepsSessions(db: F.Db, phone: Phone, e: Event)
    requires phone.depot.Some?
    ensures SessionsKept(db.sessions,
              F.Crossed(db, phone.id, phone.depot.value, F.G.Crossing(TransitionOf(e), e.at)).sessions)
  {
  }

  lemma NobodyMoved(sessions: seq<F.Session>)
    ensures SessionsKept(sessions, sessions)
  {
  }

  lemma CrossedGrows(st: State, phone: Phone, e: Event)
    ensures Grows(st, Crossed(st, phone, e)) && Crossed(st, phone, e).last == st.last
  {
    hide A.Raised, F.Crossed, F.DecisionFor, F.ActiveOf, A.RaisedId, SessionsKept;
    NobodyMoved(st.fleet.sessions);
    if phone.depot.Some? {
      CrossedKeepsSessions(st.fleet, phone, e);
      RaisedGrows(st.alerts, phone.companyId, Some(A.AfterReturnExit(F.ActiveOf(st.fleet.sessions, phone.id), phone.id)));
    }
  }

  lemma SecuredGrows(st: State, phone: Phone, e: Event)
    ensures Grows(st, Secured(st, phone, e)) && Secured(st, phone, e).last == st.last
  {
    hide A.Raised;
    if e.security.Some? {
      RaisedGrows(st.alerts, phone.companyId, Some(A.Security(phone.id, e.security.value)));
    }
  }

  lemma EndingKeepsSessions(db: F.Db, id: nat, reason: F.EndReason, now: int)
    ensures SessionsKept(db.sessions, F.EndedSession(db, id, reason, now).sessions)
  {
  }

  lemma ScannedGrows(st: State, phone: Phone, e: Event, env: Env)
    ensures Grows(st, Scanned(st, phone, e, env)) && Scanned(st, phone, e, env).last == st.last
  {
    hide A.Raised, C.Enqueued, F.EndedSession, SessionsKept;
    NobodyMoved(st.fleet.sessions);
    if e.sessionId.Some? {
      EndingKeepsSessions(st.fleet, e.sessionId.value, F.OfflineRevalidationFailed, env.now);
      RaisedGrows(st.alerts, phone.companyId, Some(A.OfflineRevalidation(e.sessionId.value)));
    }
  }

  lemma HandledGrows(st: State, phone: Phone, e: Event, env: Env)
    ensures Grows(st, Handled(st, phone, e, env))
    ensures Handled(st, phone, e, env).last == st.last
  {
    hide Crossed, Secured, Scanned;
    CrossedGrows(st, phone, e);
    SecuredGrows(st, phone, e);
    ScannedGrows(st, phone, e, env);
  }

  lemma {:induction false} HandledAllGrows(st: State, phone: Phone, events: seq<Event>, env: Env)
    ensures Grows(st, HandledAll(st, phone, events, env))
    ensures HandledAll(st, phone, events, env).last == st.last
    decreases |events|
  {
    hide Handled;
    if events != [] {
      var next := Handled(st, phone, events[0], env);
      HandledGrows(st, phone, events[0], env);
      HandledAllGrows(next, phone, events[1..], env);
      GrowsTransitive(st, next, HandledAll(next, phone, events[1..], env));
    }
  }

  /** A key once inserted stays, with its first row; every event of the batch ends up in the table. */
  lemma {:induction false} AddLocationsKeeps(
    rows: map<(int, nat), LocationRow>, phone: Phone, session: Option<nat>, events: seq<Event>)
    requires forall e :: e in events ==> e.position.Some?
    ensures var after := AddLocations(rows, phone, session, events);
      && (forall key :: key in rows ==> key in after && after[key] == rows[key])
      && (forall e :: e in events ==> (e.at, e.id) in after)
      && ((forall e :: e in events ==> (e.at, e.id) in rows) ==> after == rows)
    decreases |events|
  {
    if events != [] {
      var e := events[0];
      var row := LocationRow(phone.id, if e.sessionId.Some? then e.sessionId else session, e.position.value);
      AddLocationsKeeps(if (e.at, e.id) in rows then rows else rows[(e.at, e.id) := row], phone, session, events[1..]);
    }
  }

  lemma PositionedGrows(st: State, phone: Phone, events: seq<Event>)
    ensures Grows(st, Positioned(st, phone, events))
  {
    hide A.Raised, AddLocations, Located, Latest, F.ActiveOf;
    AddLocationsKeeps(st.locations, phone, F.ActiveOf(st.fleet.sessions, phone.id), Located(events));
    RaisedGrows(st.alerts, phone.companyId, Some(A.MockLocation(phone.id)));
    var after := Positioned(st, phone, events);
    assert after.fleet == st.fleet;
    forall d ensures LastKept(st.last, after.last, d) {
    }
  }

  lemma SkewReportedGrows(st: State, phone: Phone, events: seq<Event>, env: Env)
    ensures Grows(st, SkewReported(st, phone, events, env))
  {
    hide A.Raised, Skewed;
    RaisedGrows(st.alerts, phone.companyId, Some(A.ClockTampering(phone.id)));
  }

  lemma PushGrows(st: State, phone: Phone, events: seq<Event>, env: Env)
    ensures Grows(st, Pushed(st, phone, events, env))
  {
    hide HandledAll, Positioned, SkewReported, Grows, OfKind, Ordered;
    var others, places := OfKind(Ordered(events), false), OfKind(Ordered(events), true);
    var handled := HandledAll(st, phone, others, env);
    var placed := Positioned(handled, phone, places);
    HandledAllGrows(st, phone, others, env);
    PositionedGrows(handled, phone, places);
    SkewReportedGrows(placed, phone, events, env);
    GrowsTransitive(st, handled, placed);
    GrowsTransitive(st, placed, SkewReported(placed, phone, events, env));
  }

  // ------------------------------------------------------------------------
  //  Replay
  // ------------------------------------------------------------------------

  lemma StaysOpen(a: A.Table, b: A.Table, companyId: nat, key: A.DedupeKey)
    requires a <= b && HasOpen(a, companyId, key)
    ensures HasOpen(b, companyId, key)
  {
    var id: nat :| A.OpenWith(a, id, companyId, key);
    assert A.OpenWith(b, id, companyId, key);
  }

  lemma StaysAbsorbed(a: State, b: State, phone: Phone, e: Event, env: Env)
    requires Grows(a, b) && Absorbed(a, phone, e, env)
    ensures Absorbed(b, phone, e, env)
  {
    if !env.fails(e) {
      match e.kind
      case Security =>
        if e.security.Some? && !e.security.value.OtherSecurity? {
          StaysOpen(a.alerts, b.alerts, phone.companyId, A.Security(phone.id, e.security.value));
        }
      case BarcodeScan =>
        if e.sessionId.Some? && e.sessionId.value < |a.fleet.sessions| {
          assert SessionKept(a.fleet.sessions[e.sessionId.value], b.fleet.sessions[e.sessionId.value]);
        }
      case Crossing =>
      case Location =>
    }
  }

  lemma {:induction false} HandlingAllAbsorbs(st: State, phone: Phone, events: seq<Event>, env: Env)
    ensures forall e :: e in events ==> Absorbed(HandledAll(st, phone, events, env), phone, e, env)
    decreases |events|
  {
    hide Handled, Absorbed, Grows;
    if events != [] {
      var next := Handled(st, phone, events[0], env);
      HandlingAbsorbs(st, phone, events[0], env);
      HandledAllGrows(next, phone, events[1..], env);
      StaysAbsorbed(next, HandledAll(next, phone, events[1..], env), phone, events[0], env);
      HandlingAllAbsorbs(next, phone, events[1..], env);
    }
  }

  lemma {:induction false} AbsorbedChangesNothing(st: State, phone: Phone, events: seq<Event>, env: Env)
    requires forall e :: e in events ==> Absorbed(st, phone, e, env)
    ensures HandledAll(st, phone, events, env) == st
    decreases |events|
  {
    hide Handled, Absorbed;
    if events != [] {
      UnchangedExactly(st, phone, events[0], env);
      AbsorbedChangesNothing(st, phone, events[1..], env);
    }
  }

  /** The positions of a batch are all recorded, none is later than the last known one, and a simulated one is reported. */
  ghost predicate PlacesAbsorbed(st: State, phone: Phone, places: seq<Event>) {
    var located := Located(places);
    && (forall e :: e in located ==> (e.at, e.id) in st.locations && phone.id in st.last && e.at <= st.last[phone.id].at)
    && ((exists e :: e in located && e.mock) ==> HasOpen(st.alerts, phone.companyId, A.MockLocation(phone.id)))
  }

  lemma PositioningAbsorbs(st: State, phone: Phone, places: seq<Event>)
    ensures PlacesAbsorbed(Positioned(st, phone, places), phone, places)
  {
    hide A.Raised, AddLocations;
    AddLocationsKeeps(st.locations, phone, F.ActiveOf(st.fleet.sessions, phone.id), Located(places));
    RaisedUnchanged(st.alerts, phone.companyId, A.MockLocation(phone.id));
  }

  lemma PlacesStayAbsorbed(a: State, b: State, phone: Phone, places: seq<Event>)
    requires Grows(a, b) && PlacesAbsorbed(a, phone, places)
    ensures PlacesAbsorbed(b, phone, places)
  {
    assert LastKept(a.last, b.last, phone.id);
    if exists e :: e in Located(places) && e.mock {
      StaysOpen(a.alerts, b.alerts, phone.companyId, A.MockLocation(phone.id));
    }
  }

  lemma AbsorbedPlacesChangeNothing(st: State, phone: Phone, places: seq<Event>)
    requires PlacesAbsorbed(st, phone, places)
    ensures Positioned(st, phone, places) == st
  {
    hide A.Raised, AddLocations;
    AddLocationsKeeps(st.locations, phone, F.ActiveOf(st.fleet.sessions, phone.id), Located(places));
    RaisedUnchanged(st.alerts, phone.companyId, A.MockLocation(phone.id));
  }

  /** Everything a batch can bring is in the tables. */
  ghost predicate BatchAbsorbed(st: State, phone: Phone, events: seq<Event>, env: Env) {
    && (forall e :: e in OfKind(Ordered(events), false) ==> Absorbed(st, phone, e, env))
    && PlacesAbsorbed(st, phone, OfKind(Ordered(events), true))
    && (Skewed(events, env) ==> HasOpen(st.alerts, phone.companyId, A.ClockTampering(phone.id)))
  }

  lemma PushAbsorbs(st: State, phone: Phone, events: seq<Event>, env: Env)
    ensures BatchAbsorbed(Pushed(st, phone, events, env), phone, events, env)
  {
    hide A.Raised, HandledAll, Positioned, Skewed, Absorbed, PlacesAbsorbed, Grows;
    var others, places := OfKind(Ordered(events), false), OfKind(Ordered(events), true);
    var handled := HandledAll(st, phone, others, env);
    var placed := Positioned(handled, phone, places);
    var after := SkewReported(placed, phone, events, env);
    HandlingAllAbsorbs(st, phone, others, env);
    PositionedGrows(handled, phone, places);
    PositioningAbsorbs(handled, phone, places);
    SkewReportedGrows(placed, phone, events, env);
    GrowsTransitive(handled, placed, after);
    forall e | e in others ensures Absorbed(after, phone, e, env) {
      StaysAbsorbed(handled, after, phone, e, env);
    }
    PlacesStayAbsorbed(placed, after, phone, places);
    RaisedUnchanged(placed.alerts, phone.companyId, A.ClockTampering(phone.id));
  }

  lemma BatchStaysAbsorbed(a: State, b: State, phone: Phone, events: seq<Event>, env: Env)
    requires Grows(a, b) && BatchAbsorbed(a, phone, events, env)
    ensures BatchAbsorbed(b, phone, events, env)
  {
    hide Absorbed, PlacesAbsorbed, Grows, Skewed;
    forall e | e in OfKind(Ordered(events), false) ensures Absorbed(b, phone, e, env) {
      StaysAbsorbed(a, b, phone, e, env);
    }
    PlacesStayAbsorbed(a, b, phone, OfKind(Ordered(events), true));
    if Skewed(events, env) {
      GrowsAlerts(a, b);
      StaysOpen(a.alerts, b.alerts, phone.companyId, A.ClockTampering(phone.id));
    }
  }

  lemma GrowsAlerts(a: State, b: State)
    requires Grows(a, b)
    ensures a.alerts <= b.alerts
  {
  }

  /** The same phone answers a replay with the same failures, no earlier than the first time. */
  ghost predicate Later(first: Env, again: Env) {
    && again.fails == first.fails && again.valid == first.valid
    && again.tolerance == first.tolerance && first.now <= again.now
  }

  lemma AbsorbedLater(st: State, phone: Phone, events: seq<Event>, first: Env, again: Env)
    requires BatchAbsorbed(st, phone, events, first) && Later(first, again)
    ensures BatchAbsorbed(st, phone, events, again)
  {
  }

  /** A push of some phone. */
  datatype Batch = Batch(phone: Phone, events: seq<Event>, env: Env)

  function PushAll(st: State, run: seq<Batch>): State
    decreases |run|
  {
    if run == [] then st else PushAll(Pushed(st, run[0].phone, run[0].events, run[0].env), run[1..])
  }

  lemma {:induction false} PushAllGrows(st: State, run: seq<Batch>)
    ensures Grows(st, PushAll(st, run))
    decreases |run|
  {
    hide Pushed;
    if run != [] {
      var next := Pushed(st, run[0].phone, run[0].events, run[0].env);
      PushGrows(st, run[0].phone, run[0].events, run[0].env);
      PushAllGrows(next, run[1..]);
      GrowsTransitive(st, next, PushAll(next, run[1..]));
    }
  }

  /**
   * A batch pushed again, at once or after any pushes of this phone and of others,
   * leaves every table as it was: sessions, phones, commands, alerts, event rows,
   * positions and last positions.
   */
  lemma ReplayChangesNothing(st: State, batch: Batch, between: seq<Batch>, again: Env)
    requires Later(batch.env, again)
    ensures var before := PushAll(Pushed(st, batch.phone, batch.events, batch.env), between);
      Pushed(before, batch.phone, batch.events, again) == before
  {
    hide HandledAll, Positioned, A.Raised, Absorbed, PlacesAbsorbed, Grows, PushAll;
    var Batch(phone, events, env) := batch;
    var first := Pushed(st, phone, events, env);
    var before := PushAll(first, between);
    PushAbsorbs(st, phone, events, env);
    PushAllGrows(first, between);
    BatchStaysAbsorbed(first, before, phone, events, env);
    AbsorbedLater(before, phone, events, env, again);
    AbsorbedChangesNothing(before, phone, OfKind(Ordered(events), false), again);
    AbsorbedPlacesChangeNothing(before, phone, OfKind(Ordered(events), true));
    RaisedUnchanged(before.alerts, phone.companyId, A.ClockTampering(phone.id));
  }

  // ------------------------------------------------------------------------
  //  The last position
  // ------------------------------------------------------------------------

  /** A position of the phone, with coordinates, somewhere in the run. */
  predicate Reported(run: seq<Batch>, deviceId: nat, i: nat, e: Event) {
    i < |run| && run[i].phone.id == deviceId && Places(run[i].events, e)
  }

  /** A position with coordinates. */
  predicate Places(events: seq<Event>, e: Event) {
    e in events && e.kind == Location && e.position.Some?
  }

  lemma PlacesOfBatch(events: seq<Event>, e: Event)
    ensures e in Located(OfKind(Ordered(events), true)) <==> Places(events, e)
  {
    assert e in Ordered(events) <==> e in multiset(Ordered(events));
    assert e in events <==> e in multiset(events);
  }

  lemma LastAfterPlaces(st: State, phone: Phone, places: seq<Event>)
    ensures var after := Positioned(st, phone, places);
      && (forall d :: d != phone.id ==>
            (d in after.last <==> d in st.last) && (d in st.last ==> after.last[d] == st.last[d]))
      && (forall e :: e in Located(places) ==> phone.id in after.last && e.at <= after.last[phone.id].at)
      && (phone.id in after.last ==>
            || (phone.id in st.last && after.last[phone.id] == st.last[phone.id])
            || exists e :: e in Located(places) && after.last[phone.id] == Fix(e.at, e.position.value))
  {
    hide A.Raised, AddLocations, Located, F.ActiveOf;
  }

  lemma LastAfterPush(st: State, phone: Phone, events: seq<Event>, env: Env)
    ensures var after := Pushed(st, phone, events, env);
      && (forall d :: d != phone.id ==>
            (d in after.last <==> d in st.last) && (d in st.last ==> after.last[d] == st.last[d]))
      && (forall e :: Places(events, e) ==> phone.id in after.last && e.at <= after.last[phone.id].at)
      && (phone.id in after.last ==>
            || (phone.id in st.last && after.last[phone.id] == st.last[phone.id])
            || exists e :: Places(events, e) && after.last[phone.id] == Fix(e.at, e.position.value))
  {
    hide A.Raised, HandledAll, Positioned, Skewed, OfKind, Ordered, Located, Places;
    var others, places := OfKind(Ordered(events), false), OfKind(Ordered(events), true);
    var handled := HandledAll(st, phone, others, env);
    HandledAllGrows(st, phone, others, env);
    LastAfterPlaces(handled, phone, places);
    forall e ensures e in Located(places) <==> Places(events, e) {
      PlacesOfBatch(events, e);
    }
    forall e | Places(events, e) ensures e.position.Some? {
      assert e in Located(places);
    }
  }

  /**
   * However the positions are split into batches, and in whatever order: the last
   * position of a phone is dated no earlier than any it ever reported with
   * coordinates, and is one of them, unless it was there before.
   */
  lemma {:induction false} LastPositionIsTheLatest(st: State, run: seq<Batch>, deviceId: nat)
    ensures var after := PushAll(st, run);
      && (forall i: nat, e :: Reported(run, deviceId, i, e) ==>
            deviceId in after.last && e.at <= after.last[deviceId].at)
      && (deviceId in st.last ==> deviceId in after.last && st.last[deviceId].at <= after.last[deviceId].at)
      && (deviceId in after.last ==>
            || (deviceId in st.last && after.last[deviceId] == st.last[deviceId])
            || exists i: nat, e :: Reported(run, deviceId, i, e) && after.last[deviceId] == Fix(e.at, e.position.value))
    decreases |run|
  {
    hide Pushed;
    if run != [] {
      var Batch(phone, events, env) := run[0];
      var next := Pushed(st, phone, events, env);
      var after := PushAll(next, run[1..]);
      LastAfterPush(st, phone, events, env);
      PushGrows(st, phone, events, env);
      assert LastKept(st.last, next.last, deviceId);
      LastPositionIsTheLatest(next, run[1..], deviceId);
      forall i: nat, e | Reported(run, deviceId, i, e) ensures deviceId in after.last && e.at <= after.last[deviceId].at {
        if i > 0 {
          assert Reported(run[1..], deviceId, i - 1, e);
        }
      }
      if deviceId in after.last && !(deviceId in next.last && after.last[deviceId] == next.last[deviceId]) {
        var i: nat, e :| Reported(run[1..], deviceId, i, e) && after.last[deviceId] == Fix(e.at, e.position.value);
        assert Reported(run, deviceId, i + 1, e);
      } else if deviceId in after.last && !(deviceId in st.last && after.last[deviceId] == st.last[deviceId]) {
        var e :| Places(events, e) && next.last[phone.id] == Fix(e.at, e.position.value);
        assert Reported(run, deviceId, 0, e);
      }
    }
  }

  ghost predicate ReportedIn(run: seq<Batch>, deviceId: nat, e: Event) {
    exists i: nat :: Reported(run, deviceId, i, e)
  }

  lemma NoLaterElsewhere(st: State, a: seq<Batch>, b: seq<Batch>, deviceId: nat)
    requires forall e :: ReportedIn(a, deviceId, e) ==> ReportedIn(b, deviceId, e)
    ensures var x, y := PushAll(st, a).last, PushAll(st, b).last;
      deviceId in x ==> deviceId in y && x[deviceId].at <= y[deviceId].at
  {
    hide PushAll;
    LastPositionIsTheLatest(st, a, deviceId);
    LastPositionIsTheLatest(st, b, deviceId);
    var x := PushAll(st, a).last;
    if deviceId in x && !(deviceId in st.last && x[deviceId] == st.last[deviceId]) {
      var i: nat, e :| Reported(a, deviceId, i, e) && x[deviceId] == Fix(e.at, e.position.value);
      assert ReportedIn(a, deviceId, e);
      var j: nat :| Reported(b, deviceId, j, e);
    }
  }

  /** Two runs that report the same positions of a phone, whatever the batches, date its last position alike. */
  lemma SplitAndOrderDoNotMatter(st: State, a: seq<Batch>, b: seq<Batch>, deviceId: nat)
    requires forall e :: ReportedIn(a, deviceId, e) <==> ReportedIn(b, deviceId, e)
    ensures var x, y := PushAll(st, a).last, PushAll(st, b).last;
      (deviceId in x <==> deviceId in y) && (deviceId in x ==> x[deviceId].at == y[deviceId].at)
  {
    hide PushAll;
    NoLaterElsewhere(st, a, b, deviceId);
    NoLaterElsewhere(st, b, a, deviceId);
  }
}
