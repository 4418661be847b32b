/** A push keeps the invariants of sessions, commands and alerts together. */
module SyncInvariants {
  import opened Wrappers
  import opened Sync
  import A = Alerts
  import C = Commands
  import F = Fleet
  import R = FleetRuns
  import G = Geofence

  /** The invariants the tables of a push share with the rest of the server. */
  ghost predicate Sound(st: State) {
    R.Inv(st.fleet) && C.UniqueKeys(st.commands) && A.OneOpenPerKey(st.alerts)
  }

  lemma RaisingKeepsOneOpen(alerts: A.Table, companyId: nat, key: A.DedupeKey)
    requires A.OneOpenPerKey(alerts)
    ensures A.OneOpenPerKey(A.Raised(alerts, companyId, Some(key)))
  {
    var after := A.Raised(alerts, companyId, Some(key));
    forall a: nat, b: nat, company: nat, k | A.OpenWith(after, a, company, k) && A.OpenWith(after, b, company, k)
      ensures a == b
    {
      assert a < |alerts| ==> A.OpenWith(alerts, a, company, k);
      assert b < |alerts| ==> A.OpenWith(alerts, b, company, k);
    }
  }

  lemma CrossingKeepsSound(st: State, phone: Phone, e: Event)
    requires Sound(st)
    ensures Sound(Crossed(st, phone, e))
  {
    hide A.Raised, F.Crossed, F.DecisionFor, R.Inv, C.UniqueKeys, A.OneOpenPerKey;
    if phone.depot.Some? {
      RaisingKeepsOneOpen(st.alerts, phone.companyId, A.AfterReturnExit(F.ActiveOf(st.fleet.sessions, phone.id), phone.id));
      R.CrossKeepsInv(st.fleet, phone.id, phone.depot.value, G.Crossing(TransitionOf(e), e.at));
    }
  }

  lemma SecurityKeepsSound(st: State, phone: Phone, e: Event)
    requires Sound(st)
    ensures Sound(Secured(st, phone, e))
  {
    hide A.Raised, R.Inv, C.UniqueKeys, A.OneOpenPerKey;
    if e.security.Some? {
      RaisingKeepsOneOpen(st.alerts, phone.companyId, A.Security(phone.id, e.security.value));
    }
  }

  lemma EndingKeepsInv(db: F.Db, id: nat, reason: F.EndReason, now: int)
    requires R.Inv(db)
    ensures R.Inv(F.EndedSession(db, id, reason, now))
  {
    R.StepKeepsInv(db, R.EndCall(id, reason, now));
  }

  lemma ScanKeepsSound(st: State, phone: Phone, e: Event, env: Env)
    requires Sound(st)
    ensures Sound(Scanned(st, phone, e, env))
  {
    hide A.Raised, C.Enqueued, F.EndedSession, R.Inv, C.UniqueKeys, A.OneOpenPerKey;
    if e.sessionId.Some? {
      var id := e.sessionId.value;
      EndingKeepsInv(st.fleet, id, F.OfflineRevalidationFailed, env.now);
      C.EnqueueKeepsUniqueKeys(st.commands, RevalidationLock(phone.id, id), env.now);
      RaisingKeepsOneOpen(st.alerts, phone.companyId, A.OfflineRevalidation(id));
    }
  }

  lemma {:induction false} HandlingKeepsSound(st: State, phone: Phone, events: seq<Event>, env: Env)
    requires Sound(st)
    ensures Sound(HandledAll(st, phone, events, env))
    decreases |events|
  {
    hide Sound, Crossed, Secured, Scanned;
    if events != [] {
      CrossingKeepsSound(st, phone, events[0]);
      SecurityKeepsSound(st, phone, events[0]);
      ScanKeepsSound(st, phone, events[0], env);
      HandlingKeepsSound(Handled(st, phone, events[0], env), phone, events[1..], env);
    }
  }

  /**
   * Any push, of any phone and batch, leaves at most one open session per phone and
   * driver with the phone agreeing, one command per idempotency key and one open
   * alert per deduplication key.
   */
  lemma PushKeepsSound(st: State, phone: Phone, events: seq<Event>, env: Env)
    requires Sound(st)
    ensures Sound(Pushed(st, phone, events, env))
  {
    hide A.Raised, R.Inv, C.UniqueKeys, A.OneOpenPerKey, HandledAll, Skewed, AddLocations, Located, Latest;
    var handled := HandledAll(st, phone, OfKind(Ordered(events), false), env);
    HandlingKeepsSound(st, phone, OfKind(Ordered(events), false), env);
    RaisingKeepsOneOpen(handled.alerts, phone.companyId, A.MockLocation(phone.id));
    var placed := Positioned(handled, phone, OfKind(Ordered(events), true));
    RaisingKeepsOneOpen(placed.alerts, phone.companyId, A.ClockTampering(phone.id));
  }
}
