/**
 * Depot transitions (apps/api/src/rules/geofence-rules.ts): when a phone counts
 * as returned, and when leaving the depot raises an alert.
 */
module Geofence {
  import opened Schedule
  import opened Wrappers

  datatype Transition = Enter | Exit

  datatype SessionState = OnTour | Returned

  datatype EventType = EnterDepot | ExitDepot | EnterAfterReturnTime | AfterReturnExit

  datatype Decision = Decision(eventType: EventType, next: SessionState, markReturned: bool, alert: bool)

  /** `evaluateGeofenceTransition`. */
  function Evaluate(s: DepotSchedule, transition: Transition, at: int, state: SessionState): Decision {
    match transition
    case Enter =>
      if !IsAfterReturnTime(s, at) then Decision(EnterDepot, state, false, false)
      else Decision(EnterAfterReturnTime, Returned, state != Returned, false)
    case Exit =>
      if state == Returned then Decision(AfterReturnExit, OnTour, false, true)
      else Decision(ExitDepot, state, false, false)
  }

  /** A transition confirmed by the phone, with its date. */
  datatype Crossing = Crossing(transition: Transition, at: int)

  function StateAfter(s: DepotSchedule, run: seq<Crossing>): SessionState {
    if run == [] then OnTour
    else DecisionAt(s, run, |run| - 1).next
  }

  /** The decision on the crossing of index `i`, in a session that began on tour. */
  function DecisionAt(s: DepotSchedule, run: seq<Crossing>, i: nat): Decision
    requires i < |run|
    decreases i
  {
    var before := if i == 0 then OnTour else DecisionAt(s, run, i - 1).next;
    Evaluate(s, run[i].transition, run[i].at, before)
  }

  /** How many of the first `n` crossings mark a return. */
  function Returns(s: DepotSchedule, run: seq<Crossing>, n: nat): nat
    requires n <= |run|
  {
    if n == 0 then 0 else Returns(s, run, n - 1) + (if DecisionAt(s, run, n - 1).markReturned then 1 else 0)
  }

  /** How many of the first `n` crossings raise an alert. */
  function Alerts(s: DepotSchedule, run: seq<Crossing>, n: nat): nat
    requires n <= |run|
  {
    if n == 0 then 0 else Alerts(s, run, n - 1) + (if DecisionAt(s, run, n - 1).alert then 1 else 0)
  }

  /** A crossing that counts as a return to the depot. */
  predicate ReturnEntry(s: DepotSchedule, c: Crossing) {
    c.transition == Enter && IsAfterReturnTime(s, c.at)
  }

  /** Between a return entry and crossing `j`, the phone did not leave. */
  predicate ReturnedSince(s: DepotSchedule, run: seq<Crossing>, i: nat, j: nat) {
    i < j <= |run| && ReturnEntry(s, run[i]) && forall k :: i < k < j ==> run[k].transition == Enter
  }

  /** The session is RETURNED exactly when some entry after return time was not followed by an exit. */
  lemma {:induction false} ReturnedExactly(s: DepotSchedule, run: seq<Crossing>, n: nat)
    requires 0 < n <= |run|
    ensures DecisionAt(s, run, n - 1).next == Returned <==> exists i: nat :: ReturnedSince(s, run, i, n)
  {
    hide IsAfterReturnTime;
    var last := run[n - 1];
    if n > 1 {
      ReturnedExactly(s, run, n - 1);
    }
    if last.transition == Enter {
      if IsAfterReturnTime(s, last.at) {
        assert ReturnedSince(s, run, n - 1, n);
      } else {
        forall i: nat ensures ReturnedSince(s, run, i, n) <==> n > 1 && ReturnedSince(s, run, i, n - 1) {
          assert i == n - 1 ==> !ReturnEntry(s, run[i]);
        }
        if n > 1 && DecisionAt(s, run, n - 2).next == Returned {
          var i: nat :| ReturnedSince(s, run, i, n - 1);
          assert ReturnedSince(s, run, i, n);
        }
      }
    } else {
      assert forall i: nat :: !ReturnedSince(s, run, i, n);
    }
  }

  /** An alert is raised by a crossing exactly when it leaves a depot the phone had returned to. */
  lemma AlertExactly(s: DepotSchedule, run: seq<Crossing>, j: nat)
    requires j < |run|
    ensures DecisionAt(s, run, j).alert <==>
      run[j].transition == Exit && exists i: nat :: ReturnedSince(s, run, i, j)
    ensures DecisionAt(s, run, j).alert <==> DecisionAt(s, run, j).eventType == AfterReturnExit
  {
    hide IsAfterReturnTime;
    if j > 0 {
      ReturnedExactly(s, run, j);
    }
  }

  /** At any point of a session, the returns recorded are the alerts raised, plus the one still standing. */
  lemma {:induction false} ReturnsMatchAlerts(s: DepotSchedule, run: seq<Crossing>, n: nat)
    requires n <= |run|
    ensures Returns(s, run, n) == Alerts(s, run, n) + (if StateAfter(s, run[..n]) == Returned then 1 else 0)
  {
    hide IsAfterReturnTime;
    if n > 0 {
      ReturnsMatchAlerts(s, run, n - 1);
      PrefixDecision(s, run, n, n - 1);
      if n > 1 {
        PrefixDecision(s, run, n - 1, n - 2);
      }
    }
  }

  lemma {:induction false} PrefixDecision(s: DepotSchedule, run: seq<Crossing>, n: nat, i: nat)
    requires i < n <= |run|
    ensures DecisionAt(s, run[..n], i) == DecisionAt(s, run, i)
  {
    if i > 0 {
      PrefixDecision(s, run, n, i - 1);
    }
  }

  /** A run without any entry after return time raises no alert and never leaves the tour. */
  lemma NoReturnNoAlert(s: DepotSchedule, run: seq<Crossing>)
    requires forall i :: 0 <= i < |run| ==> !ReturnEntry(s, run[i])
    ensures forall j :: 0 <= j < |run| ==> !DecisionAt(s, run, j).alert && !DecisionAt(s, run, j).markReturned
  {
    forall j | 0 <= j < |run| ensures !DecisionAt(s, run, j).alert && !DecisionAt(s, run, j).markReturned {
      AlertExactly(s, run, j);
      assert !ReturnEntry(s, run[j]);
    }
  }

  /**
   * The documentation sends an entry that follows an alert back to RETURNED at any
   * time, as a plain ENTER_DEPOT. It goes back there exactly when it is past the
   * return time of its own day, and never as a plain ENTER_DEPOT.
   */
  lemma ReentryReturnsExactly(s: DepotSchedule, run: seq<Crossing>, j: nat)
    requires j + 1 < |run| && DecisionAt(s, run, j).alert && run[j + 1].transition == Enter
    ensures var d := DecisionAt(s, run, j + 1);
      && (d.next == Returned <==> IsAfterReturnTime(s, run[j + 1].at))
      && !(d.eventType == EnterDepot && d.next == Returned)
  {
  }

  /** Within the operational day of the return the documented row does hold for the state. */
  lemma ReentryOfTheSameDayReturns(s: DepotSchedule, run: seq<Crossing>, i: nat, j: nat)
    requires Tidy(s) && j + 1 < |run| && ReturnedSince(s, run, i, j)
    requires run[j].transition == Exit && run[j + 1].transition == Enter
    requires run[i].at <= run[j + 1].at < DayBegins(s, OperationalDay(s, run[i].at) + 1)
    ensures DecisionAt(s, run, j).alert && DecisionAt(s, run, j + 1).next == Returned
  {
    AlertExactly(s, run, j);
    AfterReturnUntilDayEnds(s, run[i].at, run[j + 1].at);
    ReentryReturnsExactly(s, run, j);
  }

  /** Returned at 18:30, out at 19:00, back at 03:30 next morning: the phone is on tour again. */
  lemma MorningReentryStaysOnTour()
    ensures var s := DepotSchedule(Zone(i => i, w => w), 1080, 1320, 180, None);
      var run := [Crossing(Enter, 1110 * MINUTE), Crossing(Exit, 1140 * MINUTE), Crossing(Enter, DAY + 210 * MINUTE)];
      DecisionAt(s, run, 1).alert && DecisionAt(s, run, 2) == Decision(EnterDepot, OnTour, false, false)
  {
  }
}
