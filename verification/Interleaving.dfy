/**
 * Concurrent callers of `enqueue` and `raise`, step by step: check for a row
 * that holds the key, insert, and on a unique violation read again
 * (apps/api/src/devices/commands.service.ts:64-101,
 * apps/api/src/alerts/alerts.service.ts:73-119).
 *
 * Both protocols are the same one. A row holds its key while it is open: an
 * alert until it is acknowledged or resolved, a command for ever.
 */
module Interleaving {
  import opened Wrappers

  datatype Row<K> = Row(key: Option<K>, open: bool)

  /** Where a caller stands; `Rereading` remembers the row that caused its unique violation. */
  datatype Stage = Checking | Inserting | Rereading(conflict: nat) | Done(id: nat) | Failed

  datatype Caller<K> = Caller(key: Option<K>, stage: Stage)

  datatype System<K> = System(rows: seq<Row<K>>, callers: seq<Caller<K>>)

  /** One database call of a caller, or the closing of a row by somebody else. */
  datatype Action = Step(caller: nat) | Close(id: nat)

  predicate HoldsKey<K(==)>(rows: seq<Row<K>>, id: nat, key: K) {
    id < |rows| && rows[id] == Row(Some(key), true)
  }

  function Find<K(==)>(rows: seq<Row<K>>, key: K): (r: Option<nat>)
    ensures r.Some? ==> HoldsKey(rows, r.value, key)
    ensures r.None? <==> forall id: nat :: !HoldsKey(rows, id, key)
  {
    if rows == [] then None
    else
      var last := |rows| - 1;
      var earlier := Find(rows[..last], key);
      assert forall id: nat :: id < last ==> HoldsKey(rows[..last], id, key) == HoldsKey(rows, id, key);
      if earlier.Some? then earlier else if HoldsKey(rows, last, key) then Some(last) else None
  }

  function Holder<K(==)>(rows: seq<Row<K>>, key: Option<K>): Option<nat> {
    if key.Some? then Find(rows, key.value) else None
  }

  function Advance<K(==)>(rows: seq<Row<K>>, c: Caller<K>): (seq<Row<K>>, Stage) {
    var holder := Holder(rows, c.key);
    match c.stage
    case Checking => (rows, if holder.Some? then Done(holder.value) else Inserting)
    case Inserting =>
      if holder.Some? then (rows, Rereading(holder.value)) else (rows + [Row(c.key, true)], Done(|rows|))
    case Rereading(_) => (rows, if holder.Some? then Done(holder.value) else Failed)
    case Done(_) | Failed => (rows, c.stage)
  }

  function Act<K(==)>(s: System<K>, a: Action): System<K> {
    match a
    case Step(i) =>
      if i >= |s.callers| then s
      else
        var next := Advance(s.rows, s.callers[i]);
        System(next.0, s.callers[i := s.callers[i].(stage := next.1)])
    case Close(id) =>
      if id >= |s.rows| then s else s.(rows := s.rows[id := s.rows[id].(open := false)])
  }

  function Run<K(==)>(s: System<K>, actions: seq<Action>): System<K>
    decreases |actions|
  {
    if actions == [] then s else Run(Act(s, actions[0]), actions[1..])
  }

  // ------------------------------------------------------------------------
  //  Invariant
  // ------------------------------------------------------------------------

  ghost predicate OneHolder<K(!new)>(rows: seq<Row<K>>) {
    forall a: nat, b: nat, key :: HoldsKey(rows, a, key) && HoldsKey(rows, b, key) ==> a == b
  }

  /** The row a caller returns, or met, carries the caller's key. */
  predicate Consistent<K(==)>(rows: seq<Row<K>>, c: Caller<K>) {
    match c.stage
    case Done(id) => id < |rows| && rows[id].key == c.key
    case Rereading(id) => c.key.Some? && id < |rows| && rows[id].key == c.key
    case Checking | Inserting | Failed => true
  }

  ghost predicate Inv<K(!new)>(s: System<K>) {
    OneHolder(s.rows) && forall i :: 0 <= i < |s.callers| ==> Consistent(s.rows, s.callers[i])
  }

  /** Rows are only added and closed. */
  ghost predicate Grows<K>(before: seq<Row<K>>, after: seq<Row<K>>) {
    && |before| <= |after|
    && forall id :: 0 <= id < |before| ==> after[id].key == before[id].key && (after[id].open ==> before[id].open)
  }

  lemma ActKeepsInv<K(!new)>(s: System<K>, a: Action)
    requires Inv(s)
    ensures Inv(Act(s, a)) && Grows(s.rows, Act(s, a).rows)
  {
    var after := Act(s, a);
    forall x: nat, key | HoldsKey(after.rows, x, key)
      ensures HoldsKey(s.rows, x, key) || (x == |s.rows| && Holder(s.rows, Some(key)).None?)
    {
    }
  }

  lemma {:induction false} RunKeepsInv<K(!new)>(s: System<K>, actions: seq<Action>)
    requires Inv(s)
    ensures Inv(Run(s, actions)) && Grows(s.rows, Run(s, actions).rows)
    decreases |actions|
  {
    if actions != [] {
      var next := Act(s, actions[0]);
      ActKeepsInv(s, actions[0]);
      RunKeepsInv(next, actions[1..]);
      GrowsTransitive(s.rows, next.rows, Run(next, actions[1..]).rows);
    }
  }

  lemma GrowsTransitive<K>(a: seq<Row<K>>, b: seq<Row<K>>, c: seq<Row<K>>)
    requires Grows(a, b) && Grows(b, c)
    ensures Grows(a, c)
  {
  }

  function Fresh<K>(keys: seq<Option<K>>): (s: System<K>)
    ensures s.rows == [] && |s.callers| == |keys|
    ensures forall i :: 0 <= i < |keys| ==> s.callers[i] == Caller(keys[i], Checking)
  {
    System([], seq(|keys|, i requires 0 <= i < |keys| => Caller(keys[i], Checking)))
  }

  /**
   * Under any interleaving, closings included: at most one open row per key in
   * every reachable state, and whoever got an answer got a row with its own key.
   */
  lemma AtMostOneOpen<K(!new)>(keys: seq<Option<K>>, actions: seq<Action>)
    ensures Inv(Run(Fresh(keys), actions))
  {
    RunKeepsInv(Fresh(keys), actions);
  }

  // ------------------------------------------------------------------------
  //  Answers
  // ------------------------------------------------------------------------

  /** Calls left to make, at most three. */
  function Remaining(stage: Stage): nat {
    match stage
    case Checking => 3
    case Inserting => 2
    case Rereading(_) => 1
    case Done(_) | Failed => 0
  }

  /** Every call brings its caller nearer to an answer, and an answer is the open holder of its key at that instant. */
  lemma StepAnswers<K(!new)>(s: System<K>, i: nat)
    requires i < |s.callers| && Remaining(s.callers[i].stage) > 0
    ensures var after := Act(s, Step(i));
      && Remaining(after.callers[i].stage) < Remaining(s.callers[i].stage)
      && (after.callers[i].stage.Done? ==>
            var id := after.callers[i].stage.id; id < |after.rows| && after.rows[id] == Row(s.callers[i].key, true))
      && (forall j :: 0 <= j < |s.callers| && j != i ==> after.callers[j] == s.callers[j])
  {
  }

  /**
   * `raise` fails exactly when it reads again after a unique violation and the
   * row it collided with has been closed, no other one being open for its key.
   */
  lemma FailsExactly<K(!new)>(s: System<K>, i: nat)
    requires Inv(s) && i < |s.callers| && s.callers[i].stage != Failed
    ensures var c := s.callers[i];
      Act(s, Step(i)).callers[i].stage == Failed <==>
        && c.stage.Rereading? && !s.rows[c.stage.conflict].open
        && forall id: nat :: !HoldsKey(s.rows, id, c.key.value)
  {
    var c := s.callers[i];
    if c.stage.Rereading? && s.rows[c.stage.conflict].open {
      assert HoldsKey(s.rows, c.stage.conflict, c.key.value);
    }
  }

  /** Two callers, an alert closed between the violation and the second reading: the late caller fails. */
  lemma ClosedMeanwhile()
    ensures var s := Fresh([Some(7), Some(7)]);
      var actions := [Step(0), Step(1), Step(1), Step(0), Close(0), Step(0)];
      Run(s, actions).callers[0].stage == Failed && |Run(s, actions).rows| == 1
  {
    var s0 := Fresh([Some(7), Some(7)]);
    var actions := [Step(0), Step(1), Step(1), Step(0), Close(0), Step(0)];
    var s1 := Act(s0, Step(0));
    var s2 := Act(s1, Step(1));
    var s3 := Act(s2, Step(1));
    var s4 := Act(s3, Step(0));
    var s5 := Act(s4, Close(0));
    var s6 := Act(s5, Step(0));
    assert s3.rows == [Row(Some(7), true)];
    assert HoldsKey(s3.rows, 0, 7);
    assert s4.callers[0].stage == Rereading(0);
    assert s5.rows == [Row(Some(7), false)];
    assert s6.callers[0].stage == Failed;
    assert Run(s5, [Step(0)]) == Run(s6, []);
    assert Run(s4, [Close(0), Step(0)]) == Run(s5, [Step(0)]);
    assert Run(s3, [Step(0), Close(0), Step(0)]) == Run(s4, [Close(0), Step(0)]);
    assert Run(s2, [Step(1), Step(0), Close(0), Step(0)]) == Run(s3, [Step(0), Close(0), Step(0)]);
    assert Run(s1, actions[1..]) == Run(s2, [Step(1), Step(0), Close(0), Step(0)]);
  }

  // ------------------------------------------------------------------------
  //  Without closings: enqueue
  // ------------------------------------------------------------------------

  /** Nothing closed, nobody failed, and nobody past its check without a row for its key. */
  ghost predicate AllOpen<K(!new)>(s: System<K>) {
    && Inv(s)
    && (forall id :: 0 <= id < |s.rows| ==> s.rows[id].open)
    && (forall i :: 0 <= i < |s.callers| ==> s.callers[i].stage != Failed)
  }

  lemma {:induction false} RunsWithoutClosing<K(!new)>(s: System<K>, actions: seq<Action>)
    requires AllOpen(s) && forall k :: 0 <= k < |actions| ==> actions[k].Step?
    ensures AllOpen(Run(s, actions))
    ensures |Run(s, actions).callers| == |s.callers|
    ensures forall i :: 0 <= i < |s.callers| ==> Run(s, actions).callers[i].key == s.callers[i].key
    decreases |actions|
  {
    if actions != [] {
      ActKeepsInv(s, actions[0]);
      var i := actions[0].caller;
      if i < |s.callers| {
        FailsExactly(s, i);
      }
      RunsWithoutClosing(Act(s, actions[0]), actions[1..]);
    }
  }

  /**
   * Any number of `enqueue` calls with the same phone and key, interleaved in
   * any way: nobody fails, at most one row is ever created, and all the calls
   * that have returned have returned it; once one has, the row is there.
   */
  lemma EnqueueIsIdempotent<K(!new)>(key: K, n: nat, actions: seq<Action>)
    requires forall k :: 0 <= k < |actions| ==> actions[k].Step?
    ensures var end := Run(Fresh(seq(n, _ => Some(key))), actions);
      && |end.callers| == n
      && (forall i :: 0 <= i < n ==> end.callers[i].stage != Failed)
      && |end.rows| <= 1
      && (forall i :: 0 <= i < n && end.callers[i].stage.Done? ==> end.callers[i].stage.id == 0 && |end.rows| == 1)
  {
    var keys: seq<Option<K>> := seq(n, _ => Some(key));
    var s := Fresh(keys);
    RunsWithoutClosing(s, actions);
    var end := Run(s, actions);
    OnlyThisKey(s, actions, key);
    if |end.rows| >= 2 {
      assert HoldsKey(end.rows, 0, key) && HoldsKey(end.rows, 1, key);
    }
  }

  lemma {:induction false} OnlyThisKey<K(!new)>(s: System<K>, actions: seq<Action>, key: K)
    requires forall id :: 0 <= id < |s.rows| ==> s.rows[id].key == Some(key)
    requires forall i :: 0 <= i < |s.callers| ==> s.callers[i].key == Some(key)
    ensures forall id :: 0 <= id < |Run(s, actions).rows| ==> Run(s, actions).rows[id].key == Some(key)
    decreases |actions|
  {
    if actions != [] {
      OnlyThisKey(Act(s, actions[0]), actions[1..], key);
    }
  }
}
