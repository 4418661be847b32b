/**
 * One job, several replicas: a Redis key set with `NX EX` and never released
 * elects the replica that runs a scheduled job
 * (apps/api/src/worker/leader-lock.ts). Times are in milliseconds.
 */
module LeaderLock {
  import opened Wrappers

  const MINUTE := 60_000
  const TTL := 50_000
  const SKEW := 10_000

  /** `SET key value EX ttl NX` succeeds when the key is absent or expired. */
  predicate Free(expiresAt: Option<int>, now: int) {
    expiresAt.None? || now >= expiresAt.value
  }

  class LockKey {
    var expiresAt: Option<int>

    constructor ()
      ensures expiresAt == None
    {
      expiresAt := None;
    }

    /** `LeaderLock.run`: whether the job runs. The key outlives the job on purpose. */
    method Run(now: int, ttl: nat) returns (acquired: bool)
      modifies this
      ensures acquired <==> Free(old(expiresAt), now)
      ensures acquired ==> expiresAt == Some(now + ttl)
      ensures !acquired ==> expiresAt == old(expiresAt)
    {
      if expiresAt.None? || now >= expiresAt.value {
        expiresAt := Some(now + ttl);
        acquired := true;
      } else {
        acquired := false;
      }
    }

    /** Every replica's ticks, in the order Redis serves them; the instants at which the job ran. */
    method RunAll(ticks: seq<int>) returns (runs: seq<int>)
      modifies this
      ensures runs == Runs(old(expiresAt), ticks)
    {
      runs := [];
      var i := 0;
      while i < |ticks|
        invariant 0 <= i <= |ticks|
        invariant Runs(old(expiresAt), ticks) == runs + Runs(expiresAt, ticks[i..])
      {
        var acquired := Run(ticks[i], TTL);
        if acquired {
          runs := runs + [ticks[i]];
        }
        i := i + 1;
      }
    }
  }

  /** The ticks at which the lock is obtained. */
  function Runs(expiresAt: Option<int>, ticks: seq<int>): seq<int>
    decreases |ticks|
  {
    if ticks == [] then []
    else if Free(expiresAt, ticks[0]) then [ticks[0]] + Runs(Some(ticks[0] + TTL), ticks[1..])
    else Runs(expiresAt, ticks[1..])
  }

  function MinuteOf(t: int): int {
    t / MINUTE
  }

  /** The ticks of replicas whose clocks are less than ten seconds late, in time order. */
  predicate MinuteTicks(ticks: seq<int>) {
    && (forall i :: 0 <= i < |ticks| ==> ticks[i] % 60_000 < 10_000)
    && (forall i, j :: 0 <= i < j < |ticks| ==> ticks[i] <= ticks[j])
  }

  /** The runs are at least fifty seconds apart, and a tick does not run only within fifty seconds of one that did. */
  lemma {:induction false} RunsAreFiftySecondsApart(expiresAt: Option<int>, ticks: seq<int>)
    requires forall i, j :: 0 <= i < j < |ticks| ==> ticks[i] <= ticks[j]
    ensures var runs := Runs(expiresAt, ticks);
      && (forall i :: 0 <= i < |runs| ==> runs[i] in ticks && (expiresAt.Some? ==> expiresAt.value <= runs[i]))
      && (forall i, j :: 0 <= i < j < |runs| ==> runs[i] + 50_000 <= runs[j])
      && (forall t :: t in ticks ==>
            || (expiresAt.Some? && t < expiresAt.value) || t in runs
            || exists run :: run in runs && run <= t < run + 50_000)
    decreases |ticks|
  {
    if ticks != [] {
      var rest := ticks[1..];
      assert forall t :: t in ticks <==> t == ticks[0] || t in rest;
      assert forall i :: 0 <= i < |rest| ==> rest[i] == ticks[i + 1];
      var after := if Free(expiresAt, ticks[0]) then Some(ticks[0] + 50_000) else expiresAt;
      RunsAreFiftySecondsApart(after, rest);
      assert Free(expiresAt, ticks[0]) ==> Runs(expiresAt, ticks) == [ticks[0]] + Runs(after, rest);
      var runs, later := Runs(expiresAt, ticks), Runs(after, rest);
      forall t | t in ticks && t !in runs && !(expiresAt.Some? && t < expiresAt.value)
        ensures exists run :: run in runs && run <= t < run + 50_000
      {
        assert t in rest && (t == ticks[0] ==> Free(expiresAt, t));
        if after.Some? && t < after.value {
          assert ticks[0] in runs;
        } else {
          var run :| run in later && run <= t < run + 50_000;
          assert run in runs;
        }
      }
    }
  }

  /** The first tick of each minute after minute `last`: what the election should keep. */
  function FirstOfEachMinute(last: int, ticks: seq<int>): seq<int>
    decreases |ticks|
  {
    if ticks == [] then []
    else if MinuteOf(ticks[0]) > last then [ticks[0]] + FirstOfEachMinute(MinuteOf(ticks[0]), ticks[1..])
    else FirstOfEachMinute(last, ticks[1..])
  }

  /** The key was set during minute `last`, within the skew. */
  predicate HeldSince(expiresAt: Option<int>, last: int) {
    expiresAt.Some? && last * MINUTE <= expiresAt.value - TTL < last * MINUTE + SKEW
  }

  lemma {:induction false} HeldRunsAreFirstOfEachMinute(expiresAt: Option<int>, last: int, ticks: seq<int>)
    requires MinuteTicks(ticks) && HeldSince(expiresAt, last)
    requires ticks != [] ==> MinuteOf(ticks[0]) >= last
    ensures Runs(expiresAt, ticks) == FirstOfEachMinute(last, ticks)
    decreases |ticks|
  {
    if ticks != [] {
      var rest := ticks[1..];
      assert MinuteTicks(rest);
      if MinuteOf(ticks[0]) > last {
        HeldRunsAreFirstOfEachMinute(Some(ticks[0] + TTL), MinuteOf(ticks[0]), rest);
      } else {
        HeldRunsAreFirstOfEachMinute(expiresAt, last, rest);
      }
    }
  }

  /** Whatever the number of replicas, the job runs at the first tick of every minute that has one, and never again in it. */
  lemma OneRunPerMinute(ticks: seq<int>)
    requires MinuteTicks(ticks) && ticks != []
    ensures Runs(None, ticks) == FirstOfEachMinute(MinuteOf(ticks[0]) - 1, ticks)
  {
    var rest := ticks[1..];
    assert MinuteTicks(rest);
    HeldRunsAreFirstOfEachMinute(Some(ticks[0] + TTL), MinuteOf(ticks[0]), rest);
  }

  /** Run instants, one per minute, in order, less than a skew apart from a minute. */
  predicate MinuteByMinute(first: int, runs: seq<int>) {
    && (forall k :: 0 <= k < |runs| ==> MinuteOf(runs[k]) == first + k && runs[k] % MINUTE < SKEW)
  }

  /** No minute without a tick, from the first one to the last one. */
  predicate NoMinuteMissed(ticks: seq<int>) {
    forall i :: 0 <= i < |ticks| - 1 ==> MinuteOf(ticks[i + 1]) <= MinuteOf(ticks[i]) + 1
  }

  lemma {:induction false} FirstTicksAreConsecutive(last: int, ticks: seq<int>)
    requires MinuteTicks(ticks) && NoMinuteMissed(ticks)
    requires ticks != [] ==> last <= MinuteOf(ticks[0]) <= last + 1
    ensures MinuteByMinute(last + 1, FirstOfEachMinute(last, ticks))
    ensures |FirstOfEachMinute(last, ticks)| ==
      if ticks == [] then 0 else MinuteOf(ticks[|ticks| - 1]) - last
    decreases |ticks|
  {
    if ticks != [] {
      var rest := ticks[1..];
      assert MinuteTicks(rest);
      assert NoMinuteMissed(rest) by {
        forall i | 0 <= i < |rest| - 1 ensures MinuteOf(rest[i + 1]) <= MinuteOf(rest[i]) + 1 {
          assert MinuteOf(ticks[i + 2]) <= MinuteOf(ticks[i + 1]) + 1;
        }
      }
      assert rest != [] ==> MinuteOf(rest[0]) == MinuteOf(ticks[1]) && ticks[0] <= ticks[1];
      FirstTicksAreConsecutive(MinuteOf(ticks[0]), rest);
    }
  }

  /**
   * When some replica ticks every minute, exactly one run happens in each minute
   * from the first tick's to the last tick's.
   */
  lemma ExactlyOneRunEveryMinute(ticks: seq<int>)
    requires MinuteTicks(ticks) && NoMinuteMissed(ticks) && ticks != []
    ensures var runs := Runs(None, ticks);
      && MinuteByMinute(MinuteOf(ticks[0]), runs)
      && |runs| == MinuteOf(ticks[|ticks| - 1]) - MinuteOf(ticks[0]) + 1
  {
    OneRunPerMinute(ticks);
    FirstTicksAreConsecutive(MinuteOf(ticks[0]) - 1, ticks);
  }
}
