/**
 * Lock-outs after repeated failures: an administrator's password
 * (apps/api/src/auth/admin-auth.service.ts) and the badges shown to a phone
 * (`registerFailure` of apps/api/src/auth/barcode-auth.service.ts).
 */
module Lockout {
  import opened Wrappers

  const MINUTE := 60_000

  /** How many failures lock, for how long, and how long a count lasts; without a window, until a success. */
  datatype Policy = Policy(threshold: nat, lockTime: int, window: Option<int>)

  const ADMIN_POLICY := Policy(5, 15 * MINUTE, None)

  datatype State = State(failures: nat, countUntil: Option<int>, lockedUntil: Option<int>)

  datatype Verdict = Refused | Wrong | Right

  datatype Attempt = Attempt(at: int, correct: bool)

  const FRESH := State(0, None, None)

  function Failures(p: Policy, s: State, now: int): nat {
    if p.window.Some? && s.countUntil.Some? && now >= s.countUntil.value then 0 else s.failures
  }

  predicate Locked(s: State, now: int) {
    s.lockedUntil.Some? && now < s.lockedUntil.value
  }

  function VerdictOn(s: State, a: Attempt): Verdict {
    if Locked(s, a.at) then Refused else if a.correct then Right else Wrong
  }

  function Next(p: Policy, s: State, a: Attempt): State {
    match VerdictOn(s, a)
    case Refused => s
    case Right => FRESH
    case Wrong =>
      var failures := Failures(p, s, a.at) + 1;
      State(
        failures,
        if p.window.None? then None else if failures == 1 then Some(a.at + p.window.value) else s.countUntil,
        if failures >= p.threshold then Some(a.at + p.lockTime) else None)
  }

  class Account {
    const policy: Policy
    var failures: nat
    var countUntil: Option<int>
    var lockedUntil: Option<int>

    constructor (policy: Policy)
      ensures this.policy == policy && Snapshot() == FRESH
    {
      this.policy := policy;
      failures, countUntil, lockedUntil := 0, None, None;
    }

    function Snapshot(): State
      reads this
    {
      State(failures, countUntil, lockedUntil)
    }

    method Login(now: int, correct: bool) returns (verdict: Verdict)
      modifies this
      ensures verdict == VerdictOn(old(Snapshot()), Attempt(now, correct))
      ensures Snapshot() == Next(policy, old(Snapshot()), Attempt(now, correct))
    {
      if lockedUntil.Some? && now < lockedUntil.value {
        return Refused;
      }
      if correct {
        failures, countUntil, lockedUntil := 0, None, None;
        return Right;
      }
      if policy.window.Some? {
        if countUntil.Some? && now >= countUntil.value {
          failures := 0;
        }
        if failures == 0 {
          countUntil := Some(now + policy.window.value);
        }
      } else {
        countUntil := None;
      }
      failures := failures + 1;
      lockedUntil := if failures >= policy.threshold then Some(now + policy.lockTime) else None;
      verdict := Wrong;
    }
  }

  // ------------------------------------------------------------------------
  //  Runs
  // ------------------------------------------------------------------------

  function After(p: Policy, run: seq<Attempt>, n: nat): State
    requires n <= |run|
  {
    if n == 0 then FRESH else Next(p, After(p, run, n - 1), run[n - 1])
  }

  function VerdictAt(p: Policy, run: seq<Attempt>, i: nat): Verdict
    requires i < |run|
  {
    VerdictOn(After(p, run, i), run[i])
  }

  ghost predicate Sorted(run: seq<Attempt>) {
    forall i, j :: 0 <= i < j < |run| ==> run[i].at <= run[j].at
  }

  /** A wrong attempt that brings the count to the threshold. */
  predicate Locks(p: Policy, run: seq<Attempt>, i: nat) {
    i < |run| && VerdictAt(p, run, i) == Wrong && Failures(p, After(p, run, i), run[i].at) + 1 >= p.threshold
  }

  lemma {:induction false} LockComesFromAFailure(p: Policy, run: seq<Attempt>, n: nat)
    requires n <= |run| && After(p, run, n).lockedUntil.Some?
    ensures exists i: nat :: i < n && Locks(p, run, i) && After(p, run, n).lockedUntil.value == run[i].at + p.lockTime
  {
    if n > 0 {
      if VerdictAt(p, run, n - 1) == Wrong {
        assert Locks(p, run, n - 1);
      } else {
        LockComesFromAFailure(p, run, n - 1);
      }
    }
  }

  lemma {:induction false} LockHolds(p: Policy, run: seq<Attempt>, i: nat, n: nat)
    requires Locks(p, run, i) && i < n <= |run|
    requires forall k :: i < k < n ==> run[k].at < run[i].at + p.lockTime
    ensures After(p, run, n).lockedUntil == Some(run[i].at + p.lockTime)
  {
    if n > i + 1 {
      LockHolds(p, run, i, n - 1);
    }
  }

  /**
   * An attempt is refused without being checked exactly when a failure that
   * reached the threshold was recorded less than `lockTime` before.
   */
  lemma RefusedExactly(p: Policy, run: seq<Attempt>, j: nat)
    requires Sorted(run) && j < |run|
    ensures VerdictAt(p, run, j) == Refused <==>
      exists i: nat :: i < j && Locks(p, run, i) && run[j].at < run[i].at + p.lockTime
  {
    if VerdictAt(p, run, j) == Refused {
      LockComesFromAFailure(p, run, j);
    }
    if i: nat :| i < j && Locks(p, run, i) && run[j].at < run[i].at + p.lockTime {
      LockHolds(p, run, i, j);
    }
  }

  /** The wrong attempts checked since the last success. */
  function Streak(p: Policy, run: seq<Attempt>, n: nat): nat
    requires n <= |run|
  {
    if n == 0 then 0
    else match VerdictAt(p, run, n - 1)
      case Right => 0
      case Wrong => Streak(p, run, n - 1) + 1
      case Refused => Streak(p, run, n - 1)
  }

  lemma {:induction false} CountIsTheStreak(p: Policy, run: seq<Attempt>, n: nat)
    requires n <= |run| && p.window.None?
    ensures After(p, run, n).failures == Streak(p, run, n)
  {
    if n > 0 {
      CountIsTheStreak(p, run, n - 1);
    }
  }

  /**
   * An administrator's attempt is refused unchecked exactly within a quarter of an
   * hour of a wrong one that was at least the fifth since the last success.
   */
  lemma AdministratorRefusedExactly(run: seq<Attempt>, j: nat)
    requires Sorted(run) && j < |run|
    ensures VerdictAt(ADMIN_POLICY, run, j) == Refused <==>
      exists i: nat :: i < j && VerdictAt(ADMIN_POLICY, run, i) == Wrong && Streak(ADMIN_POLICY, run, i + 1) >= 5
                       && run[j].at < run[i].at + 900_000
  {
    RefusedExactly(ADMIN_POLICY, run, j);
    forall i: nat | i < j && VerdictAt(ADMIN_POLICY, run, i) == Wrong
      ensures Locks(ADMIN_POLICY, run, i) <==> Streak(ADMIN_POLICY, run, i + 1) >= 5
    {
      CountIsTheStreak(ADMIN_POLICY, run, i);
    }
  }

  // ------------------------------------------------------------------------
  //  A count that is forgotten
  // ------------------------------------------------------------------------

  /** The wrong attempts that are checked, from attempt `first` up to, not including, attempt `n`. */
  function Wrongs(p: Policy, run: seq<Attempt>, first: nat, n: nat): nat
    requires first <= n <= |run|
    decreases n
  {
    if n == first then 0 else Wrongs(p, run, first, n - 1) + (if VerdictAt(p, run, n - 1) == Wrong then 1 else 0)
  }

  /**
   * Attempt `first` opens a window of `window`, and those up to `n` fall in it: none of
   * them succeeds, and the wrong ones come before it ends.
   */
  ghost predicate OneWindow(p: Policy, run: seq<Attempt>, window: int, first: nat, n: nat) {
    && first < n <= |run| && VerdictAt(p, run, first) == Wrong
    && forall k :: first <= k < n ==>
         VerdictAt(p, run, k) != Right && (VerdictAt(p, run, k) == Wrong ==> run[k].at < run[first].at + window)
  }

  /** A count in force is that of the wrong attempts of one window, which ends with it. */
  lemma {:induction false} CountIsOfOneWindow(p: Policy, run: seq<Attempt>, window: int, n: nat) returns (first: nat)
    requires n <= |run| && p.window == Some(window) && window > 0 && After(p, run, n).failures > 0
    ensures OneWindow(p, run, window, first, n)
    ensures After(p, run, n) == After(p, run, n).(
              failures := Wrongs(p, run, first, n), countUntil := Some(run[first].at + window))
    ensures After(p, run, first).failures == 0
         || After(p, run, first).countUntil.None? || After(p, run, first).countUntil.value <= run[first].at
  {
    first := n - 1;
    if VerdictAt(p, run, n - 1) == Refused {
      first := CountIsOfOneWindow(p, run, window, n - 1);
    } else if VerdictAt(p, run, n - 1) == Wrong && Failures(p, After(p, run, n - 1), run[n - 1].at) > 0 {
      first := CountIsOfOneWindow(p, run, window, n - 1);
    }
  }

  /**
   * With a count forgotten after a window, as for phones: a wrong attempt locks exactly
   * when it is at least the threshold-th wrong one of the window it falls in, which it
   * opens itself if the last one is over.
   */
  lemma WindowedLocksExactly(p: Policy, run: seq<Attempt>, window: int, i: nat) returns (first: nat)
    requires i < |run| && p.window == Some(window) && window > 0 && VerdictAt(p, run, i) == Wrong
    ensures OneWindow(p, run, window, first, i + 1)
    ensures Locks(p, run, i) <==> Wrongs(p, run, first, i + 1) >= p.threshold
    ensures After(p, run, i + 1).lockedUntil ==
      if Wrongs(p, run, first, i + 1) >= p.threshold then Some(run[i].at + p.lockTime) else None
    ensures first < i ==> run[i].at < run[first].at + window
    ensures After(p, run, first).failures == 0
         || After(p, run, first).countUntil.None? || After(p, run, first).countUntil.value <= run[first].at
  {
    first := CountIsOfOneWindow(p, run, window, i + 1);
  }

  /** The guesses that are checked, and the instant of the last one. */
  function Guesses(p: Policy, run: seq<Attempt>, n: nat): nat
    requires n <= |run|
  {
    if n == 0 then 0 else Guesses(p, run, n - 1) + (if VerdictAt(p, run, n - 1) == Wrong then 1 else 0)
  }

  function LockTimes(p: Policy, k: nat): int {
    k * p.lockTime
  }

  /** The last lock was set by an attempt of the run, late enough after the first one. */
  predicate Spread(p: Policy, run: seq<Attempt>, n: nat)
    requires 0 < n <= |run| && After(p, run, n).lockedUntil.Some?
  {
    var s := After(p, run, n);
    var lastGuess := s.lockedUntil.value - p.lockTime;
    && s.failures >= p.threshold
    && LockTimes(p, s.failures - p.threshold) <= lastGuess - run[0].at
    && lastGuess <= run[n - 1].at
  }

  lemma OneMoreLock(p: Policy, k: nat)
    ensures LockTimes(p, 0) == 0 && LockTimes(p, k + 1) == LockTimes(p, k) + p.lockTime
  {
  }

  lemma {:induction false} GuessesSpread(p: Policy, run: seq<Attempt>, n: nat)
    requires 0 < n <= |run| && Sorted(run) && p.window.None? && p.threshold > 0 && p.lockTime > 0
    requires forall i :: 0 <= i < |run| ==> !run[i].correct
    ensures After(p, run, n).failures == Guesses(p, run, n) > 0
    ensures After(p, run, n).lockedUntil.Some? <==> After(p, run, n).failures >= p.threshold
    ensures After(p, run, n).lockedUntil.Some? ==> Spread(p, run, n)
  {
    hide LockTimes;
    OneMoreLock(p, 0);
    if n > 1 {
      GuessesSpread(p, run, n - 1);
      var s := After(p, run, n - 1);
      if s.failures >= p.threshold {
        assert Spread(p, run, n - 1);
        OneMoreLock(p, s.failures - p.threshold);
      }
    }
  }

  /**
   * Guessing a password: however many attempts are made, the wrong ones that are
   * checked are the threshold, plus at most one for each `lockTime` elapsed.
   */
  lemma GuessesAreRationed(p: Policy, run: seq<Attempt>)
    requires run != [] && Sorted(run) && p.window.None? && p.threshold > 0 && p.lockTime > 0
    requires forall i :: 0 <= i < |run| ==> !run[i].correct
    ensures Guesses(p, run, |run|) > p.threshold ==>
      (Guesses(p, run, |run|) - p.threshold) * p.lockTime <= run[|run| - 1].at - run[0].at
  {
    GuessesSpread(p, run, |run|);
  }

  /** Against one administrator: five wrong passwords, then at most one for each quarter of an hour. */
  lemma PasswordGuesses(run: seq<Attempt>)
    requires run != [] && Sorted(run) && forall i :: 0 <= i < |run| ==> !run[i].correct
    ensures Guesses(ADMIN_POLICY, run, |run|) > 5 ==>
      (Guesses(ADMIN_POLICY, run, |run|) - 5) * 900_000 <= run[|run| - 1].at - run[0].at
  {
    GuessesAreRationed(ADMIN_POLICY, run);
  }
}
