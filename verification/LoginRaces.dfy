/**
 * Attempts that overlap. An administrator's login reads the account, checks the
 * password, then writes the counters computed from what it read
 * (apps/api/src/auth/admin-auth.service.ts); a phone's failure increments its
 * counter in place (apps/api/src/auth/barcode-auth.service.ts).
 */
module LoginRaces {
  import opened Wrappers
  import opened Overlap
  import opened Lockout

  /**
   * An attempt that reads the account at `at` and writes at `done`. Attempts are
   * listed in the order they finish: `behind` of them finish between its reading
   * and its own end.
   */
  datatype Try = Try(at: int, done: int, correct: bool, behind: nat)

  function Outcome(seen: State, t: Try): Verdict {
    VerdictOn(seen, Attempt(t.at, t.correct))
  }

  /** What an administrator's checked attempt writes, from the account it read. */
  function Write(p: Policy, seen: State, t: Try): State {
    if t.correct then FRESH
    else
      var failures := seen.failures + 1;
      State(failures, None, if failures >= p.threshold then Some(t.done + p.lockTime) else None)
  }

  /** The account after the first `n` attempts to finish. */
  function AfterTries(p: Policy, run: seq<Try>, n: nat): State
    requires n <= |run|
  {
    if n == 0 then FRESH
    else
      var t, seen := run[n - 1], AfterTries(p, run, SeenBy(n - 1, run[n - 1].behind));
      if Outcome(seen, t) == Refused then AfterTries(p, run, n - 1) else Write(p, seen, t)
  }

  function OutcomeAt(p: Policy, run: seq<Try>, i: nat): Verdict
    requires i < |run|
  {
    Outcome(AfterTries(p, run, SeenBy(i, run[i].behind)), run[i])
  }

  // ------------------------------------------------------------------------
  //  One writing
  // ------------------------------------------------------------------------

  /**
   * On an account that is not locked, a checked attempt writes what it would have
   * written had it come alone exactly when it succeeds, or the count is still the one it read.
   */
  lemma WriteIsNextExactly(p: Policy, seen: State, now: State, t: Try)
    requires p.window.None? && Outcome(seen, t) != Refused && !Locked(now, t.done)
    ensures Write(p, seen, t) == Next(p, now, Attempt(t.done, t.correct)) <==> t.correct || now.failures == seen.failures
  {
  }

  /**
   * On an account locked meanwhile, a wrong one leaves the lock standing exactly when
   * the count it read was one short of the threshold, or more.
   */
  lemma LockKeptExactly(p: Policy, seen: State, now: State, t: Try)
    requires Outcome(seen, t) == Wrong && Locked(now, t.done) && now.lockedUntil.value <= t.done + p.lockTime
    ensures Locked(Write(p, seen, t), t.done) && now.lockedUntil.value <= Write(p, seen, t).lockedUntil.value
       <==> p.lockTime > 0 && seen.failures + 1 >= p.threshold
  {
  }

  /** Attempts that do not overlap are those of the sequential account. */
  function Alone(run: seq<Try>): (r: seq<Attempt>)
    ensures |r| == |run| && forall i :: 0 <= i < |r| ==> r[i] == Attempt(run[i].at, run[i].correct)
  {
    seq(|run|, i requires 0 <= i < |run| => Attempt(run[i].at, run[i].correct))
  }

  lemma {:induction false} WithoutOverlap(p: Policy, run: seq<Try>, n: nat)
    requires p.window.None? && n <= |run|
    requires forall i :: 0 <= i < |run| ==> run[i].behind == 0 && run[i].done == run[i].at
    ensures AfterTries(p, run, n) == After(p, Alone(run), n)
  {
    if n > 0 {
      WithoutOverlap(p, run, n - 1);
    }
  }

  /** Five guesses that lock the account, and one that read it before the first of them. */
  const ONE_LATE := [
    Try(1, 1, false, 0), Try(2, 2, false, 0), Try(3, 3, false, 0), Try(4, 4, false, 0), Try(5, 5, false, 0),
    Try(0, 6, false, 5)]

  /** The late one takes the lock away and starts the count again. */
  lemma LateWriteClearsTheLock()
    ensures Locked(AfterTries(ADMIN_POLICY, ONE_LATE, 5), 6)
    ensures AfterTries(ADMIN_POLICY, ONE_LATE, 6) == State(1, None, None)
  {
    assert AfterTries(ADMIN_POLICY, ONE_LATE, 1) == State(1, None, None);
    assert AfterTries(ADMIN_POLICY, ONE_LATE, 2) == State(2, None, None);
    assert AfterTries(ADMIN_POLICY, ONE_LATE, 3) == State(3, None, None);
    assert AfterTries(ADMIN_POLICY, ONE_LATE, 4) == State(4, None, None);
  }

  // ------------------------------------------------------------------------
  //  How many guesses are checked
  // ------------------------------------------------------------------------

  function Checked(p: Policy, run: seq<Try>, n: nat): nat
    requires n <= |run|
  {
    if n == 0 then 0 else Checked(p, run, n - 1) + (if OutcomeAt(p, run, n - 1) == Wrong then 1 else 0)
  }

  /** Any number of wrong guesses at one instant, each reading the account before any of them writes. */
  function Together(n: nat, at: int): (r: seq<Try>)
    ensures |r| == n && forall i :: 0 <= i < n ==> r[i] == Try(at, at, false, i)
  {
    seq(n, i requires 0 <= i < n => Try(at, at, false, i))
  }

  /** All of them are checked, and the account is left with one failure and no lock. */
  lemma {:induction false} AllTogetherAreChecked(p: Policy, n: nat, at: int, m: nat)
    requires p.threshold > 1 && m <= n
    ensures Checked(p, Together(n, at), m) == m
    ensures m > 0 ==> AfterTries(p, Together(n, at), m) == State(1, None, None)
  {
    if m > 0 {
      AllTogetherAreChecked(p, n, at, m - 1);
      assert SeenBy(m - 1, Together(n, at)[m - 1].behind) == 0;
    }
  }

  /** When the last of the checked guesses among the first `n` finished. */
  function LastDone(p: Policy, run: seq<Try>, n: nat, start: int): int
    requires n <= |run|
  {
    if n == 0 then start
    else if OutcomeAt(p, run, n - 1) == Wrong then run[n - 1].done
    else LastDone(p, run, n - 1, start)
  }

  lemma {:induction false} FewCheckedBetween(p: Policy, run: seq<Try>, m: nat, n: nat)
    requires m <= n <= |run|
    ensures Checked(p, run, m) <= Checked(p, run, n) <= Checked(p, run, m) + (n - m)
  {
    if m < n {
      FewCheckedBetween(p, run, m, n - 1);
    }
  }

  /** A run of wrong guesses, each read no earlier than `start` and written no earlier than read. */
  ghost predicate Guessing(run: seq<Try>, overlap: nat, start: int) {
    forall i :: 0 <= i < |run| ==>
      !run[i].correct && start <= run[i].at <= run[i].done && run[i].behind <= overlap
  }

  /** `(overlap + 1) * k`, for a bound on what overlapping readers can share. */
  function Shared(overlap: nat, k: int): int {
    (overlap + 1) * k
  }

  lemma SharedOneMore(overlap: nat, k: int)
    ensures Shared(overlap, k + 1) == Shared(overlap, k) + overlap + 1 && Shared(overlap, 0) == 0
  {
  }

  lemma SharedKeepsOrder(overlap: nat, a: int, b: int)
    requires a <= b
    ensures Shared(overlap, a) <= Shared(overlap, b)
  {
  }

  /** The count is at least the guesses checked, shared out, and the lock is that of the last of them. */
  predicate Counted(p: Policy, run: seq<Try>, overlap: nat, start: int, n: nat)
    requires n <= |run|
  {
    var s := AfterTries(p, run, n);
    && Shared(overlap, s.failures) >= Checked(p, run, n)
    && s.lockedUntil == (if s.failures >= p.threshold then Some(LastDone(p, run, n, start) + p.lockTime) else None)
  }

  lemma RefusedGuessIsNotCounted(p: Policy, run: seq<Try>, overlap: nat, start: int, n: nat)
    requires 0 < n <= |run| && OutcomeAt(p, run, n - 1) == Refused && Counted(p, run, overlap, start, n - 1)
    ensures Counted(p, run, overlap, start, n)
  {
    hide Shared, Outcome;
  }

  lemma WrongGuessIsCounted(p: Policy, run: seq<Try>, overlap: nat, start: int, n: nat)
    requires 0 < n <= |run| && OutcomeAt(p, run, n - 1) == Wrong && run[n - 1].behind <= overlap
    requires Counted(p, run, overlap, start, SeenBy(n - 1, run[n - 1].behind))
    ensures Counted(p, run, overlap, start, n)
  {
    var m := SeenBy(n - 1, run[n - 1].behind);
    FewCheckedBetween(p, run, m, n - 1);
    SharedOneMore(overlap, AfterTries(p, run, m).failures);
    assert AfterTries(p, run, n) == Write(p, AfterTries(p, run, m), run[n - 1]);
    hide Shared, Outcome;
  }

  /** Overlapping guesses can hide behind one count, but no more than `overlap + 1` of them behind each step of it. */
  lemma {:induction false} CountFollows(p: Policy, run: seq<Try>, overlap: nat, start: int, n: nat)
    requires p.threshold > 0 && Guessing(run, overlap, start) && n <= |run|
    ensures Counted(p, run, overlap, start, n)
    decreases n
  {
    if n == 0 {
      SharedOneMore(overlap, 0);
    } else {
      hide Counted;
      CountFollows(p, run, overlap, start, n - 1);
      CountFollows(p, run, overlap, start, SeenBy(n - 1, run[n - 1].behind));
      if OutcomeAt(p, run, n - 1) == Refused {
        RefusedGuessIsNotCounted(p, run, overlap, start, n);
      } else {
        WrongGuessIsCounted(p, run, overlap, start, n);
      }
    }
  }

  function Times(k: int, d: int): int {
    k * d
  }

  lemma TimesAdd(a: int, b: int, d: int)
    ensures Times(a + b, d) == Times(a, d) + Times(b, d)
  {
  }

  lemma TimesSign(a: int, d: int)
    requires d > 0
    ensures a <= 0 ==> Times(a, d) <= 0
    ensures a >= 0 ==> Times(a, d) >= 0
  {
  }

  /** The excess of the guesses checked over what the threshold lets through. */
  function Excess(p: Policy, run: seq<Try>, overlap: nat, n: nat): int
    requires n <= |run|
  {
    Checked(p, run, n) - Shared(overlap, p.threshold)
  }

  /** A guess that reads a count at the threshold waits for the lock it shows; the others are few. */
  lemma {:induction false} ExcessTakesTime(p: Policy, run: seq<Try>, overlap: nat, start: int, n: nat)
    requires p.threshold > 0 && p.lockTime > 0 && Guessing(run, overlap, start) && n <= |run|
    ensures Times(Excess(p, run, overlap, n), p.lockTime) <= Shared(overlap, LastDone(p, run, n, start) - start)
    ensures LastDone(p, run, n, start) >= start
    decreases n
  {
    hide Shared, Times;
    SharedOneMore(overlap, 0);
    if n == 0 {
      SharedKeepsOrder(overlap, 0, p.threshold);
      TimesSign(Excess(p, run, overlap, 0), p.lockTime);
    } else {
      ExcessTakesTime(p, run, overlap, start, n - 1);
      if OutcomeAt(p, run, n - 1) == Wrong {
        ExcessOfAGuess(p, run, overlap, start, n);
      }
    }
  }

  lemma ExcessOfAGuess(p: Policy, run: seq<Try>, overlap: nat, start: int, n: nat)
    requires p.threshold > 0 && p.lockTime > 0 && Guessing(run, overlap, start) && 0 < n <= |run|
    requires OutcomeAt(p, run, n - 1) == Wrong
    ensures Times(Excess(p, run, overlap, n), p.lockTime) <= Shared(overlap, run[n - 1].done - start)
    decreases n, 0
  {
    hide Shared, Times;
    var m, t := SeenBy(n - 1, run[n - 1].behind), run[n - 1];
    var seen := AfterTries(p, run, m);
    CountFollows(p, run, overlap, start, m);
    FewCheckedBetween(p, run, m, n - 1);
    if seen.failures < p.threshold {
      SharedOneMore(overlap, seen.failures);
      SharedKeepsOrder(overlap, seen.failures + 1, p.threshold);
      SharedKeepsOrder(overlap, 0, t.done - start);
      SharedOneMore(overlap, 0);
      TimesSign(Excess(p, run, overlap, n), p.lockTime);
    } else {
      ExcessTakesTime(p, run, overlap, start, m);
      WaitedForTheLock(p, overlap, LastDone(p, run, m, start) - start, t.done - start,
                       Excess(p, run, overlap, m), Excess(p, run, overlap, n));
    }
  }

  lemma WaitedForTheLock(p: Policy, overlap: nat, before: int, after: int, excess: int, more: int)
    requires p.lockTime > 0 && before + p.lockTime <= after && more <= excess + overlap + 1
    requires Times(excess, p.lockTime) <= Shared(overlap, before)
    ensures Times(more, p.lockTime) <= Shared(overlap, after)
  {
    var left := excess + overlap + 1 - more;
    TimesAdd(more, left, p.lockTime);
    TimesSign(left, p.lockTime);
    TimesAdd(excess, overlap + 1, p.lockTime);
    SharedKeepsOrder(overlap, before + p.lockTime, after);
    assert Shared(overlap, before + p.lockTime) == Shared(overlap, before) + Times(overlap + 1, p.lockTime);
  }

  /**
   * However many guesses are made, when at most `overlap` others finish while one is
   * under way: the wrong ones that are checked number at most `overlap + 1` times the
   * threshold, plus `overlap + 1` for each lock time elapsed. Without overlap it is
   * the bound of the sequential account.
   */
  lemma OverlappingGuesses(p: Policy, run: seq<Try>, overlap: nat, start: int)
    requires p.threshold > 0 && p.lockTime > 0 && Guessing(run, overlap, start)
    ensures var last := LastDone(p, run, |run|, start);
      (Checked(p, run, |run|) - (overlap + 1) * p.threshold) * p.lockTime <= (overlap + 1) * (last - start)
  {
    ExcessTakesTime(p, run, overlap, start, |run|);
  }

  /** Within one lock time, at most `overlap + 1` times the threshold. */
  lemma OverlappingBurst(p: Policy, run: seq<Try>, overlap: nat, start: int)
    requires p.threshold > 0 && p.lockTime > 0 && Guessing(run, overlap, start)
    requires LastDone(p, run, |run|, start) < start + p.lockTime
    ensures Checked(p, run, |run|) <= (overlap + 1) * p.threshold + overlap
  {
    hide LastDone, Checked, Guessing;
    OverlappingGuesses(p, run, overlap, start);
    var excess := Checked(p, run, |run|) - (overlap + 1) * p.threshold;
    if excess > overlap {
      LargeProduct(excess, overlap + 1, p.lockTime, LastDone(p, run, |run|, start) - start);
    }
  }

  lemma LargeProduct(a: int, b: nat, d: int, e: int)
    requires b > 0 && a >= b && d > 0 && e < d
    ensures a * d > b * e
  {
    assert b * e < b * d;
    assert a * d >= b * d;
  }

  // ------------------------------------------------------------------------
  //  Phones
  // ------------------------------------------------------------------------

  /** A phone's failure: the counter incremented in place, the lock set again when it reaches the threshold. */
  function PhoneWrite(p: Policy, now: State, t: Try): State {
    if t.correct then State(0, None, now.lockedUntil)
    else
      var failures := Failures(p, now, t.done) + 1;
      State(
        failures,
        if p.window.None? then None else if failures == 1 then Some(t.done + p.window.value) else now.countUntil,
        if failures >= p.threshold then Some(t.done + p.lockTime) else now.lockedUntil)
  }

  /** The phone after the attempts of a run; each reads the lock before it writes. */
  function AfterPhone(p: Policy, run: seq<Try>, n: nat): State
    requires n <= |run|
  {
    if n == 0 then FRESH
    else
      var t, seen := run[n - 1], AfterPhone(p, run, SeenBy(n - 1, run[n - 1].behind));
      if Outcome(seen, t) == Refused then AfterPhone(p, run, n - 1)
      else PhoneWrite(p, AfterPhone(p, run, n - 1), t)
  }

  /**
   * Once a phone is locked, nothing that overlaps takes the lock away or shortens it,
   * neither a failure nor a success that read the phone before.
   */
  lemma {:induction false} PhoneStaysLocked(p: Policy, run: seq<Try>, m: nat, n: nat)
    requires m <= n <= |run| && p.lockTime > 0 && AfterPhone(p, run, m).lockedUntil.Some?
    requires forall i :: m <= i < n ==> AfterPhone(p, run, m).lockedUntil.value <= run[i].done + p.lockTime
    ensures AfterPhone(p, run, n).lockedUntil.Some?
    ensures AfterPhone(p, run, m).lockedUntil.value <= AfterPhone(p, run, n).lockedUntil.value
  {
    if m < n {
      PhoneStaysLocked(p, run, m, n - 1);
    }
  }
}
