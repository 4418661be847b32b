/**
 * The zones for which the time rules hold. A zone with one change of offset
 * follows the two conventions the code relies on: a wall-clock reading that does
 * not exist is moved forward, and the first occurrence of an ambiguous one is kept.
 */
module Zones {
  import opened Schedule
  import opened Wrappers

  function FixedOffset(offset: int): Zone {
    Zone(i => i + offset, w => w - offset)
  }

  /** Offset `before` until instant `at`, then `after`. */
  function OneTransition(at: int, before: int, after: int): Zone {
    Zone(i => if i < at then i + before else i + after,
         w => if w - before >= at && w - after >= at then w - after else w - before)
  }

  /** A reading skipped by a clock moved forward. */
  predicate InGap(at: int, before: int, after: int, wall: int) {
    at + before <= wall < at + after
  }

  /** The conventions above hold of the zone: it shows what it was asked, as early as it can. */
  lemma TransitionConventions(at: int, before: int, after: int, wall: int)
    ensures var z := OneTransition(at, before, after);
      && (InGap(at, before, after, wall) ==> z.toLocal(z.toUtc(wall)) == wall + (after - before))
      && (!InGap(at, before, after, wall) ==> z.toLocal(z.toUtc(wall)) == wall)
      && (forall i :: z.toLocal(i) == wall ==> z.toUtc(wall) <= i)
  {
  }

  lemma FixedOffsetIsTidy(s: DepotSchedule, offset: int)
    requires s.zone == FixedOffset(offset)
    ensures Tidy(s)
  {
  }

  /**
   * The readings a day must not begin at: strictly inside the gap or inside its
   * image after the forward move, or strictly inside the ambiguous hour.
   */
  predicate Disturbed(at: int, before: int, after: int, wall: int) {
    if before <= after then at + before < wall < at + after + (after - before)
    else at + after < wall < at + before
  }

  /** An instant on the wrong side of a day that begins in the disturbed readings. */
  lemma DisturbedIsUntidy(s: DepotSchedule, at: int, before: int, after: int, day: int)
    requires s.zone == OneTransition(at, before, after)
    requires Disturbed(at, before, after, Boundary(s, day))
    ensures !Tidy(s)
  {
    var b := Boundary(s, day);
    if before > after {
      assert !(s.zone.toLocal(at) >= b <==> at >= DayBegins(s, day));
    } else if b < at + after {
      assert !(at + after >= b <==> s.zone.toUtc(at + after) >= DayBegins(s, day));
    } else {
      assert !(at + after - 1 >= b <==> s.zone.toUtc(at + after - 1) >= DayBegins(s, day));
    }
  }

  /** A zone with one transition is tidy exactly when no operational day begins in the disturbed readings. */
  lemma OneTransitionTidyExactly(s: DepotSchedule, at: int, before: int, after: int)
    requires s.zone == OneTransition(at, before, after)
    ensures Tidy(s) <==> forall day :: !Disturbed(at, before, after, Boundary(s, day))
  {
    if day :| Disturbed(at, before, after, Boundary(s, day)) {
      DisturbedIsUntidy(s, at, before, after, day);
    } else {
      CalmMeansTidy(s, at, before, after);
    }
  }

  lemma CalmMeansTidy(s: DepotSchedule, at: int, before: int, after: int)
    requires s.zone == OneTransition(at, before, after)
    requires forall day :: !Disturbed(at, before, after, Boundary(s, day))
    ensures Tidy(s)
  {
  }

  /**
   * A time of day leaves its operational day exactly when it is skipped and the
   * forward move carries it past the next day's beginning.
   */
  lemma RoundTripExactly(s: DepotSchedule, at: int, before: int, after: int, day: int, time: TimeOfDay)
    requires s.zone == OneTransition(at, before, after)
    ensures OperationalDay(s, InstantForLocalTime(s, day, time)) == day
       <==> !(InGap(at, before, after, WallTime(s, day, time))
              && WallTime(s, day, time) + (after - before) >= Boundary(s, day + 1))
  {
  }

  /** Days beginning at 02:30 and a 02:15 lock, on the night 02:00 becomes 03:00. */
  lemma SkippedLockLeavesItsDay()
    ensures exists s: DepotSchedule, time ::
      s.zone == OneTransition(DAY + 60 * MINUTE, 60 * MINUTE, 120 * MINUTE)
      && OperationalDay(s, InstantForLocalTime(s, 0, time)) != 0
  {
    var zone := OneTransition(DAY + 60 * MINUTE, 60 * MINUTE, 120 * MINUTE);
    var s := DepotSchedule(zone, 0, 135, 150, None);
    RoundTripExactly(s, DAY + 60 * MINUTE, 60 * MINUTE, 120 * MINUTE, 0, 135);
    assert OperationalDay(s, InstantForLocalTime(s, 0, 135)) != 0;
  }

  /** Whichever way the clock moves, a day begins once the previous one has lasted `length`. */
  ghost predicate DaysLast(s: DepotSchedule, length: int) {
    forall day :: DayBegins(s, day + 1) >= DayBegins(s, day) + length
  }

  /** Days of a zone with one transition lose at most the size of the move. */
  lemma OneTransitionDaysLast(s: DepotSchedule, at: int, before: int, after: int, length: int)
    requires s.zone == OneTransition(at, before, after)
    requires length <= DAY - (if before <= after then after - before else 0)
    ensures DaysLast(s, length)
  {
  }
}
