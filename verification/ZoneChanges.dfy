/**
 * Zones that change their offset any number of times, such as twice a year. A
 * reading that does not exist is moved forward, and the first occurrence of a
 * repeated one is kept, at every change.
 */
module ZoneChanges {
  import opened Schedule
  import opened Zones

  /** From instant `at` on, another offset. */
  datatype Change = Change(at: int, offset: int)

  function LocalOf(before: int, changes: seq<Change>, i: int): int
    decreases |changes|
  {
    if changes == [] || i < changes[0].at then i + before else LocalOf(changes[0].offset, changes[1..], i)
  }

  function UtcOf(before: int, changes: seq<Change>, w: int): int
    decreases |changes|
  {
    if changes == [] || w - before < changes[0].at || w - changes[0].offset < changes[0].at then w - before
    else UtcOf(changes[0].offset, changes[1..], w)
  }

  function ZoneOf(before: int, changes: seq<Change>): Zone {
    Zone(i => LocalOf(before, changes, i), w => UtcOf(before, changes, w))
  }

  function Size(before: int, c: Change): nat {
    if before <= c.offset then c.offset - before else before - c.offset
  }

  /** Each change comes after the one before by more than the size of either, and `extra`. */
  predicate Separated(before: int, changes: seq<Change>, extra: nat)
    decreases |changes|
  {
    |changes| > 1 ==>
      && changes[1].at > changes[0].at + Size(before, changes[0]) + extra
      && changes[1].at > changes[0].at + Size(changes[0].offset, changes[1]) + extra
      && Separated(changes[0].offset, changes[1..], extra)
  }

  predicate FarFrom(before: int, changes: seq<Change>, start: int) {
    changes == [] || changes[0].at >= start + Size(before, changes[0])
  }

  // ------------------------------------------------------------------------
  //  Conventions
  // ------------------------------------------------------------------------

  /** No instant from `start` on shows less than `start` does. */
  lemma {:induction false} LocalAbove(before: int, changes: seq<Change>, start: int, i: int)
    requires Separated(before, changes, 0) && FarFrom(before, changes, start) && start <= i
    ensures LocalOf(before, changes, i) >= start + before
    decreases |changes|
  {
    if changes != [] && i >= changes[0].at {
      LocalAbove(changes[0].offset, changes[1..], changes[0].at, i);
    }
  }

  /** No reading from the one of `start` on is placed before `start`. */
  lemma {:induction false} UtcAbove(before: int, changes: seq<Change>, start: int, w: int)
    requires Separated(before, changes, 0) && (changes == [] || start <= changes[0].at) && start <= w - before
    ensures UtcOf(before, changes, w) >= start
    decreases |changes|
  {
    if changes != [] && w - before >= changes[0].at && w - changes[0].offset >= changes[0].at {
      UtcAbove(changes[0].offset, changes[1..], changes[0].at, w);
    }
  }

  /** By how much a reading is moved forward: the size of the change that skips it, or nothing. */
  function Moved(before: int, changes: seq<Change>, w: int): nat
    decreases |changes|
  {
    if changes == [] || w - before < changes[0].at then 0
    else if w - changes[0].offset < changes[0].at then changes[0].offset - before
    else Moved(changes[0].offset, changes[1..], w)
  }

  /**
   * A reading is shown at the instant chosen for it, or, exactly when no instant
   * shows it, moved forward by the change that skips it; and no earlier instant shows it.
   */
  lemma {:induction false} ChangesFollowConventions(before: int, changes: seq<Change>, w: int, i: int)
    requires Separated(before, changes, 0)
    ensures LocalOf(before, changes, UtcOf(before, changes, w)) == w + Moved(before, changes, w)
    ensures LocalOf(before, changes, i) == w ==> Moved(before, changes, w) == 0 && UtcOf(before, changes, w) <= i
    decreases |changes|
  {
    if changes != [] {
      var c, rest := changes[0], changes[1..];
      ChangesFollowConventions(c.offset, rest, w, i);
      if i >= c.at {
        LocalAbove(c.offset, rest, c.at, i);
      }
      if w - before >= c.at && w - c.offset >= c.at {
        UtcAbove(c.offset, rest, c.at, w);
      }
    }
  }

  // ------------------------------------------------------------------------
  //  Tidy zones
  // ------------------------------------------------------------------------

  /** A reading that separates instants and readings alike. */
  ghost predicate Splits(before: int, changes: seq<Change>, b: int) {
    && (forall i :: LocalOf(before, changes, i) >= b <==> i >= UtcOf(before, changes, b))
    && (forall w :: w >= b <==> UtcOf(before, changes, w) >= UtcOf(before, changes, b))
  }

  /** The reading falls within the disturbance of some change. */
  predicate DisturbedBy(before: int, changes: seq<Change>, b: int)
    decreases |changes|
  {
    changes != [] && (
      || Disturbed(changes[0].at, before, changes[0].offset, b)
      || DisturbedBy(changes[0].offset, changes[1..], b))
  }

  /** Later changes do not disturb what comes before them. */
  lemma {:induction false} NotYetDisturbed(before: int, changes: seq<Change>, start: int, b: int)
    requires Separated(before, changes, 0) && FarFrom(before, changes, start) && b <= start + before
    ensures !DisturbedBy(before, changes, b)
    decreases |changes|
  {
    if changes != [] {
      NotYetDisturbed(changes[0].offset, changes[1..], changes[0].at, b);
    }
  }

  /** A reading before the first change, or skipped by it. */
  lemma SplitsBefore(before: int, changes: seq<Change>, b: int)
    requires Separated(before, changes, 0) && changes != []
    requires b - before < changes[0].at || b - changes[0].offset < changes[0].at
    ensures Splits(before, changes, b) <==> !DisturbedBy(before, changes, b)
  {
    var c, rest := changes[0], changes[1..];
    if Disturbed(c.at, before, c.offset, b) {
      if before > c.offset {
        assert !(LocalOf(before, changes, c.at) >= b <==> c.at >= UtcOf(before, changes, b));
      } else {
        var w := c.at + c.offset;
        assert UtcOf(before, changes, w) == c.at;
        assert !(w >= b <==> UtcOf(before, changes, w) >= UtcOf(before, changes, b));
      }
    } else {
      NotYetDisturbed(c.offset, rest, c.at, b);
      forall i ensures LocalOf(before, changes, i) >= b <==> i >= UtcOf(before, changes, b) {
        if i >= c.at {
          LocalAbove(c.offset, rest, c.at, i);
        }
      }
      forall w ensures w >= b <==> UtcOf(before, changes, w) >= UtcOf(before, changes, b) {
        if w - before >= c.at && w - c.offset >= c.at {
          UtcAbove(c.offset, rest, c.at, w);
        }
      }
    }
  }

  /** A reading that the first change leaves behind, but still disturbs: a skipped one overtakes it. */
  lemma OvertakenReading(before: int, changes: seq<Change>, b: int)
    requires Separated(before, changes, 0) && changes != []
    requires b - before >= changes[0].at && b - changes[0].offset >= changes[0].at
    requires Disturbed(changes[0].at, before, changes[0].offset, b)
    ensures !Splits(before, changes, b)
  {
    var w := changes[0].at + changes[0].offset - 1;
    assert !(w >= b <==> UtcOf(before, changes, w) >= UtcOf(before, changes, b));
  }

  /** A reading beyond the first change: only the later ones matter. */
  lemma SplitsBeyond(before: int, changes: seq<Change>, b: int)
    requires Separated(before, changes, 0) && changes != []
    requires b - before >= changes[0].at && b - changes[0].offset >= changes[0].at
    requires !Disturbed(changes[0].at, before, changes[0].offset, b)
    ensures Splits(before, changes, b) <==> Splits(changes[0].offset, changes[1..], b)
  {
    var c, rest := changes[0], changes[1..];
    UtcAbove(c.offset, rest, c.at + Size(before, c), b);
    forall i ensures LocalOf(before, changes, i) >= b <==> LocalOf(c.offset, rest, i) >= b {
    }
    forall w
      ensures UtcOf(before, changes, w) >= UtcOf(before, changes, b) <==>
        UtcOf(c.offset, rest, w) >= UtcOf(c.offset, rest, b)
    {
    }
  }

  lemma {:induction false} SplitsExactly(before: int, changes: seq<Change>, b: int)
    requires Separated(before, changes, 0)
    ensures Splits(before, changes, b) <==> !DisturbedBy(before, changes, b)
    decreases |changes|
  {
    if changes != [] {
      var c := changes[0];
      if b - before < c.at || b - c.offset < c.at {
        SplitsBefore(before, changes, b);
      } else if Disturbed(c.at, before, c.offset, b) {
        OvertakenReading(before, changes, b);
      } else {
        SplitsBeyond(before, changes, b);
        SplitsExactly(c.offset, changes[1..], b);
      }
    }
  }

  /**
   * A zone whose changes are further apart than their sizes is tidy exactly when no
   * operational day begins within the disturbance of any of them.
   */
  lemma ChangesTidyExactly(s: DepotSchedule, before: int, changes: seq<Change>)
    requires s.zone == ZoneOf(before, changes) && Separated(before, changes, 0)
    ensures Tidy(s) <==> forall day :: !DisturbedBy(before, changes, Boundary(s, day))
  {
    forall day ensures Splits(before, changes, Boundary(s, day)) <==> !DisturbedBy(before, changes, Boundary(s, day)) {
      SplitsExactly(before, changes, Boundary(s, day));
    }
    TidySplits(s, before, changes);
  }

  lemma TidySplits(s: DepotSchedule, before: int, changes: seq<Change>)
    requires s.zone == ZoneOf(before, changes)
    ensures Tidy(s) <==> forall day :: Splits(before, changes, Boundary(s, day))
  {
    assert forall i :: s.zone.toLocal(i) == LocalOf(before, changes, i);
    assert forall w :: s.zone.toUtc(w) == UtcOf(before, changes, w);
  }

  // ------------------------------------------------------------------------
  //  Length of the days
  // ------------------------------------------------------------------------

  /** No change moves the clock forward by more than `most`. */
  predicate ForwardAtMost(before: int, changes: seq<Change>, most: nat)
    decreases |changes|
  {
    changes != [] ==> changes[0].offset - before <= most && ForwardAtMost(changes[0].offset, changes[1..], most)
  }

  lemma {:induction false} LengthKept(before: int, changes: seq<Change>, w: int, length: nat, most: nat)
    requires Separated(before, changes, length) && ForwardAtMost(before, changes, most)
    ensures UtcOf(before, changes, w + length) >= UtcOf(before, changes, w) + length - most
    decreases |changes|
  {
    if changes != [] {
      LengthKept(changes[0].offset, changes[1..], w, length, most);
    }
  }

  /** With changes more than a day apart, no day is shorter than 24 hours by more than the largest forward change. */
  lemma ChangesDaysLast(s: DepotSchedule, before: int, changes: seq<Change>, most: nat)
    requires s.zone == ZoneOf(before, changes)
    requires Separated(before, changes, DAY) && ForwardAtMost(before, changes, most)
    ensures DaysLast(s, DAY - most)
  {
    forall day ensures DayBegins(s, day + 1) >= DayBegins(s, day) + DAY - most {
      LengthKept(before, changes, Boundary(s, day), DAY, most);
    }
  }
}
