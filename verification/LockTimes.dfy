/**
 * What the next lock is in the depot's own terms: a time of day it was given, on a
 * day it applies to (apps/api/src/rules/schedule.ts).
 */
module LockTimes {
  import opened Wrappers
  import opened Schedule
  import opened Zones

  // ------------------------------------------------------------------------
  //  Weekdays and dates
  // ------------------------------------------------------------------------

  /** ISO weekdays go round from Monday to Sunday, and 1 January 1970 was a Thursday. */
  lemma WeekdaysGoRound(day: int)
    ensures 1 <= Weekday(day) <= 7 && Weekday(0) == 4
    ensures Weekday(day + 1) == if Weekday(day) == 7 then 1 else Weekday(day) + 1
  {
  }

  /** The time a rule sets for locking, or for returning. */
  function TimeSet(r: PartialRules, lock: bool): Field {
    match lock
    case true => r.lockTime
    case false => r.returnTime
  }

  /** The first special period whose dates, both included, contain the day says `f`; nothing if there is none. */
  ghost predicate PeriodSays(o: Overrides, day: int, lock: bool, f: Field) {
    || (f == Unset && forall i :: 0 <= i < |o.special| ==> day < o.special[i].from || o.special[i].to < day)
    || exists i :: 0 <= i < |o.special| && o.special[i].from <= day <= o.special[i].to
         && (forall j :: 0 <= j < i ==> day < o.special[j].from || o.special[j].to < day)
         && f == TimeSet(o.special[i].rules, lock)
  }

  /** The first holiday of that date is not `null`, and says `f`; nothing if there is none. */
  ghost predicate HolidaySays(o: Overrides, day: int, lock: bool, f: Field) {
    || (f == Unset && forall i :: 0 <= i < |o.holidays| ==> o.holidays[i].date != day)
    || exists i :: 0 <= i < |o.holidays| && o.holidays[i].date == day
         && (forall j :: 0 <= j < i ==> o.holidays[j].date != day)
         && o.holidays[i].rules.Some? && f == TimeSet(o.holidays[i].rules.value, lock)
  }

  /** The weekday, which is not `null`, says `f`; nothing if it is not overridden. */
  predicate WeekdaySays(o: Overrides, weekday: int, lock: bool, f: Field) {
    if weekday in o.weekdays then o.weekdays[weekday].Some? && f == TimeSet(o.weekdays[weekday].value, lock)
    else f == Unset
  }

  /** What the three levels say of a day, the highest first, then the depot's own time. */
  ghost predicate DaySays(s: DepotSchedule, day: int, lock: bool, f: Field) {
    var base := Field.At(if lock then s.lockTime else s.returnTime);
    if s.overrides.None? then f == base
    else
      exists special, holiday, weekday ::
        && PeriodSays(s.overrides.value, day, lock, special) && HolidaySays(s.overrides.value, day, lock, holiday)
        && WeekdaySays(s.overrides.value, Weekday(day), lock, weekday)
        && f == if special != Unset then special else if holiday != Unset then holiday
                else if weekday != Unset then weekday else base
  }

  /** The weekday, or the first holiday of that date, is `null`. */
  ghost predicate Nulled(s: DepotSchedule, day: int) {
    s.overrides.Some? &&
    var o := s.overrides.value;
    || (Weekday(day) in o.weekdays && o.weekdays[Weekday(day)].None?)
    || exists i :: 0 <= i < |o.holidays| && o.holidays[i].date == day && o.holidays[i].rules.None?
         && forall j :: 0 <= j < i ==> o.holidays[j].date != day
  }

  function RuleOf(f: Field): Option<TimeOfDay> {
    match f
    case At(t) => Some(t)
    case Unset | NoRule => None
  }

  lemma HighestLevelDecides(s: DepotSchedule, day: int, lock: bool, f: Field)
    requires DaySays(s, day, lock, f) && !Nulled(s, day)
    ensures RuleOf(f) == if lock then RulesOf(s, day).lockTime else RulesOf(s, day).returnTime
  {
    if s.overrides.Some? {
      var o := s.overrides.value;
      var special, holiday, weekday :|
        && PeriodSays(o, day, lock, special) && HolidaySays(o, day, lock, holiday)
        && WeekdaySays(o, Weekday(day), lock, weekday)
        && f == if special != Unset then special else if holiday != Unset then holiday
                else if weekday != Unset then weekday
                else Field.At(if lock then s.lockTime else s.returnTime);
      FirstPeriodSays(o, day, lock, special);
      FirstHolidaySays(o, day, lock, holiday);
      ThatWeekdaySays(o, day, lock, weekday);
      hide SpecialLevel, HolidayLevel, WeekdayLevel, LevelField, PeriodSays, HolidaySays, WeekdaySays;
    }
  }

  lemma FirstPeriodSays(o: Overrides, day: int, lock: bool, f: Field)
    requires PeriodSays(o, day, lock, f)
    ensures LevelField(SpecialLevel(o, day), lock) == f
  {
    var found := FindPeriod(o.special, day);
    if found.Some? {
      var i :| 0 <= i < |o.special| && o.special[i] == found.value && Covers(found.value, day)
               && forall j :: 0 <= j < i ==> !Covers(o.special[j], day);
    }
  }

  lemma FirstHolidaySays(o: Overrides, day: int, lock: bool, f: Field)
    requires HolidaySays(o, day, lock, f)
    ensures LevelField(HolidayLevel(o, day), lock) == f && !HolidayLevel(o, day).Closed?
  {
    var found := FindHoliday(o.holidays, day);
    if found.Some? {
      var i :| 0 <= i < |o.holidays| && o.holidays[i] == found.value && found.value.date == day
               && forall j :: 0 <= j < i ==> o.holidays[j].date != day;
    }
  }

  lemma ThatWeekdaySays(o: Overrides, day: int, lock: bool, f: Field)
    requires WeekdaySays(o, Weekday(day), lock, f)
    ensures LevelField(WeekdayLevel(o, day), lock) == f && !WeekdayLevel(o, day).Closed?
  {
  }

  lemma NulledHasNoRule(s: DepotSchedule, day: int)
    requires Nulled(s, day)
    ensures RulesOf(s, day) == DayRules(None, None)
  {
    var o := s.overrides.value;
    var found := FindHoliday(o.holidays, day);
    if found.Some? {
      var i :| 0 <= i < |o.holidays| && o.holidays[i] == found.value && found.value.date == day
               && forall j :: 0 <= j < i ==> o.holidays[j].date != day;
    }
  }

  // ------------------------------------------------------------------------
  //  Locks and returns of a day
  // ------------------------------------------------------------------------

  /** The instant of a time of day: a time before the start of the day is on the next date. */
  function Reading(s: DepotSchedule, day: int, time: TimeOfDay): int {
    s.zone.toUtc((if time < s.dayStart then day + 1 else day) * 86_400_000 + time * 60_000)
  }

  /** The instant at which a day begins. */
  function Beginning(s: DepotSchedule, day: int): int {
    s.zone.toUtc(day * 86_400_000 + s.dayStart * 60_000)
  }

  lemma NextLockFromTheEve(s: DepotSchedule, day: int)
    requires Tidy(s)
    ensures var next := NextLock(s, DayBegins(s, day) - 1);
      if LockAt(s, day).Some? then next == LockAt(s, day) else next.None? || next.value >= DayBegins(s, day + 1)
  {
    var eve := DayBegins(s, day) - 1;
    hide Tidy, LockAt, NextLock, DayBegins, OperationalDay;
    DayBeginningsIncrease(s, day - 1, day);
    DayBeginningsIncrease(s, day, day + 1);
    OperationalDaysTileTime(s, eve, day - 1);
    NextLockIsLeast(s, eve);
    var next := NextLock(s, eve);
    if LockAt(s, day).Some? {
      LockInsideItsDay(s, day);
      assert IsLockUpTo(s, LockAt(s, day).value, day - 1 + HORIZON_DAYS);
    }
    if next.Some? {
      var d :| d <= day - 1 + HORIZON_DAYS && LockAt(s, d) == next;
      LockInsideItsDay(s, d);
      if d < day {
        EarlierLocksOnTheEve(s, d, day);
      } else if day < d {
        LaterLocks(s, day, d);
      }
    }
  }

  lemma EarlierLocksOnTheEve(s: DepotSchedule, d: int, day: int)
    requires Tidy(s) && d < day && LockAt(s, d).Some?
    ensures LockAt(s, d).value < DayBegins(s, day)
  {
    LockInsideItsDay(s, d);
    if d + 1 < day {
      DayBeginningsIncrease(s, d + 1, day);
    }
  }

  lemma LaterLocks(s: DepotSchedule, day: int, d: int)
    requires Tidy(s) && day < d && LockAt(s, d).Some?
    ensures LockAt(s, d).value >= DayBegins(s, day + 1)
  {
    LockInsideItsDay(s, d);
    if day + 1 < d {
      DayBeginningsIncrease(s, day + 1, d);
    }
  }

  /**
   * The first lock from the eve of a day on is the reading of the time the levels set
   * for that day; none that day if they remove it, or if its weekday or holiday is `null`.
   */
  lemma LockOfADay(s: DepotSchedule, day: int, f: Field)
    requires Tidy(s)
    ensures var next := NextLock(s, Beginning(s, day) - 1);
      && (!Nulled(s, day) && DaySays(s, day, true, f) && f.At? ==> next == Some(Reading(s, day, f.time)))
      && (Nulled(s, day) || (DaySays(s, day, true, f) && !f.At?) ==> next.None? || next.value >= Beginning(s, day + 1))
  {
    hide DaySays, Nulled, RulesOf, NextLock;
    NextLockFromTheEve(s, day);
    assert Beginning(s, day) == DayBegins(s, day) && Beginning(s, day + 1) == DayBegins(s, day + 1);
    if Nulled(s, day) {
      NulledHasNoRule(s, day);
    } else if DaySays(s, day, true, f) {
      HighestLevelDecides(s, day, true, f);
    }
  }

  /** An instant is past return time from the reading of the time the levels set for its day; never without one. */
  lemma ReturnOfADay(s: DepotSchedule, day: int, f: Field, instant: int)
    requires Tidy(s) && Beginning(s, day) <= instant < Beginning(s, day + 1)
    requires !Nulled(s, day) ==> DaySays(s, day, false, f)
    ensures IsAfterReturnTime(s, instant) <==> !Nulled(s, day) && f.At? && instant >= Reading(s, day, f.time)
  {
    hide DaySays, Nulled, RulesOf;
    assert Beginning(s, day) == DayBegins(s, day) && Beginning(s, day + 1) == DayBegins(s, day + 1);
    OperationalDaysTileTime(s, instant, day);
    if Nulled(s, day) {
      NulledHasNoRule(s, day);
    } else {
      HighestLevelDecides(s, day, false, f);
    }
  }

  // ------------------------------------------------------------------------
  //  Any instant
  // ------------------------------------------------------------------------

  /** The clock of the depot is ahead of the server's by a fixed offset. */
  ghost predicate Ahead(s: DepotSchedule, offset: int) {
    && (forall i :: s.zone.toLocal(i) == i + offset)
    && (forall w :: s.zone.toUtc(w) == w - offset)
  }

  lemma LockEveryDay(s: DepotSchedule, offset: int, from: int)
    requires Ahead(s, offset) && s.overrides.None?
    ensures NextLock(s, from).Some?
    ensures var lock := NextLock(s, from).value;
      from < lock <= from + 86_400_000 && (lock + offset) % 86_400_000 == s.lockTime * 60_000
  {
    var day := OperationalDay(s, from);
    assert LockAt(s, day) == Some(WallTime(s, day, s.lockTime) - offset);
    assert LockAt(s, day + 1) == Some(LockAt(s, day).value + 86_400_000);
    hide OperationalDay, LockAt;
    if LockAt(s, day).value > from {
      assert NextLock(s, from) == LockAt(s, day);
    } else {
      assert ScanForLock(s, from, day + 1, HORIZON_DAYS) == LockAt(s, day + 1);
      assert NextLock(s, from) == LockAt(s, day + 1);
    }
    ReadingsRepeat(s, day, NextLock(s, from).value + offset);
  }

  lemma ReadingsRepeat(s: DepotSchedule, day: int, wall: int)
    requires wall == WallTime(s, day, s.lockTime) || wall == WallTime(s, day, s.lockTime) + 86_400_000
    ensures wall % 86_400_000 == s.lockTime * 60_000
  {
    var date := if s.lockTime < s.dayStart then day + 1 else day;
    var days := if wall == WallTime(s, day, s.lockTime) then date else date + 1;
    assert wall == days * 86_400_000 + s.lockTime * 60_000;
  }

  /**
   * Without overrides nor change of offset, the next lock is the one instant of the
   * next twenty-four hours at which the depot's clock shows its lock time.
   */
  lemma NextLockShowsTheLockTime(s: DepotSchedule, offset: int, from: int, lock: int)
    requires Ahead(s, offset) && s.overrides.None?
    ensures NextLock(s, from) == Some(lock) <==>
      from < lock <= from + 86_400_000 && (lock + offset) % 86_400_000 == s.lockTime * 60_000
  {
    LockEveryDay(s, offset, from);
    hide NextLock;
    var next := NextLock(s, from).value;
    if from < lock <= from + 86_400_000 && (lock + offset) % 86_400_000 == s.lockTime * 60_000 {
      SameReadingSameInstant(lock + offset, next + offset, from + offset);
    }
  }

  lemma SameReadingSameInstant(a: int, b: int, from: int)
    requires from < a <= from + 86_400_000 && from < b <= from + 86_400_000 && a % 86_400_000 == b % 86_400_000
    ensures a == b
  {
    assert a - b == (a / 86_400_000 - b / 86_400_000) * 86_400_000;
  }

  // ------------------------------------------------------------------------
  //  Return times do not matter
  // ------------------------------------------------------------------------

  /** Two levels agree on whether they are closed, and on lock times. */
  predicate SameLock(a: Option<PartialRules>, b: Option<PartialRules>) {
    a.Some? == b.Some? && (a.Some? ==> a.value.lockTime == b.value.lockTime)
  }

  /** Two schedules differ in return times only, the depot's or those of the overrides. */
  ghost predicate SameButReturns(a: DepotSchedule, b: DepotSchedule) {
    && a.zone == b.zone && a.lockTime == b.lockTime && a.dayStart == b.dayStart
    && a.overrides.Some? == b.overrides.Some?
    && (a.overrides.Some? ==> SameOverrides(a.overrides.value, b.overrides.value))
  }

  ghost predicate SameOverrides(a: Overrides, b: Overrides) {
    && a.weekdays.Keys == b.weekdays.Keys
    && (forall w :: w in a.weekdays ==> SameLock(a.weekdays[w], b.weekdays[w]))
    && |a.holidays| == |b.holidays|
    && (forall i :: 0 <= i < |a.holidays| ==>
          a.holidays[i].date == b.holidays[i].date && SameLock(a.holidays[i].rules, b.holidays[i].rules))
    && |a.special| == |b.special|
    && (forall i :: 0 <= i < |a.special| ==>
          && a.special[i].from == b.special[i].from && a.special[i].to == b.special[i].to
          && a.special[i].rules.lockTime == b.special[i].rules.lockTime)
  }

  lemma {:induction false} SameHoliday(a: seq<Holiday>, b: seq<Holiday>, day: int)
    requires |a| == |b|
    requires forall i :: 0 <= i < |a| ==> a[i].date == b[i].date && SameLock(a[i].rules, b[i].rules)
    ensures var x, y := FindHoliday(a, day), FindHoliday(b, day);
      x.Some? == y.Some? && (x.Some? ==> SameLock(x.value.rules, y.value.rules))
  {
    if a != [] && a[0].date != day {
      SameHoliday(a[1..], b[1..], day);
    }
  }

  lemma {:induction false} SamePeriod(a: seq<Period>, b: seq<Period>, day: int)
    requires |a| == |b|
    requires forall i :: 0 <= i < |a| ==>
      a[i].from == b[i].from && a[i].to == b[i].to && a[i].rules.lockTime == b[i].rules.lockTime
    ensures var x, y := FindPeriod(a, day), FindPeriod(b, day);
      x.Some? == y.Some? && (x.Some? ==> x.value.rules.lockTime == y.value.rules.lockTime)
  {
    if a != [] && !Covers(a[0], day) {
      SamePeriod(a[1..], b[1..], day);
    }
  }

  predicate SameLevel(a: Level, b: Level) {
    a.Closed? == b.Closed? && LevelField(a, true) == LevelField(b, true)
  }

  lemma SameLevels(a: Overrides, b: Overrides, day: int)
    requires SameOverrides(a, b)
    ensures SameLevel(WeekdayLevel(a, day), WeekdayLevel(b, day))
    ensures SameLevel(HolidayLevel(a, day), HolidayLevel(b, day))
    ensures SameLevel(SpecialLevel(a, day), SpecialLevel(b, day))
  {
    hide FindHoliday, FindPeriod, Weekday;
    SameHoliday(a.holidays, b.holidays, day);
    SamePeriod(a.special, b.special, day);
  }

  lemma SameLockAt(a: DepotSchedule, b: DepotSchedule, day: int)
    requires SameButReturns(a, b)
    ensures LockAt(a, day) == LockAt(b, day)
  {
    hide SameOverrides, WeekdayLevel, HolidayLevel, SpecialLevel, LevelField;
    if a.overrides.Some? {
      SameLevels(a.overrides.value, b.overrides.value, day);
    }
    assert RulesOf(a, day).lockTime == RulesOf(b, day).lockTime;
    hide RulesOf;
  }

  lemma {:induction false} SameScan(a: DepotSchedule, b: DepotSchedule, from: int, day: int, days: nat)
    requires SameButReturns(a, b)
    ensures ScanForLock(a, from, day, days) == ScanForLock(b, from, day, days)
    decreases days
  {
    hide LockAt, SameButReturns;
    if days > 0 {
      SameLockAt(a, b, day);
      SameScan(a, b, from, day + 1, days - 1);
    }
  }

  /** Schedules that differ in return times only have the same next lock. */
  lemma ReturnTimesDoNotMoveLocks(a: DepotSchedule, b: DepotSchedule, from: int)
    requires SameButReturns(a, b)
    ensures NextLock(a, from) == NextLock(b, from)
  {
    hide ScanForLock;
    assert OperationalDay(a, from) == OperationalDay(b, from);
    SameScan(a, b, from, OperationalDay(a, from), HORIZON_DAYS + 1);
  }
}
