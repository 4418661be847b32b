/**
 * Time rules of a depot: operational days, the three levels of override and
 * the search for the next lock instant (apps/api/src/rules/schedule.ts).
 *
 * Instants and wall-clock readings are integers, in milliseconds; a date is its
 * number of days since 1970-01-01, so that comparing `YYYY-MM-DD` strings is
 * comparing integers.
 */
module Schedule {
  import opened Wrappers

  const MINUTE := 60_000
  const DAY := 86_400_000
  const HORIZON_DAYS := 8

  /** A local time of day, in minutes: `HH:mm` from 00:00 to 23:59. */
  type TimeOfDay = t: int | 0 <= t < 1440

  /**
   * A time zone, as the code uses one: the wall clock shown at an instant, and
   * the instant chosen for a wall-clock reading.
   */
  datatype Zone = Zone(toLocal: int -> int, toUtc: int -> int)

  /** An override field: left out, explicitly `null`, or a time. */
  datatype Field = Unset | NoRule | At(time: TimeOfDay)

  datatype PartialRules = PartialRules(returnTime: Field, lockTime: Field)

  datatype DayRules = DayRules(returnTime: Option<TimeOfDay>, lockTime: Option<TimeOfDay>)

  datatype Holiday = Holiday(date: int, rules: Option<PartialRules>)

  datatype Period = Period(from: int, to: int, rules: PartialRules)

  datatype Overrides = Overrides(
    weekdays: map<int, Option<PartialRules>>, holidays: seq<Holiday>, special: seq<Period>)

  datatype DepotSchedule = DepotSchedule(
    zone: Zone, returnTime: TimeOfDay, lockTime: TimeOfDay, dayStart: TimeOfDay,
    overrides: Option<Overrides>)

  // ------------------------------------------------------------------------
  //  Day rules
  // ------------------------------------------------------------------------

  /** ISO weekday, 1 for Monday; day 0 is Thursday 1 January 1970. */
  function Weekday(day: int): int {
    (day + 3) % 7 + 1
  }

  /** `Array.find`: the first entry for that date. */
  function FindHoliday(holidays: seq<Holiday>, day: int): (r: Option<Holiday>)
    ensures r.None? <==> forall i :: 0 <= i < |holidays| ==> holidays[i].date != day
    ensures r.Some? ==> (exists i :: 0 <= i < |holidays| && holidays[i] == r.value && r.value.date == day
                                     && forall j :: 0 <= j < i ==> holidays[j].date != day)
  {
    if holidays == [] then None
    else if holidays[0].date == day then Some(holidays[0])
    else FindHoliday(holidays[1..], day)
  }

  predicate Covers(p: Period, day: int) {
    p.from <= day <= p.to
  }

  /** `Array.find`: the first period whose bounds, both included, contain the day. */
  function FindPeriod(special: seq<Period>, day: int): (r: Option<Period>)
    ensures r.None? <==> forall i :: 0 <= i < |special| ==> !Covers(special[i], day)
    ensures r.Some? ==> (exists i :: 0 <= i < |special| && special[i] == r.value && Covers(r.value, day)
                                     && forall j :: 0 <= j < i ==> !Covers(special[j], day))
  {
    if special == [] then None
    else if Covers(special[0], day) then Some(special[0])
    else FindPeriod(special[1..], day)
  }

  /** The rules of a level for a day: absent, closed (`null`) or partial. */
  datatype Level = Absent | Closed | Rules(rules: PartialRules)

  function WeekdayLevel(o: Overrides, day: int): Level {
    if Weekday(day) !in o.weekdays then Absent
    else match o.weekdays[Weekday(day)]
      case None => Closed
      case Some(r) => Rules(r)
  }

  function HolidayLevel(o: Overrides, day: int): Level {
    match FindHoliday(o.holidays, day)
    case None => Absent
    case Some(h) => if h.rules.None? then Closed else Rules(h.rules.value)
  }

  function SpecialLevel(o: Overrides, day: int): Level {
    match FindPeriod(o.special, day)
    case None => Absent
    case Some(p) => Rules(p.rules)
  }

  function LevelField(level: Level, lock: bool): Field {
    match level
    case Absent => Unset
    case Closed => NoRule
    case Rules(r) => if lock then r.lockTime else r.returnTime
  }

  function Or(f: Field, otherwise: Option<TimeOfDay>): Option<TimeOfDay> {
    match f
    case Unset => otherwise
    case NoRule => None
    case At(t) => Some(t)
  }

  /** The documented priority: special, then holiday, then weekday, then the depot. */
  function DocumentedField(s: DepotSchedule, day: int, lock: bool): Option<TimeOfDay> {
    var base := Some(if lock then s.lockTime else s.returnTime);
    match s.overrides
    case None => base
    case Some(o) =>
      Or(LevelField(SpecialLevel(o, day), lock),
         Or(LevelField(HolidayLevel(o, day), lock),
            Or(LevelField(WeekdayLevel(o, day), lock), base)))
  }

  /** A weekday or a holiday set to `null` removes both rules, whatever lies above it. */
  predicate ClosedDay(s: DepotSchedule, day: int) {
    s.overrides.Some? &&
    (WeekdayLevel(s.overrides.value, day).Closed? || HolidayLevel(s.overrides.value, day).Closed?)
  }

  /** The rules in force on an operational day. */
  function RulesOf(s: DepotSchedule, day: int): DayRules {
    if ClosedDay(s, day) then DayRules(None, None)
    else DayRules(DocumentedField(s, day, false), DocumentedField(s, day, true))
  }

  /** `resolveDayRules`: one level after the other, each overriding `resolved`. */
  method ResolveDayRules(s: DepotSchedule, day: int) returns (resolved: DayRules)
    ensures resolved == RulesOf(s, day)
  {
    resolved := DayRules(Some(s.returnTime), Some(s.lockTime));
    if s.overrides.None? {
      return;
    }
    var o := s.overrides.value;
    if Weekday(day) in o.weekdays {
      var rule := o.weekdays[Weekday(day)];
      if rule.None? {
        return DayRules(None, None);
      }
      resolved := DayRules(Or(rule.value.returnTime, resolved.returnTime),
                           Or(rule.value.lockTime, resolved.lockTime));
    }
    var holiday := FindHoliday(o.holidays, day);
    if holiday.Some? {
      if holiday.value.rules.None? {
        return DayRules(None, None);
      }
      resolved := DayRules(Or(holiday.value.rules.value.returnTime, resolved.returnTime),
                           Or(holiday.value.rules.value.lockTime, resolved.lockTime));
    }
    var period := FindPeriod(o.special, day);
    if period.Some? {
      resolved := DayRules(Or(period.value.rules.returnTime, resolved.returnTime),
                           Or(period.value.rules.lockTime, resolved.lockTime));
    }
  }

  /** A level above a `null` weekday or a `null` holiday sets a time for this field. */
  predicate TimeAboveClosed(o: Overrides, day: int, lock: bool) {
    var special := LevelField(SpecialLevel(o, day), lock);
    var holiday := LevelField(HolidayLevel(o, day), lock);
    && (WeekdayLevel(o, day).Closed? || HolidayLevel(o, day).Closed?)
    && (special.At? || (special.Unset? && holiday.At?))
  }

  /** No level above a closed one sets a time. */
  predicate ClosedDaysStayClosed(s: DepotSchedule, day: int) {
    s.overrides.None? ||
    (!TimeAboveClosed(s.overrides.value, day, false) && !TimeAboveClosed(s.overrides.value, day, true))
  }

  /**
   * The documented priority and the code agree exactly on the days where no
   * level above a `null` weekday or holiday sets a time.
   */
  lemma RulesFollowDocumentedPriority(s: DepotSchedule, day: int)
    ensures RulesOf(s, day) == DayRules(DocumentedField(s, day, false), DocumentedField(s, day, true))
       <==> ClosedDaysStayClosed(s, day)
  {
  }

  /** A closed holiday inside a special period that locks at 20:00: documented as a lock, resolved as none. */
  lemma ClosedHolidayHidesThePeriod(zone: Zone)
    ensures var period := Period(10, 20, PartialRules(Unset, Field.At(1200)));
      var s := DepotSchedule(zone, 1080, 1320, 180, Some(Overrides(map[], [Holiday(12, None)], [period])));
      DocumentedField(s, 12, true) == Some(1200) && RulesOf(s, 12) == DayRules(None, None)
  {
  }

  // ------------------------------------------------------------------------
  //  Operational days
  // ------------------------------------------------------------------------

  /** The wall-clock reading at which operational day `day` begins. */
  function Boundary(s: DepotSchedule, day: int): int {
    day * DAY + s.dayStart * MINUTE
  }

  /** `operationalDayOf`: before `operationalDayStart`, an instant still belongs to the day before. */
  function OperationalDay(s: DepotSchedule, instant: int): (day: int)
    ensures Boundary(s, day) <= s.zone.toLocal(instant) < Boundary(s, day + 1)
  {
    var local := s.zone.toLocal(instant);
    var date := local / DAY;
    var minutesNow := (local % DAY) / MINUTE;
    if minutesNow < s.dayStart then date - 1 else date
  }

  /** A time before `operationalDayStart` falls on the next calendar day. */
  function WallTime(s: DepotSchedule, day: int, time: TimeOfDay): (wall: int)
    ensures Boundary(s, day) <= wall < Boundary(s, day + 1)
  {
    (if time < s.dayStart then day + 1 else day) * DAY + time * MINUTE
  }

  /** `instantForLocalTime`. */
  function InstantForLocalTime(s: DepotSchedule, day: int, time: TimeOfDay): int {
    s.zone.toUtc(WallTime(s, day, time))
  }

  /** The instant at which operational day `day` begins. */
  function DayBegins(s: DepotSchedule, day: int): int {
    s.zone.toUtc(Boundary(s, day))
  }

  /**
   * What the time rules need of a zone: an operational day's beginning splits
   * both the instants and the wall-clock readings into before and after. It is
   * a hypothesis on the zone, discharged below for the zones that have it.
   */
  ghost predicate Tidy(s: DepotSchedule) {
    && (forall day, i :: s.zone.toLocal(i) >= Boundary(s, day) <==> i >= DayBegins(s, day))
    && (forall day, w :: w >= Boundary(s, day) <==> s.zone.toUtc(w) >= DayBegins(s, day))
  }

  /** Operational days tile time: each is exactly the instants from its beginning to the next one's. */
  lemma OperationalDaysTileTime(s: DepotSchedule, instant: int, day: int)
    requires Tidy(s)
    ensures OperationalDay(s, instant) == day <==> DayBegins(s, day) <= instant < DayBegins(s, day + 1)
  {
  }

  /** Every time of day of an operational day is an instant of that operational day. */
  lemma OperationalDayRoundTrip(s: DepotSchedule, day: int, time: TimeOfDay)
    requires Tidy(s)
    ensures OperationalDay(s, InstantForLocalTime(s, day, time)) == day
  {
  }

  // ------------------------------------------------------------------------
  //  Return time
  // ------------------------------------------------------------------------

  /** `isAfterReturnTime`. */
  predicate IsAfterReturnTime(s: DepotSchedule, instant: int) {
    var day := OperationalDay(s, instant);
    var rule := RulesOf(s, day).returnTime;
    rule.Some? && instant >= InstantForLocalTime(s, day, rule.value)
  }

  /**
   * Once an instant is past the return time, so is every later instant of its
   * operational day, and never one of a day without a return rule.
   */
  lemma AfterReturnUntilDayEnds(s: DepotSchedule, instant: int, later: int)
    requires Tidy(s)
    requires IsAfterReturnTime(s, instant)
    requires instant <= later < DayBegins(s, OperationalDay(s, instant) + 1)
    ensures IsAfterReturnTime(s, later)
    ensures RulesOf(s, OperationalDay(s, later)).returnTime.Some?
  {
    var day := OperationalDay(s, instant);
    OperationalDaysTileTime(s, instant, day);
    OperationalDaysTileTime(s, later, day);
  }

  // ------------------------------------------------------------------------
  //  Lock instants
  // ------------------------------------------------------------------------

  /** The lock instant of an operational day, if it has a lock rule. */
  function LockAt(s: DepotSchedule, day: int): Option<int> {
    var rule := RulesOf(s, day).lockTime;
    if rule.Some? then Some(InstantForLocalTime(s, day, rule.value)) else None
  }

  lemma LockInsideItsDay(s: DepotSchedule, day: int)
    requires Tidy(s) && LockAt(s, day).Some?
    ensures OperationalDay(s, LockAt(s, day).value) == day
    ensures DayBegins(s, day) <= LockAt(s, day).value < DayBegins(s, day + 1)
  {
  }

  lemma DayBeginningsIncrease(s: DepotSchedule, day: int, later: int)
    requires Tidy(s) && day < later
    ensures DayBegins(s, day) < DayBegins(s, later)
  {
  }

  /** Lock instants of successive operational days are strictly increasing. */
  lemma LockInstantsIncrease(s: DepotSchedule, day: int, later: int)
    requires Tidy(s) && day < later
    requires LockAt(s, day).Some? && LockAt(s, later).Some?
    ensures LockAt(s, day).value < LockAt(s, later).value
  {
  }

  /** The first lock instant after `from` met when scanning `days` days from `day`. */
  function ScanForLock(s: DepotSchedule, from: int, day: int, days: nat): Option<int>
    decreases days
  {
    if days == 0 then None
    else if LockAt(s, day).Some? && LockAt(s, day).value > from then LockAt(s, day)
    else ScanForLock(s, from, day + 1, days - 1)
  }

  function NextLock(s: DepotSchedule, from: int): Option<int> {
    ScanForLock(s, from, OperationalDay(s, from), HORIZON_DAYS + 1)
  }

  /** `nextLockInstant`, with its cursor walking over the days. */
  method NextLockInstant(s: DepotSchedule, from: int) returns (r: Option<int>)
    ensures r == NextLock(s, from)
  {
    hide WallTime, OperationalDay, DocumentedField, ClosedDay;
    var cursor := OperationalDay(s, from);
    var i := 0;
    while i <= HORIZON_DAYS
      invariant 0 <= i <= HORIZON_DAYS + 1
      invariant NextLock(s, from) == ScanForLock(s, from, cursor, HORIZON_DAYS + 1 - i)
    {
      var rules := ResolveDayRules(s, cursor);
      if rules.lockTime.Some? {
        var instant := InstantForLocalTime(s, cursor, rules.lockTime.value);
        if instant > from {
          return Some(instant);
        }
      }
      cursor := cursor + 1;
      i := i + 1;
    }
    r := None;
  }

  /** `lock` is the lock instant of some operational day up to `last`. */
  ghost predicate IsLockUpTo(s: DepotSchedule, lock: int, last: int) {
    exists day :: day <= last && LockAt(s, day) == Some(lock)
  }

  lemma {:induction false} ScanFindsALock(s: DepotSchedule, from: int, day: int, days: nat)
    ensures var r := ScanForLock(s, from, day, days);
      r.Some? ==> r.value > from && exists d :: day <= d < day + days && LockAt(s, d) == r
    decreases days
  {
    hide LockAt;
    if days > 0 && !(LockAt(s, day).Some? && LockAt(s, day).value > from) {
      ScanFindsALock(s, from, day + 1, days - 1);
    }
  }

  lemma {:induction false} ScanMissesNoLock(s: DepotSchedule, from: int, day: int, days: nat, d: int)
    requires Tidy(s)
    requires day <= d < day + days && LockAt(s, d).Some? && LockAt(s, d).value > from
    ensures var r := ScanForLock(s, from, day, days); r.Some? && r.value <= LockAt(s, d).value
    decreases days
  {
    hide LockAt, Tidy;
    if LockAt(s, day).Some? && LockAt(s, day).value > from {
      if day < d {
        LockInstantsIncrease(s, day, d);
      }
    } else {
      ScanMissesNoLock(s, from, day + 1, days - 1, d);
    }
  }

  /** The lock instants of the days before an instant's operational day lie behind it. */
  lemma EarlierLocksArePast(s: DepotSchedule, from: int, day: int)
    requires Tidy(s) && day < OperationalDay(s, from) && LockAt(s, day).Some?
    ensures LockAt(s, day).value < from
  {
  }

  /**
   * `nextLockInstant` returns the least lock instant strictly after `from` among
   * ALL operational days up to the horizon, those before the starting day
   * included, and nothing exactly when there is none.
   */
  lemma NextLockIsLeast(s: DepotSchedule, from: int)
    requires Tidy(s)
    ensures var last := OperationalDay(s, from) + 8;
      match NextLock(s, from)
      case Some(lock) =>
        && lock > from
        && IsLockUpTo(s, lock, last)
        && forall other :: IsLockUpTo(s, other, last) && other > from ==> lock <= other
      case None =>
        forall other :: IsLockUpTo(s, other, last) ==> other <= from
  {
    var start := OperationalDay(s, from);
    ScanFindsALock(s, from, start, HORIZON_DAYS + 1);
    forall day | day <= start + HORIZON_DAYS && LockAt(s, day).Some? && LockAt(s, day).value > from
      ensures NextLock(s, from).Some? && NextLock(s, from).value <= LockAt(s, day).value
    {
      if day < start {
        EarlierLocksArePast(s, from, day);
      } else {
        ScanMissesNoLock(s, from, start, HORIZON_DAYS + 1, day);
      }
    }
  }
}
