# Phone Control: verified model of the server's rules and protocols

Phone Control manages the phones that delivery drivers take from a depot in the
morning and bring back in the evening. This project models the parts of it whose
correctness is not visible in any one function, and proves what they promise over
every input and every run:

- the time rules of a depot (operational days, three levels of overrides, time
  zones with a change of offset) and the replicated job that locks every phone
  once at the depot's lock time (`Schedule`, `Zones`, `ZoneChanges`, `LockTimes`,
  `LeaderLock`, `LockPlanner`, `LockRuns`);
- the command queue and its life over any sequence of calls (`Commands`,
  `CommandRuns`), and the check/insert/re-read protocol under any interleaving
  (`Interleaving`);
- calls that read a row, let others run, then write it (`Overlap`): tokens and commands (`Races`),
  sessions and phones (`FleetRaces`), logins (`LoginRaces`), screen sharing
  (`ScreenShareRaces`) and last positions (`SyncRaces`), each with what every
  interleaving keeps and the exact condition for what it does not;
- sessions and phones as one relational state machine (`Geofence`, `Fleet`,
  `FleetRuns`), alerts (`Alerts`), and the synchronisation of batches that phones
  push again and again (`Sync`, `SyncEvents`, `SyncProofs`, `SyncReplays`,
  `SyncInvariants`);
- tenant isolation as a rewriting of queries that commutes with restricting the
  database to one company, and where that ends (`Tenant`, `TenantCalls`,
  `TenantProofs`, `TenantIsolation`, `TenantLimits`);
- refresh-token families (`Tokens`), lock-outs (`Lockout`), the window limiter
  (`RateLimit`), alert routing and its hourly ceiling (`Notifications`, `AlertRouting`), screen
  sharing with consent (`ScreenShare`), and the retention purge (`Retention`);
- two parsers with a printer each: the APK signing block (`LittleEndian`, `Apk`,
  `ApkRoundTrip`, `ApkFormat`; "APK Signing Block" and "APK Signature Scheme v2" in the Android
  documentation, sections 4.3.12 and 4.3.16 of PKWARE APPNOTE) and the fleet CSV
  (`Csv`, `CsvRoundTrip`, `FleetFile`, `FleetColumns`, `FleetLines`; section 2 of RFC 4180).

## How the model is built

Code that changes things step by step is a class or a method with the source's
loops, proved equal to a function of its inputs and its old state; what the source
promises is then proved of that function, usually over a whole sequence of calls, and
what each operation means is stated apart from that function, with the constants of
the source and of the formats written out.
Instants are integers in milliseconds, days are counted from the epoch, a time of
day is a number of minutes. A row's id is its position in its table where the
source draws a fresh UUID. Clocks, random secrets, configuration, the network and
regular expressions are parameters.

A time zone is a pair of functions, from instants to wall-clock readings and back.
`Tidy` is the one hypothesis on it: the beginning of an operational day separates
instants and readings alike. It is proved for fixed offsets, and for a zone with any
number of changes of offset, further apart than their sizes, exactly when no
operational day begins within a disturbed hour.

`dafny verify dfyconfig.toml` checks everything.

## Where the code and its documentation differ

The model follows the code; each difference is a lemma with its exact condition.

- A weekday or a holiday set to `null` returns at once, so a special period above it
  is ignored, although the documented priority puts special periods first
  (`Schedule.RulesFollowDocumentedPriority`).
- An entry after an after-return alert goes back to RETURNED only past the return
  time of its own day, not "at any time" (`Geofence.ReentryReturnsExactly`).
- A replayed security event raises its alert again once the first alert was closed
  (`SyncProofs.UnchangedExactly`); while no alert is closed and the same badges and
  drivers stay active, a replay changes nothing (`SyncProofs.ReplayChangesNothing`).
- `raise` can fail, although it recovers from conflicts: the row it collided with
  may be closed before it is read again (`Interleaving.FailsExactly`).
- Tenant isolation does not hold of an update or a delete that names another company
  where the primary key is the tenant column, as for `Company` and `RetentionPolicy`:
  the ownership check finds the caller's own row, and the original condition then
  reaches the other company's (`TenantIsolation.IsolatedExactly`,
  `TenantIsolation.CompanyUpdateStrays`, `TenantIsolation.PolicyDeleteStrays`).
- An update whose data names another company gives the caller's row away
  (`TenantLimits.UpdateIsolatedExactly`, `TenantLimits.UpdateGivesARowAway`).
- `ScreenShareSession` has a company column and is missing from the list said to hold
  the models that have one: a read of it selects every company's rows, and answers as
  on the company's own exactly when it selects no others
  (`TenantLimits.UnlistedReadExactly`, `TenantLimits.HistoryReadsEveryCompany`).
- A tenant condition written by the caller is replaced, not combined
  (`TenantIsolation.OverriddenConditionExactly`).
- A fleet file whose cells are all blank, such as a single semicolon, ends in a
  TypeError instead of a `ProvisioningError` (`FleetFile.ParseFleetCsv`).
- The line a fleet error names is said to be that of the file; it is a place in the
  table, and smaller as soon as an earlier line is blank or an earlier cell spans
  several lines (`FleetLines.NamedLineExactly`, `FleetLines.EmptyLineShiftsTheNumber`).
- A token is accepted once, and effects are applied once, only while no other call
  writes between the reading and the writing of a call
  (`Races.RefreshedTogetherExactly`, `Races.AcknowledgedTogetherExactly`). A pull marks
  as sent what it read, so a command executed meanwhile is sent and executed again
  (`Races.MarkKeepsEffectsExactly`, `Races.ExecutedTwice`).
- A crossing that writes after a scan replaced its session shows the phone in a state
  its open session is not in (`FleetRaces.CrossingKeepsInvExactly`,
  `FleetRaces.InvThroughoutExactly`, `FleetRaces.CrossingAfterScanBreaksAgreement`); a
  crossing, an end or an expiry that writes late changes a session already closed
  (`FleetRaces.ClosedForGoodExactly`, `FleetRaces.LateWritesChangeAClosedRow`).
- Login attempts that overlap share one count: any number made at one instant are all
  checked and leave a count of one, and a late write can take a lock away
  (`LoginRaces.AllTogetherAreChecked`, `LoginRaces.LateWriteClearsTheLock`); how many
  are checked is bounded by how many may overlap (`LoginRaces.OverlappingGuesses`).
- Requests for a screen that look before one of them is created leave as many live
  sessions on the phone (`ScreenShareRaces.RequestedTogetherExactly`); an answer that
  read the request before it was stopped makes the finished session run again, and an
  image read before the end is relayed after it (`ScreenShareRaces.FollowsThroughoutExactly`,
  `ScreenShareRaces.LateAnswerReopens`, `ScreenShareRaces.ImageAfterTheEnd`).
- A push that read the phone before a later position was stored can put an earlier one
  in its place (`SyncRaces.MovesBackExactly`, `SyncRaces.MorningReplacesNoon`).
- A consent given after the response deadline starts the sharing, unless somebody
  has looked in between (`ScreenShare.ConsentExactly`, `ScreenShare.LateConsentStarts`).
- The limiter called a sliding window allows up to twice its limit minus one within
  one window's length, and is one only for limits below two
  (`RateLimit.AtMostTwiceTheLimit`, `RateLimit.SlidingExactly`). In the last half second
  of a window it gives a whole window as the delay (`RateLimit.RateLimiter.Consume`).
- Alerts are dispatched without being awaited, so those that overlap can go beyond
  the hourly ceiling, by as many as overlap (`Notifications.HourlyCeiling`).
- Older positions of a company with the longest retention may stay until the end of
  the cutoff's month, or for ever in the default partition (`Retention.KeptExactly`).
- An APK whose magic is found less than 24 bytes into the file ends in a range error
  of Node's buffer instead of a `ProvisioningError` (`ApkRoundTrip.RangeErrorExactly`);
  a last pair with an empty value goes unread (`ApkRoundTrip.ReadPrintedPairs`).

## Model

| member | source | states |
|---|---|---|
| Schedule.ResolveDayRules | apps/api/src/rules/schedule.ts:94-151 | Applying the levels one after the other gives each field the documented priority (special period, holiday, weekday, depot), and no rule at all on a day whose weekday or holiday is `null` |
| Schedule.RulesFollowDocumentedPriority | apps/api/src/rules/schedule.ts:94-151 | The code and the documented priority agree on a day if and only if no level above a `null` weekday or holiday sets a time |
| Schedule.ClosedHolidayHidesThePeriod | apps/api/src/rules/schedule.ts:122-148 | A closed holiday inside a special period that locks at 20:00 has no lock, where the documentation gives one |
| Schedule.OperationalDaysTileTime | apps/api/src/rules/schedule.ts:81-88 | An instant belongs to operational day d if and only if it lies between the beginnings of d and of d + 1: the days partition time |
| Schedule.OperationalDayRoundTrip | apps/api/src/rules/schedule.ts:163-186 | The instant of any time of day of an operational day belongs to that operational day, whether the time falls before or after the start of the day |
| Schedule.AfterReturnUntilDayEnds | apps/api/src/rules/schedule.ts:192-198 | Once past the return time, every later instant of the same operational day is past it, and such a day has a return rule |
| Schedule.LockInstantsIncrease | apps/api/src/rules/schedule.ts:163-186 | Lock instants of successive operational days strictly increase, whatever the overrides and on whichever side of the start of the day they fall |
| Schedule.NextLockInstant | apps/api/src/rules/schedule.ts:205-223 | The loop over the days finds the first day from the starting one, within the horizon, whose lock instant is after `from` |
| Schedule.EarlierLocksArePast | apps/api/src/rules/schedule.ts:205-223 | The lock instant of any day before the one `from` belongs to is behind `from`: starting the search there misses nothing |
| Schedule.NextLockIsLeast | apps/api/src/rules/schedule.ts:205-223 | The result is the least lock instant after `from` among all operational days up to the horizon, earlier days included, and it is absent if and only if there is none |
| LockTimes.WeekdaysGoRound | apps/api/src/rules/schedule.ts:94-121 | Weekdays go round from Monday, 1, to Sunday, 7, and 1 January 1970 was a Thursday |
| LockTimes.LockOfADay | apps/api/src/rules/schedule.ts:94-223 | The first lock from the eve of a day on is the instant of the lock time that the highest level to say something sets for that day, on the next date when it is before the start of the day; none that day when that level removes it, or when the weekday or the holiday is `null` |
| LockTimes.ReturnOfADay | apps/api/src/rules/schedule.ts:94-198 | An instant is past return time if and only if its day has a return time, by the same levels, and the instant of that time is not after it |
| LockTimes.NextLockShowsTheLockTime | apps/api/src/rules/schedule.ts:205-223 | Without overrides nor change of offset, the next lock after any instant is the one instant of the following twenty-four hours at which the clock of the depot shows its lock time |
| LockTimes.ReturnTimesDoNotMoveLocks | apps/api/src/rules/schedule.ts:205-223 | Schedules that differ in return times only, the depot's or those of any override, have the same next lock from any instant |
| Zones.FixedOffsetIsTidy | apps/api/src/rules/schedule.ts:72-88 | A zone with a fixed offset satisfies the hypothesis of the time rules |
| Zones.TransitionConventions | apps/api/src/rules/schedule.ts:159-161 | The modelled zone follows the two conventions relied on: a reading that does not exist is moved forward by the size of the change, any other is shown again, and the first occurrence of a repeated one is kept |
| Zones.OneTransitionTidyExactly | apps/api/src/rules/schedule.ts:159-186 | A zone with one change of offset satisfies it if and only if no operational day begins within the skipped or repeated readings |
| Zones.RoundTripExactly | apps/api/src/rules/schedule.ts:159-186 | Across a change of offset, a time of day leaves its operational day if and only if it does not exist and the forward shift carries it past the beginning of the next day |
| Zones.SkippedLockLeavesItsDay | apps/api/src/rules/schedule.ts:159-186 | Such a schedule exists: days that begin at 02:30, a lock at 02:15, on the night the clock jumps from 02:00 to 03:00 |
| Zones.OneTransitionDaysLast | apps/api/src/rules/schedule.ts:81-88 | No operational day is shorter than 24 hours by more than the size of the change of offset |
| ZoneChanges.ChangesFollowConventions | apps/api/src/rules/schedule.ts:159-161 | With any number of changes of offset: a reading is shown at the earliest instant that shows it, or, if and only if none does, moved forward by the change that skips it |
| ZoneChanges.ChangesTidyExactly | apps/api/src/rules/schedule.ts:159-186 | A zone whose changes are further apart than their sizes satisfies the hypothesis of the time rules if and only if no operational day begins within the disturbance of any of them |
| ZoneChanges.ChangesDaysLast | apps/api/src/rules/schedule.ts:81-88 | With changes more than a day apart, no operational day is shorter than 24 hours by more than the largest forward change |
| LeaderLock.LockKey.RunAll | apps/api/src/worker/leader-lock.ts:24-63 | Serving the ticks of all replicas in order, the job runs at exactly the ticks that find the key free |
| LeaderLock.OneRunPerMinute | apps/api/src/worker/leader-lock.ts:24-63 | With a TTL of 50 s and ticks less than 10 s late, the job runs at the first tick of every minute that has one and never again in it, whatever the number of replicas |
| LeaderLock.ExactlyOneRunEveryMinute | apps/api/src/worker/leader-lock.ts:24-63 | If some replica ticks every minute, every minute from the first to the last has exactly one run |
| LeaderLock.RunsAreFiftySecondsApart | apps/api/src/worker/leader-lock.ts:24-63 | Whatever the ticks, runs are at least fifty seconds apart, and a tick does not run only within fifty seconds of one that did |
| LockPlanner.LockScheduler.Run | apps/api/src/worker/lock-scheduler.job.ts:64-84 | A run leaves the command table as the depots handled in turn leave it |
| LockPlanner.LockScheduler.HandleDepot | apps/api/src/worker/lock-scheduler.job.ts:86-132 | One depot adds one keyed lock command per enrolled phone when a lock instant is due, and nothing otherwise |
| LockRuns.CommandExactlyWhenFired | apps/api/src/worker/lock-scheduler.job.ts:86-129 | After any runs, mixed with any other enqueues, pulls, acknowledgements and expiries, a phone has a command for a lock instant if and only if some run acted on that instant for a depot of the phone |
| LockRuns.EveryCommandWasWritten | apps/api/src/worker/lock-scheduler.job.ts:86-129 | Every command keyed by a lock instant was written by one of the runs, at its instant, for a lock instant it acted on, whatever else the queue was asked; idempotency keys stay unique |
| LockRuns.DueExactly | apps/api/src/worker/lock-scheduler.job.ts:86-105 | A run acts on a lock instant if and only if it comes at or after it, less than ten minutes after, and at least ten minutes after every earlier lock instant |
| LockRuns.LocksAreTimely | apps/api/src/worker/lock-scheduler.job.ts:86-129 | Safety, for any run instants and any other use of the queue: whoever has a lock command for an instant has exactly one, created within the ten minutes that follow it, never before, for twelve hours, and is an enrolled phone of a working depot that locks at that instant |
| LockRuns.EveryLockExactlyOnce | apps/api/src/worker/lock-scheduler.job.ts:86-129 | Liveness: if runs are at most `gap` apart, `gap` at most ten minutes and at most the time since the previous lock instant, every enrolled phone gets exactly one command for the instant, in time, whatever else happens to the queue in between |
| LockRuns.EarlierLockGoesFirst | apps/api/src/worker/lock-scheduler.job.ts:86-105 | Of two lock instants closer than ten minutes, a run inside both windows leaves the later one to a later run |
| LockRuns.ReplicatedPlannerLocksExactlyOnce | apps/api/src/worker/leader-lock.ts:24-63 | Election and planner together: with any number of replicas, every lock instant at least 70 s after the previous one gives every enrolled phone exactly one command within ten minutes |
| Commands.EnqueueKeepsUniqueKeys | apps/api/src/devices/commands.service.ts:36-102 | Enqueuing keeps at most one command per phone and idempotency key, leaves one carrying the key, and changes no earlier row |
| Commands.CommandQueue.Enqueue | apps/api/src/devices/commands.service.ts:36-102 | Returns the row that carries the key, old or new, with the default priority and the default life of twelve hours |
| Commands.CommandQueue.PullPending | apps/api/src/devices/commands.service.ts:105-141 | Leaves the table of the specification and answers exactly the rows it delivers, as they were before they were marked |
| Commands.PullDeliversTheFirstFifty | apps/api/src/devices/commands.service.ts:105-141 | A pull delivers live commands only, each once, in decreasing priority then increasing creation date, at most fifty, and none kept back ranks before a delivered one |
| Commands.PullAnswersExactly | apps/api/src/devices/commands.service.ts:105-141 | A pull answers fifty of the phone's live commands, or all of them if fewer, each once and in order, those kept back ranking after; exactly the ones answered become SENT with one more attempt, exactly the phone's overdue ones EXPIRED, and nothing else changes |
| Commands.NewCommandExactly | apps/api/src/devices/commands.service.ts:36-64 | A new command is pending, lives for the minutes asked or twelve hours, and has the priority asked or that of its kind |
| Commands.CommandQueue.Acknowledge | apps/api/src/devices/commands.service.ts:144-199 | An acknowledgement settles the row unless it was executed already, and tells whether the side effects must be applied |
| CommandRuns.EveryRunIsSound | apps/api/src/devices/commands.service.ts:105-199 | Over any run of enqueues, pulls, acknowledgements and purges served one after the other: side effects exactly once per command that becomes EXECUTED, no command delivered after its deadline, keys unique (`Races` for calls that overlap) |
| CommandRuns.SettledForGood | apps/api/src/devices/commands.service.ts:144-199 | EXECUTED is absorbing, and a command neither pending nor sent is never handed out again, whatever calls follow, served one after the other |
| CommandRuns.LateAckExecutesExpired | apps/api/src/devices/commands.service.ts:144-199 | An acknowledgement that comes late turns an EXPIRED command into an EXECUTED one, side effects included |
| Races.AcknowledgedTogetherExactly | apps/api/src/devices/commands.service.ts:150-174 | Acknowledgements of one command, interleaved in any way: effects are applied once for each that acts, and those are exactly the ones that read before the first one writes |
| Races.SettleKeepsEffectsExactly | apps/api/src/devices/commands.service.ts:150-174 | The writes of an acknowledgement keep effects once per executed command if and only if no other executed the command since it read |
| Races.SettleIsAcknowledge | apps/api/src/devices/commands.service.ts:150-174 | The writes of an acknowledgement whose check has passed, made at once, are the acknowledgement of the queue |
| Races.ReadThenMarkIsPull | apps/api/src/devices/commands.service.ts:105-141 | Purging, reading and marking with nothing in between are the pull of the queue |
| Races.MarkKeepsEffectsExactly | apps/api/src/devices/commands.service.ts:119-138 | The last statement of a pull, late, keeps effects once per executed command if and only if none of the commands it read was executed meanwhile |
| Races.MarkEvolvesExactly | apps/api/src/devices/commands.service.ts:119-138 | It keeps settled commands settled if and only if all those it read are still pending or sent |
| Races.ExecutedTwice | apps/api/src/devices/commands.service.ts:119-174 | Any command executed between the reading and the marking of a pull is sent again, and its effects are applied again when it is acknowledged again |
| Interleaving.AtMostOneOpen | apps/api/src/alerts/alerts.service.ts:73-119 | Under any interleaving of calls and closings, every reachable state has at most one open row per key, and every answer carries its caller's key |
| Interleaving.StepAnswers | apps/api/src/alerts/alerts.service.ts:73-119 | Every call is answered after at most three steps, and the answer is the open holder of the key at that instant |
| Interleaving.FailsExactly | apps/api/src/alerts/alerts.service.ts:96-119 | A call fails if and only if it reads again after a unique violation and the row it met was closed, with no other one open |
| Interleaving.ClosedMeanwhile | apps/api/src/alerts/alerts.service.ts:96-119 | A run of two callers and one closing where that happens |
| Interleaving.EnqueueIsIdempotent | apps/api/src/devices/commands.service.ts:64-101 | Any number of enqueues with the same phone and key, interleaved in any way: none fails, one row at most, and all that returned have returned it |
| Geofence.ReturnedExactly | apps/api/src/rules/geofence-rules.ts:48-105 | A session is RETURNED if and only if some entry past return time was followed by no exit |
| Geofence.AlertExactly | apps/api/src/rules/geofence-rules.ts:48-105 | A crossing raises an alert if and only if it leaves a depot the phone had returned to, and exactly those are AFTER_RETURN_EXIT |
| Geofence.ReturnsMatchAlerts | apps/api/src/rules/geofence-rules.ts:48-105 | At any point of a session the returns recorded are the alerts raised, plus one if the session is RETURNED |
| Geofence.NoReturnNoAlert | apps/api/src/rules/geofence-rules.ts:48-105 | A run without an entry past return time raises no alert and records no return |
| Geofence.ReentryReturnsExactly | apps/api/src/rules/geofence-rules.ts:48-105 | An entry that follows an alert goes back to RETURNED if and only if it is past the return time of its own day, and never as a plain ENTER_DEPOT |
| Geofence.ReentryOfTheSameDayReturns | apps/api/src/rules/geofence-rules.ts:48-105 | Within the operational day of the return, it always does |
| Geofence.MorningReentryStaysOnTour | apps/api/src/rules/geofence-rules.ts:48-105 | A run where it does not: back at 03:30 the next morning |
| Fleet.FleetServer.Authenticate | apps/api/src/auth/barcode-auth.service.ts:62-438 | A session opens if and only if all the checks pass; a refusal is that of the first check that fails, in order, and leaves sessions and phones as they were; a success closes the open sessions of the phone and of the driver |
| Fleet.RefusalExactly | apps/api/src/auth/barcode-auth.service.ts:62-347 | Which of the eight refusals a scan meets, by what is wrong with it and with nothing before it |
| Fleet.FleetServer.End | apps/api/src/sessions/sessions.service.ts:79-123 | Ending closes one open session and locks its phone; a session already closed, and its phone, are left alone |
| Fleet.FleetServer.ExpireOverdue | apps/api/src/sessions/sessions.service.ts:130-162 | Expires the overdue open sessions, sends their phones to lock, and returns their ids; with none overdue nothing is written |
| Fleet.FleetServer.ReportResult | apps/api/src/devices/commands.service.ts:144-255 | Side effects on sessions and phone are applied if and only if the acknowledgement is the one that executes the command |
| Fleet.FleetServer.Cross | apps/api/src/sync/sync.service.ts:366-411 | A crossing writes the decided state to the session and the phone together, and nothing without an open session |
| Fleet.FleetServer.Enroll | apps/api/src/devices/enrollment.service.ts:100-160 | Enrolling leaves the phone enrolled, not revoked and locked |
| Fleet.FleetServer.Revoke | apps/api/src/devices/enrollment.service.ts:198-218 | Revoking locks the phone; its session is not closed |
| FleetRuns.ScanReplaces | apps/api/src/auth/barcode-auth.service.ts:359-401 | After a scan the new session is the only open one of its driver and of its phone; exactly their open sessions were closed, with the reason, and nobody else's row changed |
| FleetRuns.ExpiryIsExact | apps/api/src/sessions/sessions.service.ts:130-162 | Expiry touches exactly the open sessions past their deadline and exactly the phones that have one |
| FleetRuns.EffectsLeaveNoSession | apps/api/src/devices/commands.service.ts:206-255 | An executed lock ends the phone's open session, a logout or a revocation revokes it, with the date and the reason, and the phone is locked; other commands close none; no other session or phone changes |
| FleetRuns.EndIsExact | apps/api/src/sessions/sessions.service.ts:79-123 | Ending an open session closes it for that reason, revoked or ended, and locks its phone alone; any other changes nothing |
| FleetRuns.EnrolmentDecidesUse | apps/api/src/devices/enrollment.service.ts:100-218 | An enrolled phone can be used unless it was deleted, a revoked one cannot; both are shown locked, and no other phone nor any session changes |
| FleetRuns.CrossingMovesBoth | apps/api/src/sync/sync.service.ts:366-411 | A crossing moves the open session and the phone to the same state, closes nothing, and keeps the first return date while RETURNED |
| FleetRuns.EveryReachableState | apps/api/src/auth/barcode-auth.service.ts:359-401 | In every state reachable by scans, ends, expiries, executed commands, crossings, enrolments and revocations served one after the other: at most one open session per phone and per driver, and a phone shown in use or returned shows its session's state (`FleetRaces` for calls that overlap) |
| FleetRuns.ClosedForGood | apps/api/src/sessions/sessions.service.ts:79-162 | A session that has left ACTIVE is the same row for ever, whatever the calls that follow, served one after the other (`FleetRaces` for calls that overlap) |
| FleetRaces.ReadThenWriteIsTheCall | apps/api/src/sync/sync.service.ts:305-411 | The reading of a crossing, an end or an expiry followed at once by its writing is the whole call |
| FleetRaces.EveryInterleaving | apps/api/src/sync/sync.service.ts:305-411 | Under any interleaving of whole calls, readings and late writings: at most one open session per phone and per driver, and every writing finds the session it read, on the same phone |
| FleetRaces.CrossingKeepsInvExactly | apps/api/src/sync/sync.service.ts:366-411 | A late crossing keeps phones and sessions in agreement if and only if every other open session of the phone already has the state it writes |
| FleetRaces.ClosingLateKeepsInv | apps/api/src/sessions/sessions.service.ts:84-149 | Late ends and expiries always keep it: they show the phone as locked |
| FleetRaces.InvThroughoutExactly | apps/api/src/sync/sync.service.ts:305-411 | An interleaving keeps the session invariant throughout if and only if no crossing in it is written against another open session of its phone |
| FleetRaces.ClosedForGoodExactly | apps/api/src/sessions/sessions.service.ts:84-149 | A late crossing, end or expiry leaves closed sessions as they were if and only if every session it names is still open, or already has the fields it sets |
| FleetRaces.CrossingAfterScanBreaksAgreement | apps/api/src/sync/sync.service.ts:305-411 | A run of three steps where it breaks: a crossing reads, a second driver scans, the crossing writes; the phone shows BACK_AT_DEPOT and its open session is on tour |
| FleetRaces.LateWritesChangeAClosedRow | apps/api/src/sessions/sessions.service.ts:84-149 | A session ended while a crossing, an end or an expiry had read it is rewritten by each |
| Alerts.RaiseIsIdempotent | apps/api/src/alerts/alerts.service.ts:73-119 | Raising twice with a key is raising once: same table, same id, and that alert is open |
| Alerts.AlertService.SetStatus | apps/api/src/alerts/alerts.service.ts:122-155 | Acknowledging or resolving changes one row out of OPEN and keeps one open alert per key |
| Sync.SyncServer.Push | apps/api/src/sync/sync.service.ts:83-127 | The loop over events, the positions and the clock check leave the state of the specification; the answer lists the ids acknowledged and rejected |
| Sync.SyncServer.HandleOthers | apps/api/src/sync/sync.service.ts:103-115 | A failing event is rejected and does not stop the ones after it |
| Sync.SyncServer.HandleGeofence | apps/api/src/sync/sync.service.ts:286-445 | A crossing is stored once, with the server's decision and its alert, and moves session and phone; without a depot it is ignored |
| Sync.SyncServer.HandleSecurity | apps/api/src/sync/sync.service.ts:447-492 | A security event is stored once per event id; a critical one raises its keyed alert each time |
| Sync.SyncServer.HandleOfflineScan | apps/api/src/sync/sync.service.ts:500-566 | A scan is stored once; an open session of this phone whose badge or driver is gone is ended, its phone locked and ordered to lock, and an alert raised |
| Sync.SyncServer.InsertLocations | apps/api/src/sync/sync.service.ts:175-263 | Positions with coordinates are stored unless their (date, event id) exists; a later one becomes the last position; their ids are returned |
| Sync.SyncServer.ReportClockSkew | apps/api/src/sync/sync.service.ts:141-171 | The clock alert is raised if and only if some event of the batch is ahead of the server by more than the tolerance |
| SyncEvents.TreatedKindByKind | apps/api/src/sync/sync.service.ts:96-115 | Security events before crossings, those before scans, those before positions, each kind by sequence number; events of a kind with the same number keep their order |
| SyncEvents.LatestIsTheLastToCome | apps/api/src/sync/sync.service.ts:233-260 | The position kept is the last to come among those of the latest date |
| SyncEvents.ExitExactly | apps/api/src/sync/sync.service.ts:286-445 | A new crossing the phone calls an exit: if its open session was RETURNED, the row is an after-return exit with its alert, open, and session and phone are on tour again; if not, the row is a plain exit and nothing else changes |
| SyncEvents.EntryExactly | apps/api/src/sync/sync.service.ts:286-445 | Any other new crossing is an entry and raises nothing: past return time session and phone are RETURNED, dated by the first such entry; before, they stay as they were |
| SyncEvents.PushStoresCrossingsAsCalled | apps/api/src/sync/sync.service.ts:309-313 | Whatever else the batch holds, each new crossing is stored as an exit if and only if the phone called it EXIT_DEPOT or AFTER_RETURN_EXIT |
| SyncEvents.SecurityExactly | apps/api/src/sync/sync.service.ts:447-492 | A security event is stored once; an alert of its own key is open after it if and only if it is one of the five critical kinds or one was open already |
| SyncEvents.ScanExactly | apps/api/src/sync/sync.service.ts:500-566 | A scan is stored once; if the session it names is open on the phone with a badge or driver no longer valid, that session ends for that reason, the phone is locked, an urgent lock for twelve hours is queued once, and an alert is open; otherwise nothing else changes |
| SyncEvents.PushStoresPlaces | apps/api/src/sync/sync.service.ts:175-222 | Each new position is stored with its phone, its coordinates and the session it names |
| SyncEvents.PushAlertsAreJustified | apps/api/src/sync/sync.service.ts:83-171 | Every alert a push adds is the company's, open, and has its cause in the batch; a simulated position, or an event ahead of the server by more than the tolerance, always leaves its alert open |
| SyncProofs.TreatedInOrder | apps/api/src/sync/sync.service.ts:96-101 | Security events first, then crossings, scans and positions, each by sequence number; equal numbers keep their order of arrival |
| SyncProofs.EveryEventIsAnsweredOnce | apps/api/src/sync/sync.service.ts:83-127 | The ids acknowledged, the ids rejected and those of positions without coordinates are, counted with multiplicity, exactly the ids of the batch |
| SyncProofs.AnsweredExactly | apps/api/src/sync/sync.service.ts:83-127 | With distinct ids: a position is acknowledged if and only if it has coordinates, any other event if and only if it does not fail, and rejected otherwise |
| SyncProofs.UnchangedExactly | apps/api/src/sync/sync.service.ts:265-284 | Handling an event changes nothing if and only if the state has absorbed it; a stored critical event still raises its alert again once that was closed |
| SyncProofs.ResolvedAlertIsRaisedAgain | apps/api/src/sync/sync.service.ts:447-492 | A root detection stored and alerted, its alert resolved: pushed again, it raises a second alert |
| SyncProofs.PushGrows | apps/api/src/sync/sync.service.ts:83-127 | A push loses no row and overwrites none, never opens a closed session, and never moves a last position back |
| SyncProofs.ReplayChangesNothing | apps/api/src/sync/sync.service.ts:83-127 | A batch pushed again, at once or after any pushes of this and other phones, with the same failures and the same badges and drivers active, leaves every table as it was |
| SyncReplays.ReplayOnlyRaises | apps/api/src/sync/sync.service.ts:83-127 | A batch pushed again after any scans, ends, expiries, executed commands, crossings, enrolments, revocations and pushes, whatever became of commands and alerts, can only raise alerts, with the same failures and the same badges and drivers active, and no session opened in between under an id the batch names: event rows, sessions, phones, commands, positions and last positions stay |
| SyncProofs.LastPositionIsTheLatest | apps/api/src/sync/sync.service.ts:233-260 | After any run of pushes served one after the other, a phone's last position is dated no earlier than any it reported with coordinates, and is one of those or the initial one (`SyncRaces` for pushes that overlap) |
| SyncProofs.SplitAndOrderDoNotMatter | apps/api/src/sync/sync.service.ts:233-260 | Two runs that report the same positions, whatever the batches and their order, date the last position alike |
| SyncRaces.AloneIsPositioned | apps/api/src/sync/sync.service.ts:233-260 | Without overlap, the write of the last position is that of the push |
| SyncRaces.MovesBackExactly | apps/api/src/sync/sync.service.ts:233-260 | In any run of pushes of a phone that overlap, one moves the last position back if and only if its latest is later than the one it read, and the last push to write since wrote a later one still |
| SyncRaces.MorningReplacesNoon | apps/api/src/sync/sync.service.ts:83-260 | A run where it does |
| SyncInvariants.PushKeepsSound | apps/api/src/sync/sync.service.ts:83-127 | Any push keeps the session invariant, one command per idempotency key and one open alert per deduplication key |
| Tenant.TenantClient.AllOperations | apps/api/src/prisma/tenant-extension.ts:79-157 | The interceptor, branch by branch: what it sends, what it refuses, and what the database then holds; a row is designated by the primary key of its model, the company itself for a retention policy |
| TenantCalls.WithoutACompanyNothingPasses | apps/api/src/prisma/tenant-extension.ts:91-97 | Whatever the database, the model of a company and the operation, a request without a company leaves the database as it was and is refused, with the same answer on any database |
| TenantCalls.UnfilteredExactly | apps/api/src/prisma/tenant-extension.ts:80-88 | Operations reach the database as they are, on every database, if and only if there is no request context, it is cross-tenant, or the model is shared |
| TenantCalls.BulkReachesWhatIsMeant | apps/api/src/prisma/tenant-extension.ts:101-103 | A request reads its company's rows that meet its conditions, in order, and changes or deletes exactly those |
| TenantCalls.OneRowIsWanted | apps/api/src/prisma/tenant-extension.ts:108-133 | An operation on one row by its id finds, changes or deletes the caller's row of that id that meets its conditions, and that row only |
| TenantCalls.NoRowIsWanted | apps/api/src/prisma/tenant-extension.ts:108-133 | Without such a row nothing is found, whatever rows other companies have, and an update or a delete is refused |
| TenantCalls.CreatedRowsAreOwn | apps/api/src/prisma/tenant-extension.ts:135-145 | Rows created come after the others and carry the caller's company, whether the data names it or not |
| TenantProofs.UniqueRowIsOwned | apps/api/src/prisma/tenant-extension.ts:117-133 | Once the ownership check has found a row, the condition sent on reaches the company's own rows only, unless the call strays: it names another company under a primary key that is the tenant column, and both conditions find a row |
| TenantIsolation.CreationCommutes | apps/api/src/prisma/tenant-extension.ts:163-189 | Creating the rows with the tenant column filled in and then keeping the company's own rows is keeping them first and creating then, when no other company uses the keys; the others' rows do not change in any case |
| TenantIsolation.IsolatedExactly | apps/api/src/prisma/tenant-extension.ts:79-157 | Every operation that renames no row, whatever conditions the caller wrote, leaves the other companies' rows as they were and, unless refused, answers and does what it would if they were not there: if and only if it neither strays nor gives an own row to another company |
| TenantIsolation.SimulatedExactly | apps/api/src/prisma/tenant-extension.ts:79-157 | An admissible operation of a company answers as the original one on that company's own database, does there what it would do there, and leaves every other row unchanged: if and only if it neither strays nor gives an own row away |
| TenantIsolation.CompanyUpdateStrays | apps/api/src/prisma/tenant-extension.ts:117-133 | Two companies: an update of B sent for A passes the check on A's own row and changes B's |
| TenantIsolation.PolicyDeleteStrays | apps/api/src/prisma/tenant-extension.ts:117-133 | Two retention policies: a delete of B's sent for A removes it |
| TenantIsolation.RunsLeaveOthers | apps/api/src/prisma/tenant-extension.ts:79-157 | Every run of operations that rename no row, none of which strays or gives an own row away, leaves every other company's rows unchanged, whatever conditions it writes |
| TenantIsolation.RunsSimulate | apps/api/src/prisma/tenant-extension.ts:79-157 | The simulation for every run of admissible operations that neither strays nor gives an own row away: same answers, same own rows, other companies untouched throughout |
| TenantIsolation.OverriddenConditionExactly | apps/api/src/prisma/tenant-extension.ts:69-72 | A tenant condition written by the caller is overridden: the selection is the one asked for, within the company, if and only if that condition alone drops no own row |
| TenantIsolation.OverriddenConditionFindsOwn | apps/api/src/prisma/tenant-extension.ts:69-72 | A company that asks for the rows of another is given its own |
| TenantIsolation.CreationRefusedExactly | apps/api/src/prisma/tenant-extension.ts:163-189 | A creation is refused, and nothing written, if and only if a row names another company, which the guard refuses, or a key is taken, which the database does: an id in use, or a second retention policy |
| TenantLimits.UpdateIsolatedExactly | apps/api/src/prisma/tenant-extension.ts:101-133 | An update that names no primary key and does not stray is isolated if and only if its data names no other company, or it reaches none of the caller's rows |
| TenantLimits.UpdateGivesARowAway | apps/api/src/prisma/tenant-extension.ts:101-103 | A bulk update that assigns company B to the rows of A passes, and B has one row more |
| TenantLimits.UnlistedReadExactly | apps/api/src/prisma/tenant-extension.ts:17-88 | On a model missing from the list, a read answers, whatever is made of the rows, as on the company's own if and only if it selects own rows only |
| TenantLimits.HistoryReadsEveryCompany | apps/api/src/screen-share/screen-share.service.ts:344-368 | The history of screen sharing without a phone: company A reads the session of company B |
| Apk.Reader.Uint32 | packages/provisioning-payload/src/apk.ts:69-74 | Reads four little-endian bytes inside the reader's range and moves on, or refuses and stays |
| Apk.Reader.Uint64 | packages/provisioning-payload/src/apk.ts:77-85 | Reads eight bytes, refuses a length beyond the safe integers, and ends in a range error if and only if it starts before the buffer |
| Apk.Reader.Slice | packages/provisioning-payload/src/apk.ts:95-100 | The sub-reader covers exactly the next bytes, inside its parent's range, which moves past them |
| Apk.CertificateFromSigners | packages/provisioning-payload/src/apk.ts:137-155 | The nested readers yield the first certificate of the first signer, or the reason there is none |
| Apk.FindEndOfCentralDirectory | packages/provisioning-payload/src/apk.ts:118-127 | The last end record that a comment of at most 65535 bytes can follow |
| Apk.ListV1SignatureEntries | packages/provisioning-payload/src/apk.ts:158-173 | The matching names among the central directory's entries, in order, whatever the bytes after them |
| Apk.IndexPairs | packages/provisioning-payload/src/apk.ts:220-227 | The map of readers holds the first pair of every id, each reader on the bytes of its value |
| Apk.ReadSigningCertificate | packages/provisioning-payload/src/apk.ts:176-239 | For every byte sequence the reading ends, all accesses in bounds, with the outcome the function of the bytes gives |
| ApkRoundTrip.ReadPrintedPairs | packages/provisioning-payload/src/apk.ts:220-227 | Reading printed pairs gives them back, first of each id, without a last one whose value is empty |
| ApkRoundTrip.ReadSigners | packages/provisioning-payload/src/apk.ts:137-155 | Reading a printed signer block gives the first certificate of the first signer, or the error for none |
| ApkRoundTrip.PickedScheme | packages/provisioning-payload/src/apk.ts:229-239 | The first pair of id 0x1b93ad61 is read as v3.1; without one, of 0xf05368c0 as v3; without either, of 0x7109871a as v2; without any of the three there is no known scheme |
| ApkRoundTrip.ReadPrintedArchive | packages/provisioning-payload/src/apk.ts:176-239 | Printing entries, pairs, directory and end record then reading gives what the pairs say, wherever the block lies |
| ApkRoundTrip.EndIsLastWithoutComment | packages/provisioning-payload/src/apk.ts:118-127 | An archive printed without a ZIP comment has no other end record after its own, so the round trip applies to it |
| ApkRoundTrip.CertificateRoundTrip | packages/provisioning-payload/src/apk.ts:176-239 | The whole round trip: the certificate of the newest scheme comes back, whatever the order of the pairs and the unknown pairs among them |
| ApkRoundTrip.RangeErrorExactly | packages/provisioning-payload/src/apk.ts:187-204 | Every file ends in a certificate or a `ProvisioningError`, except, exactly, a file whose magic matches and whose directory begins before byte 24 |
| ApkRoundTrip.MagicAloneIsARangeError | packages/provisioning-payload/src/apk.ts:187-204 | The magic followed by an end record is such a file |
| ApkFormat.NotAnArchiveExactly | packages/provisioning-payload/src/apk.ts:118-128 | A file is refused as not an archive if and only if no end record begins in its last 65557 bytes |
| ApkFormat.AcceptedIsWellFormed | packages/provisioning-payload/src/apk.ts:176-239 | A file gives a certificate only if a signing block ends where its last end record puts the central directory: the mark, and the same size on both sides of the pairs, which decide the certificate |
| ApkFormat.WellFormedIsRead | packages/provisioning-payload/src/apk.ts:176-239 | Every such file is read: its first bad pair refuses it, or the newest scheme of its pairs decides |
| ApkFormat.BlockRefusedExactly | packages/provisioning-payload/src/apk.ts:203-219 | A size that goes beyond the start of the file, two sizes that differ, a size too large for a number: which of them refuses the block |
| ApkFormat.BadPairIsRefused | packages/provisioning-payload/src/apk.ts:221-230 | Whatever pairs come before, one that says more than is left, or less than its id, refuses the block, for that reason |
| ApkFormat.WithoutABlockExactly | packages/provisioning-payload/src/apk.ts:157-201 | An archive printed without a signing block is refused as signed in v1 only, by the signature files of its directory in order, or as not signed when there is none |
| LittleEndian.FirstByteWeighsLeast | packages/provisioning-payload/src/apk.ts:69-85 | The integers read weigh each byte 256 times more than the one before |
| Csv.ParseDelimited | tools/provisioning/src/lib/csv.ts:63-107 | The character loop computes the table of the scanning function on every text |
| Csv.DetectDelimiter | tools/provisioning/src/lib/csv.ts:41-60 | The separator returned is the most frequent outside quotes, the earliest listed on a tie |
| FleetFile.ParseFleetCsv | tools/provisioning/src/lib/csv.ts:150-230 | On any text: a blank one is refused; it ends in a TypeError if and only if it is not blank and all its cells are; otherwise it succeeds if and only if every line after the header is acceptable and its tag new, with pairwise distinct tags, the unknown columns and the separator, and else names the header or the first bad line |
| FleetFile.NoTableExactly | tools/provisioning/src/lib/csv.ts:158-163 | The table left without blank lines is empty if and only if no cell of the text has anything but blanks |
| FleetFile.OneSemicolonIsATypeError | tools/provisioning/src/lib/csv.ts:158-163 | The file that is one semicolon is such a text |
| FleetColumns.MarkIsDropped | tools/provisioning/src/lib/csv.ts:150-152 | A byte order mark in front is dropped before the text is trimmed, and nothing else |
| FleetColumns.DelimiterExactly | tools/provisioning/src/lib/csv.ts:36-60 | The separator is the semicolon unless commas or tabs outside quotes outnumber it, then the comma unless tabs outnumber it |
| FleetColumns.RowOfALine | tools/provisioning/src/lib/csv.ts:184-225 | Each field of a phone is the last cell that is not blank under one of the names of that field, the tag and the mode in capitals |
| FleetColumns.AcceptableExactly | tools/provisioning/src/lib/csv.ts:186-222 | A line is acceptable by itself if and only if it has a tag of the right form, and no mode or one of the three |
| FleetColumns.ReportedExactly | tools/provisioning/src/lib/csv.ts:164-168 | The columns reported are the headers that announce no field, except the empty one and the two names every object has |
| FleetLines.NamedLineFindsTheRow | tools/provisioning/src/lib/csv.ts:158-184 | The number the reader gives a row is its place in the table without blank lines |
| FleetLines.NamedLineExactly | tools/provisioning/src/lib/csv.ts:32-33 | On any text, that number is at most the line of the file on which the row begins, and equal to it if and only if no line break was trimmed before the header, and no earlier row is blank or has a cell over several lines |
| FleetLines.EmptyLineShiftsTheNumber | tools/provisioning/src/lib/csv.ts:158-184 | A header, an empty line, a phone: line 2 is named, line 3 it is |
| CsvRoundTrip.RoundTrip | tools/provisioning/src/lib/csv.ts:63-107 | Every table of non-empty rows comes back exactly, with delimiters, quotes, CR and LF inside quoted fields, for any mixture of quoting and line ends |
| CsvRoundTrip.RoundTripUnterminated | tools/provisioning/src/lib/csv.ts:101-104 | The last line end may be missing if and only if the last line is not a single empty field |
| Tokens.TokenService.Refresh | apps/api/src/auth/admin-auth.service.ts:297-349 | The outcome and the table of a refresh: unknown, reuse with the family revoked, expired, inactive owner, or the token used and a successor issued |
| Tokens.TokenService.Issue | apps/api/src/auth/device-token.service.ts:33-63 | A new token continues the given family or begins its own |
| Tokens.TokenService.Logout | apps/api/src/auth/admin-auth.service.ts:351-362 | A logout with any token of a family, used or not, revokes the whole family; an unknown one changes nothing |
| Tokens.TokenService.RevokeAll | apps/api/src/auth/device-token.service.ts:110-115 | All tokens of the owners not yet revoked are, with the date; no other row changes |
| Tokens.AcceptedExactly | apps/api/src/auth/admin-auth.service.ts:297-349 | After any run, a refresh succeeds if and only if the token is the newest of its family, not revoked, not expired, its owner active; a family has one newest token |
| Tokens.RefusedExactly | apps/api/src/auth/admin-auth.service.ts:297-341 | After any run: which of the four refusals a token meets, in their order |
| Tokens.OneTokenAhead | apps/api/src/auth/admin-auth.service.ts:297-403 | In every reachable state each family holds exactly one token more than it has used |
| Tokens.AcceptedOnce | apps/api/src/auth/device-token.service.ts:66-108 | No run accepts the same token twice |
| Tokens.ClosedForGood | apps/api/src/auth/admin-auth.service.ts:309-362 | After a reuse, a logout or a revocation of the owner, no token of the family is accepted in any continuation |
| Tokens.TheftEndsTheChain | apps/api/src/auth/admin-auth.service.ts:309-330 | If an accepted token is presented again, every token of the chain it started is refused from then on |
| Races.ActsExactly | apps/api/src/auth/admin-auth.service.ts:300-348 | Of callers that read a row and later take it without looking again, in any interleaving, exactly those act that read before the first one writes |
| Races.TwoAct | apps/api/src/auth/admin-auth.service.ts:300-348 | Read, read, write, write: both act |
| Races.RefreshedTogetherExactly | apps/api/src/auth/admin-auth.service.ts:300-348 | Of any number of clients that present the same good token, in any interleaving, exactly those are accepted that read before the first one writes |
| Races.RotateKeepsFamiliesExactly | apps/api/src/auth/admin-auth.service.ts:343-348 | The writes of a refresh leave each family one unused token, the newest, if and only if the token was not used since it was checked |
| Races.RotateRevives | apps/api/src/auth/admin-auth.service.ts:343-348 | A family revoked between the checks and the writes lives on in the new token, and in no other |
| Races.RotateIsRefresh | apps/api/src/auth/admin-auth.service.ts:300-348 | The writes of a refresh whose checks have passed, made at once, are the refresh |
| Lockout.Account.Login | apps/api/src/auth/admin-auth.service.ts:68-102 | The verdict and the counters after one attempt |
| Lockout.RefusedExactly | apps/api/src/auth/admin-auth.service.ts:68-102 | An attempt is refused unchecked if and only if a failure that reached the threshold came less than the lock time before |
| Lockout.AdministratorRefusedExactly | apps/api/src/auth/admin-auth.service.ts:22-97 | With the constants in force: an attempt is refused unchecked if and only if it comes within a quarter of an hour of a wrong one that was at least the fifth since the last success |
| Lockout.WindowedLocksExactly | apps/api/src/auth/barcode-auth.service.ts:493-509 | With a count forgotten after a window, as for phones: a wrong attempt locks if and only if it is at least the threshold-th wrong one of the window it falls in |
| Lockout.GuessesAreRationed | apps/api/src/auth/admin-auth.service.ts:68-102 | For any threshold and lock time: however many wrong guesses are made one after the other, those checked beyond the threshold number at most one per lock time elapsed since the first (`LoginRaces` for guesses that overlap) |
| Lockout.PasswordGuesses | apps/api/src/auth/admin-auth.service.ts:22-23 | With the constants in force: five wrong passwords, then at most one checked for each quarter of an hour elapsed, for attempts made one after the other |
| Lockout.LockHolds | apps/api/src/auth/barcode-auth.service.ts:493-509 | Every attempt that follows a failure that reached the threshold within the lock time leaves the lock as it was (`LoginRaces` for attempts that overlap) |
| LoginRaces.WriteIsNextExactly | apps/api/src/auth/admin-auth.service.ts:41-105 | On an account not locked, a checked attempt writes what it would have written alone if and only if it succeeds or the count is still the one it read |
| LoginRaces.LockKeptExactly | apps/api/src/auth/admin-auth.service.ts:41-92 | On an account locked meanwhile, a wrong attempt keeps the lock if and only if the count it read was one short of the threshold, or more |
| LoginRaces.LateWriteClearsTheLock | apps/api/src/auth/admin-auth.service.ts:41-97 | A run where it does not: five guesses lock the account, a sixth that read it before them unlocks it |
| LoginRaces.WithoutOverlap | apps/api/src/auth/admin-auth.service.ts:41-105 | Attempts that do not overlap leave the account of the sequential theorems |
| LoginRaces.AllTogetherAreChecked | apps/api/src/auth/admin-auth.service.ts:41-97 | For every number of wrong guesses that read the account before any of them writes: all are checked, and the account is left with one failure and no lock |
| LoginRaces.OverlappingGuesses | apps/api/src/auth/admin-auth.service.ts:41-97 | For any run of guesses of which at most `overlap` finish while another is under way: those checked beyond `overlap + 1` times the threshold number at most `overlap + 1` per lock time elapsed |
| LoginRaces.OverlappingBurst | apps/api/src/auth/admin-auth.service.ts:41-97 | Within one lock time, at most `overlap + 1` times the threshold, plus `overlap`, are checked |
| LoginRaces.PhoneStaysLocked | apps/api/src/auth/barcode-auth.service.ts:493-509 | A phone increments in place: once locked, no attempt that overlaps, right or wrong, takes the lock away or shortens it |
| RateLimit.RateLimiter.IncrementWithTtl | apps/api/src/redis/redis.service.ts:39-46 | The window begins with its first call, is never prolonged, and other keys are untouched |
| RateLimit.RateLimiter.Consume | apps/api/src/redis/rate-limiter.service.ts:30-57 | The decision is the counter against the limit; the delay is what is left of the window to the nearest second, or a whole window when less than half a second is left |
| RateLimit.AllowedExactly | apps/api/src/redis/rate-limiter.service.ts:30-46 | A call is allowed if and only if it is among the first `limit` calls on its key since the one that opened the window, less than a window before |
| RateLimit.AtMostTwiceTheLimit | apps/api/src/redis/rate-limiter.service.ts:30-46 | Any interval of a window's length, wherever it begins, has at most twice the limit minus one allowed calls on a key |
| RateLimit.TheBoundIsReached | apps/api/src/redis/rate-limiter.service.ts:30-46 | For every limit some run of calls, the last ones just before and just after a window ends, has that many allowed within one window's length |
| RateLimit.SlidingExactly | apps/api/src/redis/redis.service.ts:35-46 | The promise of a sliding window, at most `limit` allowed calls in every interval of its length, holds of all runs if and only if the limit is zero or one |
| Notifications.QuietMinutesAreCyclic | apps/api/src/notifications/routing.ts:109-128 | Quiet hours are the minutes met going round the clock from their start before their end, across midnight or not |
| Notifications.RouteAlert | apps/api/src/notifications/routing.ts:136-201 | The loops send every channel either to the targets or to the suppressed with its reason, in the order of the configuration |
| AlertRouting.RefusalExactly | apps/api/src/notifications/routing.ts:163-174 | A channel refuses an alert below its threshold, HIGH when it has none, then one of a type it did not select |
| AlertRouting.RoutedExactly | apps/api/src/notifications/routing.ts:136-201 | The whole decision in the terms of the configuration: where an alert goes, in order, and why it does not go elsewhere |
| AlertRouting.SentExactly | apps/api/src/notifications/notifications.service.ts:85-154 | An alert is sent if and only if some target of its routing works, every alert of the company in the last hour counting against the ceiling |
| Notifications.NotificationService.Deliver | apps/api/src/notifications/notifications.service.ts:108-154 | It returns how many targets of the routing work, and the alert is marked notified if and only if one does |
| Notifications.DeliversExactly | apps/api/src/notifications/routing.ts:136-201 | An alert is sent if and only if some working channel accepts it and it is critical, or neither quiet hours nor the ceiling hold it back |
| Notifications.HourlyCeiling | apps/api/src/notifications/notifications.service.ts:85-154 | In any closed hour a company receives at most its ceiling of non-critical alerts, plus as many as can overlap one dispatch; without overlap, at most its ceiling |
| Notifications.OverlapGoesBeyondTheCeiling | apps/api/src/notifications/notifications.service.ts:85-154 | Two alerts dispatched together under a ceiling of one are both sent |
| ScreenShare.ScreenShareService.Request | apps/api/src/screen-share/screen-share.service.ts:94-168 | A request opens a session unless one is live and not overdue on that phone; an overdue one is closed first |
| ScreenShare.ScreenShareService.RecordConsent | apps/api/src/screen-share/screen-share.service.ts:177-223 | The answer counts if and only if the session is this phone's and still awaits one |
| ScreenShare.ScreenShareService.End | apps/api/src/screen-share/screen-share.service.ts:232-268 | Ending a finished session changes nothing and is no fault, except a reported capture failure |
| ScreenShare.ScreenShareService.RelayFrame | apps/api/src/screen-share/screen-share.service.ts:276-318 | A frame is relayed, numbered by the counter, if and only if the session is running, not overdue and the image small enough |
| ScreenShare.ScreenShareService.FindOngoing | apps/api/src/screen-share/screen-share.service.ts:375-406 | Looking up the live session of a phone closes it when its deadline has passed |
| ScreenShare.NextExactly | apps/api/src/screen-share/rules.ts:73-130 | Nine transitions and no other; on a finished session a stop or the deadline is ignored, anything else rejected |
| ScreenShare.CallExactly | apps/api/src/screen-share/screen-share.service.ts:94-406 | What each call makes of an existing session: the answer of its phone, a stop, an image, a look once it is overdue; any other call leaves it as it is |
| ScreenShare.RequestExactly | apps/api/src/screen-share/screen-share.service.ts:94-133 | A request opens a session, which awaits its answer for the response time, if and only if the phone is known and has none in time |
| ScreenShare.AtMostOneLive | apps/api/src/screen-share/screen-share.service.ts:94-168 | After any calls served one after the other, a phone has at most one session awaiting an answer or running (`ScreenShareRaces` for calls that overlap) |
| ScreenShare.EveryFrameIsConsentedTo | apps/api/src/screen-share/screen-share.service.ts:177-318 | Every image relayed in any run follows an agreement of that phone to that session by less than the maximum duration, and there is only one agreement |
| ScreenShare.CounterIsTheFrames | apps/api/src/screen-share/screen-share.service.ts:276-318 | A session's counter is the number of its images relayed |
| ScreenShare.OverForGood | apps/api/src/screen-share/rules.ts:73-130 | A finished session keeps its row and counter for ever and relays nothing more, whatever the calls that follow, served one after the other (`ScreenShareRaces` for calls that overlap) |
| ScreenShare.PendingExactly | apps/api/src/screen-share/screen-share.service.ts:94-268 | In any run a request is still pending if and only if no answer of its phone, stop other than the driver's, or look past its deadline, by itself or for a new request, came before |
| ScreenShare.ConsentExactly | apps/api/src/screen-share/screen-share.service.ts:177-197 | In any run an answer counts if and only if nothing of the kind settled the request before, deadline or not; the rules let it count only before the deadline too |
| ScreenShare.LateConsentStarts | apps/api/src/screen-share/screen-share.service.ts:177-197 | An acceptance a minute after the deadline starts a sharing that relays images |
| ScreenShareRaces.ReadThenWriteIsTheCall | apps/api/src/screen-share/screen-share.service.ts:94-318 | The reading of a request, an answer, a stop, a frame or a look followed at once by its writings is the whole call |
| ScreenShareRaces.EveryInterleaving | apps/api/src/screen-share/screen-share.service.ts:94-318 | Under any interleaving of readings and writings, a running session has a start and ends the maximum duration after it, and every writing finds the row it read, on the same phone |
| ScreenShareRaces.WriteKeepsOneLiveExactly | apps/api/src/screen-share/screen-share.service.ts:107-212 | A late writing keeps at most one live session per phone if and only if it is neither a creation nor the acceptance of a finished session on a phone that has a live one |
| ScreenShareRaces.OneLiveThroughoutExactly | apps/api/src/screen-share/screen-share.service.ts:94-318 | An interleaving keeps at most one live session per phone throughout if and only if all its writings are such |
| ScreenShareRaces.WriteFollowsExactly | apps/api/src/screen-share/screen-share.service.ts:183-305 | A late writing keeps finished sessions as they were and starts no running one again if and only if its session still awaits its answer, or runs and is not given another start, or already shows what is written |
| ScreenShareRaces.FollowsThroughoutExactly | apps/api/src/screen-share/screen-share.service.ts:94-318 | An interleaving keeps that history at every step if and only if all its writings do |
| ScreenShareRaces.CounterIsTheImages | apps/api/src/screen-share/screen-share.service.ts:302-305 | Under any interleaving, a session's counter is the number of its images relayed |
| ScreenShareRaces.EveryImageWasAccepted | apps/api/src/screen-share/screen-share.service.ts:183-305 | Under any interleaving, every image relayed was let through by a reading that came after an acceptance by that phone, by less than the maximum duration |
| ScreenShareRaces.RequestedTogetherExactly | apps/api/src/screen-share/screen-share.service.ts:107-133 | Of any number of requests on a phone without a live session, in any interleaving, exactly those open one that look before the first is created, and the phone then has as many live sessions |
| ScreenShareRaces.TwoRequestsLeaveTwoLive | apps/api/src/screen-share/screen-share.service.ts:107-133 | Look, look, create, create: two live sessions |
| ScreenShareRaces.LateAnswerReopens | apps/api/src/screen-share/screen-share.service.ts:183-258 | An acceptance that read the request before an administrator stopped it turns ENDED_BY_ADMIN into ACCEPTED, and images are let through |
| ScreenShareRaces.ImageAfterTheEnd | apps/api/src/screen-share/screen-share.service.ts:284-305 | Whatever the running session, an image read before a stop is relayed after it |
| Retention.MaintenanceJob.DropOldPartitions | apps/api/src/worker/maintenance.job.ts:190-220 | Exactly the positions of the partitions whose month ends by the cutoff go, with those partitions |
| Retention.MaintenanceJob.PurgeCompany | apps/api/src/worker/maintenance.job.ts:157-174 | Whichever rows each lot takes, the loop ends after n / 10000 + 1 statements with exactly the n overdue positions of the company gone |
| Retention.MaintenanceJob.PurgeStricter | apps/api/src/worker/maintenance.job.ts:143-188 | Exactly the overdue positions of the companies stricter than the maximum go, and the total is their number |
| Retention.MaintenanceJob.ApplyRetention | apps/api/src/worker/maintenance.job.ts:81-100 | A position survives the job if and only if neither step concerns it; without a policy nothing is deleted |
| Retention.KeptExactly | apps/api/src/worker/maintenance.job.ts:81-220 | A position of a company with a policy survives if and only if it is within that company's own retention, or the company has the longest one and the position is in the cutoff's month or in no month's partition |
| Retention.WithoutAPolicy | apps/api/src/worker/maintenance.job.ts:81-100 | A company without a policy keeps a position if and only if its month has no partition or ends after the longest retention of the others |

## Left out

- Schedule: malformed times, dates and zones (`ScheduleConfigError`) are excluded by the types.
- LockPlanner: the "not returned" alerts, the lock commands of expired sessions and the real-time messages of the same job.
- FleetServer: sessions closed from another phone leave that phone's state as it was, as in the code; it may then show a session that is over.
- Fleet: user suspension, badge assignment writes, scan rows and alerts of refused scans, and `markReturned`, which nothing calls.
- Sync: a device that does not exist, timestamps of validation and last contact, and server rows without an event id (clock, simulated position, crossing trace), which each push may add again.
- Sync: a push reads the clock once; the few readings of the code within one push are not told apart.
- Sync: an event that fails writes nothing; a failure half-way through an event is not modelled.
- Interleaving: the database's own isolation is one statement at a time; a crash between two statements is not modelled.
- Tenant: relations and nested writes, other unique constraints, cascades, and operations Prisma may add that the extension lets through unchanged.
- TenantIsolation: an update that changes the primary key of a row is outside every statement; a position, keyed by date and id, is designated by its id.
- Apk: the regular expression on v1 names and UTF-8 decoding are one predicate on bytes.
- ApkRoundTrip: a ZIP comment that itself contains an end record is outside the round trip.
- FleetFile: trimming, upper-casing, the removal of accents and the tag pattern are parameters.
- Tokens: secrets, hashes and access tokens, and the single-use sign-on code.
- Tokens, CommandRuns, FleetRuns, Lockout, ScreenShare and Sync serve calls one after the other; what overlapping changes is in `Races`, `FleetRaces`, `LoginRaces`, `ScreenShareRaces` and `SyncRaces`.
- FleetRaces: a scan, an enrolment, a revocation or a reported result is one step, its checks included; of two scans that collide on the unique indexes of open sessions, one fails and is no step.
- GuessesAreRationed: stated for a count that lasts until a success (administrators); for phones, whose count is forgotten after an hour, `RefusedExactly` and `WindowedLocksExactly` are.
- Lockout: password hashing and the alert that goes with a phone's lock-out.
- RateLimiter: Redis being unreachable, where calls are let through; a key counts as gone from its deadline on.
- Notifications: the text of messages and the transports, which are one predicate on targets.
- ScreenShareService: the command sent to the phone, the audit trail, and reading one session or the history.
- Retention: the purge of crossings, security events and scans, one `deleteMany` each; creation of partitions; the Gregorian calendar, of which only the order of months is used.
- Not modelled at all: controllers, the dashboard, push and mail transports, cryptography, QR and PDF output, ADB, geometry of positions, settings cascade, and the Android application.
