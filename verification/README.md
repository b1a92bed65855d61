# A verified model of the storage platform's core

This project models the protocol, calendar, access and money logic under `packages/core` and proves
what that logic keeps. `dafny verify dfyconfig.toml` checks all of it.

Conventions. Money is integer cents. A date is a whole day counted from 1970-01-01, an instant is a
UTC millisecond. A database table is a map with a unique key, and each database call is one atomic
step. Code that updates state step by step is a method, or a class with a method per operation,
specified by a function; the theorems are lemmas about that function. Expressions are functions.

## What is modelled

- **Event delivery** (`Events`, `EventTiming`, `Dispatcher`). Any number of dispatchers list, read,
  claim, handle, settle, stop or die in any interleaving. What holds of every interleaving is proved
  first: one owner per delivery, attempts in 1..5, settled rows untouched for ever. The attempt count
  is written from an earlier read, so the number of handler calls is the stored count plus what stale
  claims lost, in every interleaving: a delivery is handled at most five times iff the two stay within
  five, and with stale claims it can be handled any number of times. The claim does not look at
  `nextAttemptAt` either, so retries wait out their backoff iff no winning claim came early.
  `Dispatcher.EventStore` is the imperative code for one dispatcher, and a whole tick
  of it is proved to be a run of the transition system.
- **Jobs** (`Jobs`, `CatchUp`). The run row and its unique key, with crashing workers; and the
  catch-up of missed dates over many ticks.
- **Codecs and reconciliation** (`Base32`, `Totp`, `Fingerprint`, `Reconciliation`). Base32 with the 32-bit accumulator that is never
  masked (section 6 of RFC 4648), HOTP and TOTP with the replay guard (section 5.3 of RFC 4226,
  section 5.2 of RFC 6238), the sorted-key printer used as an equality fingerprint, and the comparison
  of expected with actual gate state that uses it.
- **Time** (`Calendar`, `ZonedTime`, `WeeklySchedule`, `BusinessHours`). The Gregorian calendar, local
  midnight over an arbitrary offset function, weekly hours and their intersection, and the skipping
  loop that counts open minutes.
- **Delinquency** (`Delinquency`, `Holds`). The ladder as a night-by-night machine over any nights
  whatever, and the lien clock as the size of a union of day intervals.
- **Billing** (`Allocation`, `Receipts`, `Periods`, `Proration`, `Invoices`, `Ledger`, `Statements`,
  `Journal`, `Waterfall`).

`Wrappers`, `Decimals` and `Sorting` are shared: options and results, decimal text, and the stable sort
behind `Array.prototype.sort`.

## Where the code and its documentation differ

The model follows the code; each difference is a lemma.

- The repository's `README.md:408` and `packages/core/events/dispatch.ts:100` say a delivery whose worker dies after
  the handler is called again. A row left `processing` is never listed and never claimed, so it is
  never handled again (`Events.CrashedDeliveryIsNeverRunAgain`).
- `packages/core/billing/ledger.ts:67` says the open items sum exactly to the balance. They do just
  when the last balance that was not positive was zero (or there was none); after a credit they list
  too much (`Ledger.OpenItemsAreTheBalanceIffLastSquare`, `Ledger.CreditThenChargeListsTooMuch`).
- `packages/core/access/gate-hours.ts:155` calls a week of 00:00-23:59 open at every minute. It shuts
  for the last minute of each day, as every weekly schedule must
  (`WeeklySchedule.AlwaysOpenShutsForTheLastMinute`).
- `packages/core/jobs/schedule.ts:200` calls `zonedMidnight` the inverse of `businessDateFor`. On a
  date whose midnight the clocks skip, a zone that changes after midnight UTC gets an instant on an
  earlier date (`ZonedTime.SkippedMidnight`).
- `packages/core/billing/statements.ts:147` says local midnight at both ends puts a payment in its own
  month. It does iff both edges are clean; where the clocks go back across midnight of the first,
  the time before it comes twice and no single instant parts the two months
  (`ZonedTime.WindowHoldsTheLocalMonthIffEdgesAreClean`, `ZonedTime.ChangeAcrossMidnightIsNotClean`).
- `packages/core/billing/allocation.ts:62` says the result is stable for a given input. It follows the
  order the targets arrive in when two categories are missing from the facility's order and, given one target
  per invoice and category, only then
  (`Allocation.SettlesIffAtMostOneMissing`, `Allocation.TwoMissingCategoriesFollowInputOrder`).
- `packages/core/billing/periods.ts:36` says the anniversary policy makes the move-in payment a full
  period. It does unless the lease starts on the 29th, 30th or 31st
  (`Periods.MoveInStartsAPeriodIffTheDayExistsEveryMonth`).
- `packages/core/billing/proration.ts:98` returns a day range with the refund. It has as many days as
  the refund only when the used days start with the period (`Proration.UsedPlusUnusedIsTheMonth`).

## Model

| member | source | states |
|---|---|---|
| Events.BackoffLadder | packages/core/events/dispatch.ts:20-24 | the retry delays are 1, 5, 25, 60 and 60 minutes |
| Events.EveryRunIsSafe | packages/core/events/dispatch.ts:65-175 | after any steps of any workers: one owner per delivery, handler attempts 1..5, `failed` rows at 1..4, `dead_letter` only at 5, the stored count is that of the last handler call, and the row constraint on `completedAt` and `nextAttemptAt` holds |
| Events.SettlingRecordsHowItEnded | packages/core/events/dispatch.ts:140-168 | in every run, settling leaves the row `succeeded` if the handler returned; if it threw, `failed` and due its backoff later before the fifth attempt, `dead_letter` at the fifth; the log agrees and no other row changes |
| Events.ListedIffNewOrDue | packages/core/events/dispatch.ts:42-55 | in every run a key may be listed iff it has no row, or a failed row whose `nextAttemptAt` has passed |
| Events.SettledIsFinal | packages/core/events/dispatch.ts:39-63 | once `succeeded` or `dead_letter`, a row never changes and its handler is never started again, whatever follows |
| Events.CrashedDeliveryIsNeverRunAgain | packages/core/events/dispatch.ts:85-92 | if the worker inside the handler dies, the row stays `processing`, is never listed again and the handler never runs for it again |
| Events.AttemptsCountRunsIffNeverStale | packages/core/events/dispatch.ts:69-95 | the k-th handler call of every delivery is told attempt k iff no winning re-claim wrote from an out-of-date count |
| Events.RunsAreAttemptsPlusLag | packages/core/events/dispatch.ts:69-95 | in every interleaving the handler has been called as often as the row's attempts say, plus what winning claims with an out-of-date count lost |
| Events.AtMostFiveRuns | packages/core/events/dispatch.ts:147-164 | so a delivery is handled at most five times iff stored attempts plus that loss are at most five; with no stale claim they always are, and the row counts the calls |
| Events.UnsplitClaimsAreNeverStale | packages/core/events/dispatch.ts:69-95 | if no other worker writes a row between a claim's read and its write, no claim is ever stale |
| EventTiming.RetriesWaitIffNeverEarly | packages/core/events/dispatch.ts:85-92 | in every interleaving, every handler call after a failure of its delivery comes at least that attempt's backoff later iff no winning re-claim came before the row's `nextAttemptAt` |
| EventTiming.OneDispatcherWaits | packages/core/events/dispatch.ts:156-164 | so with one dispatcher, whose claims are never early, retries wait |
| EventTiming.OneDispatcherRunsAtMostFive | packages/core/events/dispatch.ts:111-175 | with one dispatcher, attempts are 1, 2, 3, ... and at most five |
| EventTiming.StaleClaimsRunWithoutBound | packages/core/events/dispatch.ts:69-91 | for every n there is an interleaving of n + 1 handler calls for one delivery, which is still only `failed` |
| EventTiming.TwoDispatchersCanRetryAtOnce | packages/core/events/dispatch.ts:85-92 | with two dispatchers a retry need not wait: the re-claim does not look at `nextAttemptAt` |
| Dispatcher.PendingEventsFor | packages/core/events/dispatch.ts:35-60 | the oldest `limit` of the events this consumer wants and has not settled or is not waiting on, in order |
| Dispatcher.ListingIsDistinct | packages/core/events/dispatch.ts:35-60 | no event is listed twice |
| Dispatcher.EventStore.Claim | packages/core/events/dispatch.ts:65-96 | what the claim returns and the row it leaves; a refused claim changes nothing |
| Dispatcher.EventStore.SettleDelivery | packages/core/events/dispatch.ts:140-168 | the row a success, a failure and an exhausted failure leave, field by field, and the record of it |
| Dispatcher.EventStore.DispatchEvents | packages/core/events/dispatch.ts:111-175 | the whole new state of the table, counters that equal what the deliveries did, and as many counted succeeded as listed deliveries whose handler succeeds |
| Dispatcher.BatchEnds | packages/core/events/dispatch.ts:121-172 | every delivery of a listed batch is handled once, on its next attempt, and its row says how the handler ended |
| Dispatcher.ListedDeliveryEnds | packages/core/events/dispatch.ts:118-175 | over a whole tick, a listed delivery whose handler succeeds is `succeeded` when the tick ends, and one whose fifth attempt fails is dead |
| Dispatcher.FinalForGood | packages/core/events/dispatch.ts:35-60 | after which no later tick lists it or changes its row |
| Dispatcher.NewOrDueIsListed | packages/core/events/dispatch.ts:35-60 | an event the consumer wants, new to it or failed and due, is listed |
| Dispatcher.OnlyWantedIsListed | packages/core/events/dispatch.ts:35-60 | and nothing else: only events of the outbox the consumer subscribes to, in the facility asked for, new or due |
| Dispatcher.TickCountsSuccesses | packages/core/events/dispatch.ts:116-144 | a tick records as succeeded exactly the listed deliveries whose handler succeeds |
| Dispatcher.TickIsARun | packages/core/events/dispatch.ts:111-175 | the state a tick leaves is reached by one worker's steps in the transition system |
| Dispatcher.TickKeepsInvariant | packages/core/events/dispatch.ts:111-175 | so ticks keep the one-dispatcher invariant the timing results rest on, and keep retries waiting |
| Jobs.RunsAtMostOnce | packages/core/jobs/runner.ts:38-122 | in any interleaving, crashes included, at most one handler run ever starts per job, facility and date, even if it fails; a finished row's counts equal the items reported, and unless the handler threw it is `partial` iff an item failed |
| Jobs.FinishRecordsHowItEnded | packages/core/jobs/runner.ts:79-121 | a run is `failed` iff the handler threw, else `partial` iff an item failed, else `succeeded`; its row has the counts and no other row changes |
| Jobs.NeverStartsAgain | packages/core/jobs/runner.ts:44-54 | a key that has a row never starts again |
| Jobs.JobStore.RunJob | packages/core/jobs/runner.ts:38-122 | an existing row is returned untouched; otherwise the row, the run and the reported items it leaves |
| Jobs.RunTrace | packages/core/jobs/runner.ts:38-122 | that outcome is reached by one worker's steps in the transition system |
| CatchUp.MissedBusinessDates | packages/core/jobs/schedule.ts:144-168 | the dates after the last completed one up to the target or the cap, consecutive; the target alone when there was none |
| CatchUp.TickShrinksGap | packages/core/jobs/schedule.ts:144-168 | each tick closes the gap by the smaller of the gap and the cap |
| CatchUp.CatchUpLeavesNoGap | packages/core/jobs/schedule.ts:144-168 | over any sequence of ticks, each fed the last date of the one before, every date comes once and in order |
| CatchUp.CatchUpReachesTarget | packages/core/jobs/schedule.ts:144-168 | n ticks at one target give exactly the dates up to it, or the first n times the cap |
| Base32.ShiftInAppends | packages/core/auth/totp.ts:26-30 | although the accumulator wraps at 32 bits, shifting in a byte or a symbol appends its bits to the pending ones |
| Base32.Encode | packages/core/auth/totp.ts:21-40 | the text spells the input's bits, padded with fewer than five zeros, and has ceil(8n / 5) characters |
| Base32.Decode | packages/core/auth/totp.ts:42-62 | the bytes are the whole octets of the cleaned text's bits; the error names its first character outside the alphabet |
| Base32.StripSplits | packages/core/auth/totp.ts:43 | stripping works part by part, so every character is dropped or kept in place on its own |
| Base32.StripOne | packages/core/auth/totp.ts:43 | and what is dropped is white space and the hyphen |
| Base32.StripPaddingDropsTheTail | packages/core/auth/totp.ts:43 | the `=` signs at the end go, all of them and nothing else |
| Base32.DecodableIffAlphabet | packages/core/auth/totp.ts:50-52 | a cleaned text decodes iff every character is in the alphabet |
| Base32.RoundTrip | packages/core/auth/totp.ts:21-62 | decoding what was encoded gives the bytes back, for every byte sequence, and the length is ceil(8n / 5) |
| Base32.DecodeWhatWasEncoded | packages/core/auth/totp.ts:21-62 | encoding and then decoding, through any spacing, padding or lower case the clean-up removes, gives the bytes back |
| Base32.ReencodeIffCanonical | packages/core/auth/totp.ts:42-62 | re-encoding a decoded text gives it back iff its left-over bits are fewer than five and zero |
| Totp.CounterIsExact | packages/core/auth/totp.ts:68-75 | the eight bytes hashed read big-endian as the counter, for every counter below 2^53 |
| Totp.WriteUInt32BE | packages/core/auth/totp.ts:72-73 | four bytes of the buffer are written, most significant first, and no others |
| Totp.Hotp | packages/core/auth/totp.ts:68-88 | the code returned is `digits` decimal digits spelling the four bytes at the offset the last nibble names, big-endian, without the top bit, modulo 10^digits (section 5.3 of RFC 4226) |
| Totp.HotpIsExactDigits | packages/core/auth/totp.ts:78-88 | the same of the function the verification compares with |
| Totp.TotpStepIsThePeriod | packages/core/auth/totp.ts:91-93 | the step is the whole number of periods since the epoch |
| Totp.VerifyTotp | packages/core/auth/totp.ts:116-144 | malformed, replayed, accepted or no match, as the code, the window and the last step say |
| Totp.VerdictIsUnique | packages/core/auth/totp.ts:116-144 | and they never leave two answers |
| Totp.NoStepIsAcceptedTwice | packages/core/auth/totp.ts:116-144 | over any submissions with the accepted step persisted, for any MAC, accepted steps strictly increase and each is within the window of its clock |
| Fingerprint.PrintedValuesArePrefixFree | packages/core/access/reconciliation.ts:220-228 | the printed form is uniquely decodable: equal texts come from equal values |
| Fingerprint.SameValuesPrintAlike | packages/core/access/reconciliation.ts:220-228 | values equal up to key order and undefined members print alike |
| Fingerprint.FingerprintIsFaithful | packages/core/access/reconciliation.ts:211-228 | equal fingerprints iff both exempt, or neither is and the schedules are both unset or equal up to key order and undefined members |
| Fingerprint.NoFingerprintIffUnset | packages/core/access/reconciliation.ts:211-218 | a fingerprint is null iff not exempt and unset, and the exempt one iff exempt |
| Reconciliation.DiffControllerState | packages/core/access/reconciliation.ts:96-184 | the loops report `Diff`, of which the rows below speak |
| Reconciliation.HeldIsTheLastRow | packages/core/access/reconciliation.ts:101-104 | the row compared for a credential is the last one that names it |
| Reconciliation.WhichDrifts | packages/core/access/reconciliation.ts:122-180 | for an expectation, which kinds of drift are reported and when, with whose ids and whether as too permissive |
| Reconciliation.WhichUnknowns | packages/core/access/reconciliation.ts:103-117 | an unnamed row is reported as unknown, under the controller's own id |
| Reconciliation.NoDriftIffTheyAgree | packages/core/access/reconciliation.ts:96-184 | nothing is reported iff every row names a credential and each expected credential agrees with its row, an unreadable code counting as agreeing |
| Reconciliation.AlarmIff | packages/core/access/reconciliation.ts:105-180 | a drift says the gate is too permissive iff an unnamed row opens it, or a credential's row opens when it should not or has no window where one was pushed |
| Reconciliation.NoAlarmMeansWhatOpensMay | packages/core/access/reconciliation.ts:96-184 | with no such drift, a compared row that opens the gate is one every expectation of it lets open, in a window where one is wanted |
| Reconciliation.RowsNotComparedDoNotMatter | packages/core/access/reconciliation.ts:96-184 | a row is compared if it is unnamed, or the last for an expected credential; any other row leaves the report as it would be without it |
| Calendar.YearsStartInClosedForm | packages/core/billing/periods.ts:29-31 | walking the months agrees with 365 days a year plus the leap days, in every year |
| Calendar.FourCenturies | packages/core/billing/periods.ts:29-31 | any 400 years are 146097 days |
| Calendar.MonthLengths | packages/core/billing/periods.ts:29-31 | the lengths of the twelve months, and the leap rule |
| Calendar.MonthOfIsUnique | packages/core/billing/periods.ts:55-56 | a day's year and month are those of the one month it falls in |
| ZonedTime.ZonedMidnightIsMidnightIffThereIsOne | packages/core/jobs/schedule.ts:211-222 | with at most one change near the date, the result reads local midnight on it iff the date has one |
| ZonedTime.MidnightMapsBackToItsDate | packages/core/jobs/schedule.ts:30-36 | so `businessDateFor` maps it back to the date |
| ZonedTime.BusinessDateIsTheLocalDay | packages/core/jobs/schedule.ts:30-33 | the business date is the day the wall clock is on |
| ZonedTime.SkippedMidnight | packages/core/jobs/schedule.ts:211-222 | when midnight is skipped, the date the result falls on, whole skipped days included: the date itself or later iff the clocks had changed by midnight UTC, else an earlier one |
| ZonedTime.MonthWindowsTileTime | packages/core/billing/statements.ts:150-160 | for every offset function every instant is in exactly one month window |
| ZonedTime.EdgeSeparatesIffClean | packages/core/billing/statements.ts:150-160 | with one change near it, a month's edge parts the instants by local date iff the clock before and after the change put midnight on the same side of it, or midnight is the change and the first offset measured is the right one |
| ZonedTime.WindowHoldsTheLocalMonthIffEdgesAreClean | packages/core/billing/statements.ts:150-160 | a window holds exactly the instants whose local date is in the month iff both its edges are so |
| ZonedTime.ChangeAcrossMidnightIsNotClean | packages/core/billing/statements.ts:150-160 | which fails where the clocks go back an hour at half past midnight of the first |
| WeeklySchedule.StringOrderIsMinuteOrder | packages/core/facility-settings/weekly-schedule.ts:23-37 | on valid HH:MM strings, string order is minute order |
| WeeklySchedule.ValidTimesAreTimes | packages/core/facility-settings/weekly-schedule.ts:23 | the pattern takes exactly the texts of the 1440 times of day, each read as its minute |
| WeeklySchedule.TimesAreValid | packages/core/facility-settings/weekly-schedule.ts:23 | and every one of them |
| WeeklySchedule.WhatTheGateDecides | packages/core/access/gate-hours.ts:109-130 | open, closed today, or outside hours with the day's own opening and close, and when each |
| WeeklySchedule.ParseWeek | packages/core/facility-settings/weekly-schedule.ts:42-49 | what parses is a valid week with the days stored, and what does not has a day that no valid schedule describes |
| WeeklySchedule.WeekRoundTrip | packages/core/facility-settings/weekly-schedule.ts:42-49 | a valid week written as JSON parses back to itself |
| WeeklySchedule.NarrowingIsIntersection | packages/core/access/gate-hours.ts:181-204 | at every reading the narrowed schedule admits iff both do, null meaning no restriction, and it is valid |
| WeeklySchedule.GrantNeverWidens | packages/core/access/gate-hours.ts:226-231 | whatever a person's stored hours are, a grant admits only when the facility does |
| WeeklySchedule.AlwaysOpenShutsForTheLastMinute | packages/core/access/gate-hours.ts:161-167 | no weekly schedule admits at 23:59 |
| WeeklySchedule.AlwaysOpenIffAllButTheLastMinute | packages/core/access/gate-hours.ts:155-167 | a valid week is "always open" iff it admits at every minute but the last of each day |
| BusinessHours.ReadingIsTheLocalDate | packages/core/access/gate-hours.ts:70-86 | an instant reads as the weekday of its local date, counted day by day from Thursday, 1 January 1970, and the minutes since its midnight |
| BusinessHours.ClockTicks | packages/core/access/gate-hours.ts:70-86 | minutes count up through the day, and the next day of the week begins at midnight |
| BusinessHours.NewYear2000WasASaturday | packages/core/access/gate-hours.ts:70-86 | a dated fact through the calendar: local 1 January 2000 is a Saturday |
| BusinessHours.OpenMinutesAreGateMinutes | packages/core/access/business-hours.ts:28-86 | the minutes counted are those at which the gate decision is open |
| BusinessHours.Advance | packages/core/access/business-hours.ts:46-82 | each jump moves forward, to the opening, the close, midnight or the end of the span, and counts exactly the open minutes it passes |
| BusinessHours.BusinessMinutesBetween | packages/core/access/business-hours.ts:28-86 | for every span the loop counts the open minutes up to its end, or to a stop that depends on the schedule and the start only |
| BusinessHours.CountedIsExactFor400Days | packages/core/access/business-hours.ts:41-44 | up to 400 days that is every open minute of the span; beyond, never more, and at least those of the first 400 days |
| BusinessHours.BusinessMinutesSplit | packages/core/access/business-hours.ts:28-86 | the count is additive over a span cut at a whole minute |
| BusinessHours.IsOverdue | packages/core/access/business-hours.ts:94-106 | the verdict on the program's count, for every span |
| BusinessHours.VerdictIsExactFor400Days | packages/core/access/business-hours.ts:94-106 | up to 400 days it is that of the exact count; beyond, no false alarm, and what was overdue at 400 days is reported |
| BusinessHours.OverdueIsMonotone | packages/core/access/business-hours.ts:94-106 | the program's verdict, once given, is never taken back as time passes, however long the span; nor is the exact count's |
| BusinessHours.NeverOpensNeverOverdue | packages/core/access/business-hours.ts:108-113 | a facility closed all week is never overdue |
| Delinquency.OrderedStepsClimb | packages/core/delinquency/timeline.ts:194-196 | steps on distinct days sort strictly upward, none lost |
| Delinquency.DuplicateDays | packages/core/delinquency/timeline.ts:134-145 | every step on a day already taken is reported, once and in order, with the first step on that day |
| Delinquency.OneNight | packages/core/delinquency/engine.ts:61-89 | a night performs the next rung and nothing else, exactly when there is no hold, money is owed, the lease runs, no reversal is waited for, nothing ran on its date and the rung's day has come |
| Delinquency.ReasonReported | packages/core/delinquency/engine.ts:61-66 | which reason is reported: no timeline, then a hold, then cured, before moved out, before the grace |
| Delinquency.NextRungIsAdded | packages/core/delinquency/engine.ts:68-88 | after any nights, one with none of those, a new date and a due rung adds exactly that rung |
| Delinquency.ExecutedStepsArePrefix | packages/core/delinquency/engine.ts:61-89 | over any nights the executed steps are a prefix of the ordered ladder, one per business date at most |
| Delinquency.HaltedNightAddsNothing | packages/core/delinquency/engine.ts:61-66 | after any nights, one with a hold, nothing owed, an ended lease or a reversal to wait for adds nothing; and the executed days strictly ascend |
| Delinquency.DueStepsTakeOneNightEach | packages/core/delinquency/engine.ts:73-88 | n due steps and no halts take exactly n nights |
| Delinquency.StageIsLastExecuted | packages/core/delinquency/engine.ts:91-98 | the current stage is the last step executed |
| Holds.KindsByEffect | packages/core/holds/catalog.ts:68-162 | which kinds of hold have each effect |
| Holds.OnlyAnEmergencyPausesTheClock | packages/core/holds/catalog.ts:68-162 | of the kinds in the catalog only the emergency hold pauses the clock |
| Holds.CoversUpToEitherEnd | packages/core/holds/catalog.ts:223-226 | a pausing hold covers the days from its start up to its end date and its lift, whichever is there |
| Holds.PausedDays | packages/core/holds/catalog.ts:217-231 | the size of the set is the number of days of the window on which some pausing hold ran |
| Holds.CountIgnoresOrder | packages/core/holds/catalog.ts:212-231 | order and repetition of holds do not matter; an overlap counts once |
| Holds.CountSplits | packages/core/holds/catalog.ts:217-231 | the count is additive over adjacent windows |
| Holds.ClockNeverJumps | packages/core/holds/catalog.ts:212-216 | elapsed days less paused days never fall, rise by at most the days that passed, and stand still while every day is paused |
| Holds.LiftingLaterChangesNothing | packages/core/holds/catalog.ts:212-216 | lifting a hold at or after `to` leaves the count up to `to` as it was |
| Holds.DateInsidePausedWindow | packages/core/holds/catalog.ts:233-237 | true iff a pausing hold ran on the deadline's day |
| Allocation.AllocatePayment | packages/core/billing/allocation.ts:66-98 | the loop computes `Allocate`, of which the rows below speak |
| Allocation.QueueIsInOrder | packages/core/billing/allocation.ts:73-85 | the queue is every positive claim once, by category rank, due date and invoice |
| Allocation.EarlierInTheQueue | packages/core/billing/allocation.ts:73-85 | of two claims the earlier one's category comes first in the facility's order, one left out coming last, then the older due date, then the invoice id |
| Allocation.AllocationIsFair | packages/core/billing/allocation.ts:87-97 | lines plus unapplied is the payment, no claim gets more than it asks or a cent while an earlier one is short, and money is left only when all are paid |
| Allocation.PayClosedForm | packages/core/billing/allocation.ts:90-95 | each claim gets what is left after the claims before it, up to what it asks |
| Allocation.AllocationIgnoresInputOrder | packages/core/billing/allocation.ts:60-65 | with one target per invoice and category and an order that tells categories apart, arrival order is irrelevant |
| Allocation.SettlesIffAtMostOneMissing | packages/core/billing/allocation.ts:73-81 | an order tells categories apart iff it leaves out at most one |
| Allocation.TwoMissingCategoriesFollowInputOrder | packages/core/billing/allocation.ts:76-81 | with two left out, the first target listed is paid |
| Allocation.TwoPaymentsAreOne | packages/core/billing/allocation.ts:66-98 | paying a, then b on the reduced claims, pays every invoice and category, and leaves over, what a + b at once does |
| Receipts.ByInvoice | packages/core/billing/allocation.ts:103-109 | one row per invoice in order of appearance, and the rows come to the lines |
| Receipts.InvoicesAreThoseOnLines | packages/core/billing/allocation.ts:103-109 | the invoices listed are those on the lines, each once |
| Receipts.DescribeAllocation | packages/core/billing/allocation.ts:116-130 | the categories with money on them, in the fixed order, with their sums |
| Receipts.WhichCategories | packages/core/billing/allocation.ts:123-129 | a category is shown iff money went to it, with all that did |
| Receipts.CategoryRowsKeepTheSum | packages/core/billing/allocation.ts:127-129 | the rows come to the lines iff no category is negative |
| Receipts.ReceiptsKeepThePayment | packages/core/billing/allocation.ts:66-130 | for every allocation both receipts come to the payment less what was not applied |
| Periods.PeriodsTileTheCalendar | packages/core/billing/periods.ts:49-63 | every date is in its period, which has 28 to 31 days, and two dates share one exactly when either is in the other's |
| Periods.PeriodStartsOnItsDay | packages/core/billing/periods.ts:49-63 | a period starts on the billing day kept within 1..28, or on the first under that policy |
| Periods.LeaseBillsOnItsDay | packages/core/billing/periods.ts:39-42 | so a lease bills on its move-in day, on the 28th if that is later, or on the first by policy |
| Periods.NextPeriodFollows | packages/core/billing/periods.ts:67-73 | the next period is the one the day after falls in |
| Periods.MoveInStartsAPeriodIffTheDayExistsEveryMonth | packages/core/billing/periods.ts:34-42 | a lease's first period starts on its first day iff that is not a 29th, 30th or 31st |
| Periods.PeriodStartsBetween | packages/core/billing/periods.ts:89-108 | the consecutive periods after the one `after` is in, as many as start by `through`, up to the cap |
| Periods.ListedIffItStartsInTheWindow | packages/core/billing/periods.ts:82-88 | unless the cap cuts in, a period is listed iff it starts in (after, through] |
| Proration.RoundHalfUpRounds | packages/core/billing/proration.ts:20-27 | rounding gives the nearest whole number, halves away from zero |
| Proration.RoundedIsUnique | packages/core/billing/proration.ts:20-27 | which is one number |
| Proration.ProratedAmountIsTheNearestShare | packages/core/billing/proration.ts:61-89 | a part of a period costs its share by days to the nearest cent, a whole one exactly the monthly amount |
| Proration.ClampedRangeIsTheOverlap | packages/core/billing/proration.ts:65-72 | the days charged are those of the range inside the period |
| Proration.EachDayIsChargedOnce | packages/core/billing/proration.ts:54-72 | prorating a range over the billing periods it spans charges each day once |
| Proration.CuttingCostsAtMostHalfACentAPiece | packages/core/billing/proration.ts:61-89 | cutting a period into n pieces changes the total by at most n / 2 cents |
| Proration.HalvesCostACentMore | packages/core/billing/proration.ts:82-88 | and that bound is met by every odd rent cut in the middle |
| Proration.UsedPlusUnusedIsTheMonth | packages/core/billing/proration.ts:91-107 | used and unused come to the month exactly, and the refund's range has its days iff the used range starts the period |
| Invoices.BuildInvoice | packages/core/billing/invoice-lines.ts:100-206 | the loops compute `Built`: lines, and totals in closed form |
| Invoices.ChargeLinesSplit | packages/core/billing/invoice-lines.ts:110-131 | charges get their lines one by one, in order |
| Invoices.LineOfACharge | packages/core/billing/invoice-lines.ts:110-131 | one line with what the charge bills, and none for a rate of nothing or for nothing over no days |
| Invoices.NoEmptyLines | packages/core/billing/invoice-lines.ts:159-197 | no discount or tax line is empty, and discounts are shown positive |
| Invoices.TakeDiscounts | packages/core/billing/invoice-lines.ts:159-176 | capping each discount by what the ones before it left takes min(subtotal, sum requested) off, a line for each |
| Invoices.LinesAddUpToTheTotal | packages/core/billing/invoice-lines.ts:199-205 | the lines, discounts counted negative, sum to the total |
| Invoices.InvoiceIsNeverACredit | packages/core/billing/invoice-lines.ts:133-176 | with charges and rates not negative: the discount is min(subtotal, the positive amounts of the promotion and the extras), tax and total are not negative, and a bill the discounts cover comes to nothing |
| Invoices.TaxIsANearestAmountForEachRate | packages/core/billing/invoice-lines.ts:178-199 | the tax is the sum of one amount for each rate, each to the nearest cent of basis points times base over 10000, the base being the taxable charges less the discount, never below zero |
| Invoices.ChargedIsTheShareOfItsDays | packages/core/billing/invoice-lines.ts:102-121 | each charge bills its share of the monthly rate by the days between the proration dates inside the period |
| Invoices.TaxIsOnWhatIsCharged | packages/core/billing/invoice-lines.ts:133-138 | when every charge is taxable, tax is on the subtotal less the discount; when none is, there is none |
| Invoices.FullPeriodBillsTheRates | packages/core/billing/invoice-lines.ts:102-131 | without proration dates the subtotal is the monthly rates exactly |
| Invoices.MoreDiscountNeverCostsMore | packages/core/billing/invoice-lines.ts:133-183 | asking for more off never raises the tax and lowers the total by at least as much as comes off |
| Invoices.StackingOrderIsIrrelevant | packages/core/billing/invoice-lines.ts:139-176 | promotion and extras in any order give the same discount, tax and total |
| Ledger.RunningBalance | packages/core/billing/ledger.ts:45-56 | beside each entry, in time order, the sum of the entries up to it |
| Ledger.LedgerOrder | packages/core/billing/ledger.ts:33-49 | entries are in time order, and by id within an instant; none is lost |
| Ledger.LedgerIgnoresInputOrder | packages/core/billing/ledger.ts:35-40 | so, ids being distinct, the running balance does not depend on the order the entries came in |
| Ledger.OpenItems | packages/core/billing/ledger.ts:76-86 | the backward scan returns the longest run of entries at the end with positive balances |
| Ledger.OpenItemsSum | packages/core/billing/ledger.ts:65-86 | they sum to the closing balance less the last balance that was not positive |
| Ledger.OpenItemsAreTheBalanceIffLastSquare | packages/core/billing/ledger.ts:65-71 | they never sum to less than is owed, and to exactly that iff that last balance was zero or there was none |
| Ledger.CreditThenChargeListsTooMuch | packages/core/billing/ledger.ts:80-84 | a credit of 100 and a charge of 150 list 150 while 50 is owed |
| Ledger.LedgerTotals | packages/core/billing/ledger.ts:105-144 | each total is its kind's sum, turned positive, and the balance is the sum of all |
| Ledger.LedgerFootIsTheTotals | packages/core/billing/ledger.ts:88-104 | the last running balance is the totals put together again, in whatever order the entries came |
| Statements.StatementAddsUp | packages/core/billing/statements.ts:66-110 | a statement reconciles, its totals account for the movement, and it has exactly the lines it was given, in order of time |
| Statements.LinesOfAnInstantKeepTheirOrder | packages/core/billing/statements.ts:71-73 | lines of one instant keep the order they were given in |
| Statements.TotalsAreByKind | packages/core/billing/statements.ts:77-99 | each total is its own kind's sum over the lines given, with the sign it is reported in |
| Statements.StatementsChain | packages/core/billing/statements.ts:56-66 | statements at consecutive boundaries open where the one before closes, on the balance of everything before |
| Statements.StatementsEndAtTheLedgerBalance | packages/core/billing/statements.ts:56-66 | and the last one closes on the number at the foot of the ledger |
| Statements.StatementMonths | packages/core/billing/statements.ts:118-142 | every month from the lease's start to its end or today, newest first |
| Journal.JournalBalances | packages/core/accounting/journal.ts:201-270 | for every snapshot of integers the entry balances, each line is on one side and not negative, and only an old snapshot is refused |
| Journal.AccountMovement | packages/core/accounting/journal.ts:201-248 | what the entry does to each account whose name no other has, the receivable moving by billed less discounts, receipts applied and write-offs |
| Journal.LinesPostWhatWasAsked | packages/core/accounting/journal.ts:142-157 | turning negative amounts to the other side and dropping empty ones moves no money between accounts |
| Waterfall.Distribute | packages/core/auctions/waterfall.ts:52-97 | every cent is accounted for, costs before lien before surplus; surplus and deficiency are the two halves of proceeds less what was owed; a negative amount is refused, naming the first in the order the caller lists the fields |
| Waterfall.LedgerPostings | packages/core/auctions/waterfall.ts:117-138 | the charge for the costs and the payment of what was applied, in that order |
| Waterfall.SettleSale | packages/core/auctions/waterfall.ts:108-138 | the lien balance plus what is posted is the deficiency exactly |

## Left out

- Events.EveryRunIsSafe: one monotone clock for all workers; deletion of a delivery row by cascade is not a step, although settling a row that is gone is modelled as writing nothing.
- EventTiming.OneDispatcherWaits: measured on that one clock, from the settle step to the next handler call.
- Jobs.RunsAtMostOnce: without `force`, which resets a row on purpose and may overlap a running job.
- Totp.NoStepIsAcceptedTwice: concurrent submissions that both read the last step before either persists its own.
- Fingerprint.FingerprintIsFaithful: numbers are integers, keys compared by `localeCompare` are assumed to be totally ordered (two keys that compare equal must be equal), and the sentence at reconciliation.ts:206 that an omitted day equals a closed one is not what the printer does.
- BusinessHours.BusinessMinutesBetween: a fixed zone offset, since the jump to the next midnight assumes days of 1440 minutes.
- BusinessHours.BusinessMinutesSplit: a cut inside a minute counts that minute in both halves, so the cut is at a whole minute.
- ZonedTime.ZonedMidnightIsMidnightIffThereIsOne: offsets are whole minutes, at most a day, with at most one change within a day of the date.
- ZonedTime.WindowHoldsTheLocalMonthIffEdgesAreClean: two changes within a day of one edge; tiling needs no such condition.
- Allocation.AllocationIgnoresInputOrder: `localeCompare` on invoice ids is a total order in which only equal ids compare equal.
- Proration.ProratedAmountIsTheNearestShare: the division is exact; the program's floating-point quotient has a denominator of at most 31, so it rounds the same way while amounts stay below 2^53.
- Invoices.BuildInvoice: descriptions, quantities and jurisdiction names, and discounts that are not whole cents.
- Fingerprint.PrintedValuesArePrefixFree: which escape stands for which control character is as `JSON.stringify` writes it, but only that no two strings are written alike is proved.
- Journal.JournalBalances: descriptions, the entry's date and the fallback chart.
- Base32.Encode: bitwise-or of disjoint bits is modelled as addition; upper-casing and white space are those of ASCII.
- Calendar.MonthOfIsUnique: `Date.UTC` maps years 0 to 99 to the 1900s; the model does not.
- HMAC-SHA1, Prisma and Postgres, `Intl.DateTimeFormat` and zone tables: parameters, atomic map updates and an offset function.
- `summarizeDrift`, `effectsOf` and `holdIsActive`, `reminderStage`, `facilitiesDueSince`, recovery codes and `otpauthUri`: one-branch or set-building rules that would only add easy members.
- `validateTimeline` beyond the distinct-day rule, timeline templates, labels and descriptions.
- `reconcile` in the ledger file: its inputs are computed in code that is not part of this model.
