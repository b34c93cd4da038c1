# Verified model of the q-wash booking backend

This project models the state-changing core of the q-wash API in Dafny and proves what its
parts promise each other. Check everything with `dafny verify dfyconfig.toml`.

Time is an integer number of nanoseconds; the business time zone is the fixed UTC+5, so a local
calendar day is an aligned block of 24 hours (`Clock`). The database is a map of rows; a
transaction's commit, or one conditional update, is one atomic step. What other requests do
between the steps of one request is an arbitrary list of such steps, so every statement about a
request holds for every interleaving.

- `Availability`, `Capacity`: the sweep over bookings, the generators of free slots, a day's open
  windows around its break.
- `Schedules`, `Planning`: weekly hours and what a booking request must satisfy.
- `Bookings`: the booking table as a state machine - two-step inserts under a point's row lock,
  compare-and-set status writes, the two table constraints - and what all its runs keep.
- `BookingManager`: the requests themselves, as methods over a `Database` object and the wake-up
  bus, proved against that machine.
- `Agreement`: the public list of slots, the check under the lock and the exclusion constraint
  give one answer to "is this box free?".
- `Lockouts`, `LockHistory`, `Logins`, `RateLimit` (with `Spacing`): the in-memory abuse controls over
  whole runs; what they answer is also given by the times of the key's failures or hits alone.
- `RefreshTokens`: token rotation as find, revoke, issue with anything in between.
- `Reports`, `ReportBars`: the revenue report's breakdowns and time series.
- `Tickets`: numbering of the day list. Ids stand for their string forms, in that order.
- `EventBus`: the wake-up bus and the live streams over it.
- `Notifications`, `NotificationRuns`: stage notifications, their due windows and concurrent senders.
- `Usernames`, `StickerCodes` (with `Decimal`): account names and sticker numbers.
- `Options`, `Iteration`, `Sums`, `Sorting`: shared vocabulary. Sorting is used by contract only, so
  what is proved of its callers holds for any correct sort.

Where the code and its comments disagree, the model follows the code:

- `internal/queue/repository.go:282-284` rules out paused ready bookings left by a race; finishing a
  paused booking still leaves one (`Bookings.FinishKeepsPause`, `Bookings.PausedReady`).
- `internal/queue/handler_day.go:62` says later inserts never renumber; one created at the same
  instant with a smaller id, or at an earlier one, does (`Tickets.InsertRenumbers`,
  `Tickets.SmallerIdRenumbers`).
- `internal/auth/service.go:314-318` calls a locked account's password not guessable meanwhile; logins
  already past their check when the lock starts can each fail once more
  (`Logins.BoundNeedsSerialLogins`).
- `internal/platform/ratelimit/ratelimit.go:25` allows at most limit hits per window, which needs a
  limit of at least one (`RateLimit.LimitMustBePositive`). Callers see to that
  (`internal/platform/ratelimit/lockout.go:102-107`, `internal/app/app.go:160`).
- `internal/queue/handler.go:1070-1074` promises a snapshot on any change; one published between the
  first snapshot and the subscription is missed (`EventBus.FreshUnlessMissed`,
  `EventBus.MissedPublication`).

## Model

| member | source | states |
|---|---|---|
| Clock.DayBoundsTile | internal/platform/clock/clock.go:29-33 | an instant lies within another's day bounds exactly when both fall on one local day, and then they share bounds and weekday |
| Clock.WeekdayCycle | internal/queue/handler.go:293-295 | weekdays advance by one a day modulo seven, counted from Monday |
| Clock.DayBoundsAreLocal | internal/platform/clock/clock.go:19-33 | a local day is the 24 hours from 19:00 UTC of the day before, and holds the instant it is asked for |
| Availability.NetIsCounter | internal/queue/availability.go:199-205 | in any sorted order the occupancy at every instant is some value of the running counter |
| Availability.CounterIsReached | internal/queue/availability.go:192-205 | with ends before starts no positive counter value exceeds the occupancy of some instant |
| Availability.Sweep | internal/queue/availability.go:199-206 | over any sorted order of the events the loop returns the peak occupancy |
| Availability.NetIsLoad | internal/queue/availability.go:177-190 | inside the window the clipped events reproduce the number of intervals holding an instant; outside they add nothing |
| Availability.MaxOverlap | internal/queue/availability.go:171-207 | the result is the maximum, over all instants of [start, end), of the number of half-open intervals holding it |
| Availability.ComputeAvailableSlots | internal/queue/availability.go:23-36 | exactly the grid windows inside the day where the sweep finds a box to spare, in increasing order; with no interval ending before it starts, those with a box to spare at each instant |
| Availability.SweptSlotIsSpare | internal/queue/availability.go:171-207 | what the sweep tests of a candidate is that at each of its instants fewer intervals hold it than there are boxes |
| Availability.FreeBoxes | internal/queue/availability.go:79-93 | the ascending list of exactly the boxes of 1..n that nothing overlapping the window occupies |
| Availability.ComputeAvailableSlotsWithBoxes | internal/queue/availability.go:60-73 | exactly the grid windows with a free box, each with its exact free list, in increasing order |
| Availability.DaySchedule.WindowsAreOpenTime | internal/queue/availability.go:113-140 | for any break the windows are non-empty, ordered, apart, and their union is exactly the opening hours minus the break |
| Availability.DaySchedule.ContainsIsOpenThroughout | internal/queue/availability.go:146-153 | a non-empty interval is contained exactly when the point is open at each of its instants |
| Availability.ComputeAvailableSlotsForDay | internal/queue/availability.go:158-164 | exactly the slots of the day's windows, strictly increasing in start across windows |
| Availability.DaySlotIsOpen | internal/queue/availability.go:155-164 | no slot leaves the opening hours or touches the break |
| Availability.GridIsQuarters | internal/queue/availability.go:16-34 | a window's grid is its start and every further quarter of an hour |
| Capacity.LoadCountsBoxes | internal/queue/availability.go:171-207 | when each box's bookings are disjoint, the load at an instant is the number of occupied boxes |
| Capacity.BoxSlotIsAggregateSlot | internal/queue/availability.go:55-73 | every slot of the per-box generator is a slot of the aggregate one (pigeonhole at each instant) |
| Capacity.AggregateSlotWithoutBox | internal/queue/availability.go:18-36 | not conversely: two boxes booked in turn leave an aggregate slot with no free box |
| Schedules.StringOrderIsClockOrder | internal/schedule/manager.go:80-98 | on well-formed HH:MM strings string order is clock order, and equality is equality |
| Schedules.TimeFormatIsClock | internal/schedule/manager.go:12 | the accepted strings are exactly the two-digit hours and minutes of a 24-hour clock, each read as its own minute |
| Schedules.HoursAcceptedExactly | internal/schedule/manager.go:73-104 | an open weekday is accepted exactly with two such times in order and no break, or two more in order within them |
| Schedules.ValidateHours | internal/schedule/manager.go:73-104 | the string comparisons give the verdict of the clock times, and fill the row when accepted |
| Schedules.AllWeekdaysCovered | internal/schedule/manager.go:63-65 | seven acceptable inputs cover every weekday (pigeonhole) |
| Schedules.Store.Replace | internal/schedule/manager.go:39-71 | accepts exactly the acceptable weeks and stores one row per weekday made from its input; otherwise reports the first fault and changes nothing |
| Schedules.AcceptedRowResolves | internal/queue/handler.go:303-331 | an accepted row resolves on any day to hours inside that local day, break within them, open for exactly the minutes asked for |
| Schedules.AcceptedWeekResolves | internal/queue/handler.go:281-331 | after an accepted replacement every day resolves through the one input given for its weekday |
| Schedules.ResolvedDayIsOpen | internal/queue/handler.go:299-331 | any stored row, on any day and instant: open exactly from its opening to its closing time outside its break, in minutes after local midnight; closed without a row or hours |
| Schedules.AcceptedRowIsOpen | internal/schedule/manager.go:73-104 | after an accepted input the day is open at an instant exactly between the times asked for and outside the break asked for |
| Schedules.AcceptedWeekIsOpen | internal/queue/handler.go:281-331 | after an accepted replacement so is every day, by the one input given for its weekday |
| Planning.PlanItems | internal/queue/manager.go:103-141 | finds the first fault of the requested services in order, or their common point and total minutes |
| Planning.PlanBooking | internal/queue/manager.go:95-183 | the request's verdict: the first failing check's error, or the plan |
| Planning.PlanMeaning | internal/queue/manager.go:143-182 | a plan is made exactly for bookable services at an active point, an open box in range, a future start when asked, and a time open throughout; the plan's day then holds the booking |
| Planning.ItemsBookableExactly | internal/queue/manager.go:96-141 | services can be booked together exactly when they are one to eight different, active ones of one point, each with a price option of its own |
| Planning.FaultsInOrder | internal/queue/manager.go:108-138 | which fault the first faulty service is refused with |
| Planning.RefusalIsReal | internal/queue/manager.go:95-183 | whatever planning refuses, the reason it names holds of the request and the stored data |
| Planning.PlanEnds | internal/queue/manager.go:166-168 | a planned booking ends when the minutes its services block are over |
| Planning.OneServiceEnds | internal/service/model.go:27-34 | with one service it ends after the queue minutes where they are set, else after the duration |
| Planning.FurtherServiceEnds | internal/queue/manager.go:139-168 | each further service moves the end by its own minutes, chosen the same way |
| Planning.PlannedAtServicesPoint | internal/queue/manager.go:120-124 | the plan is at the point of every service it names |
| Planning.DayKeepsItsRow | internal/queue/handler.go:290-295 | on the w-th day after any Monday a point keeps the hours of its row for weekday w |
| Bookings.StepKeepsMarks | internal/queue/repository.go:252-258 | every step keeps canceled_at set exactly when canceled, paused_at only when washing or ready |
| Bookings.RunKeepsMarks | internal/queue/repository.go:252-295 | the same over any run |
| Bookings.StepMovesAlongEdges | internal/queue/manager.go:448-454 | every effective status write moves the row from its actual status along an edge of the table or to canceled; box, time and owner never change |
| Bookings.StaffTransitionExactly | internal/queue/manager.go:441-454 | staff may move a booking exactly one stage on along in queue, waiting, washing, ready, or to no-show before washing, or from no-show or canceled back into the queue |
| Bookings.StepKeepsConstraints | migrations/000030_queue_overflow.up.sql:12-18 | both constraints survive every step, and only an insert or a restore can meet them |
| Bookings.OnlyRestoresClaim | internal/queue/repository.go:243-251 | a status write that is no restore and finds its row unchanged violates no constraint |
| Bookings.ReachableIsConstrained | migrations/000011_one_active_booking_per_user.up.sql:5-7 | in every reachable state no box is double-booked and no user has two active bookings |
| Bookings.ReachableRowsFit | migrations/000030_queue_overflow.up.sql:9-10 | in every reachable state a booking ends after it starts, sits in a positive box or, as overflow, in box 0, and is stamped canceled exactly while canceled |
| Bookings.RunKeepsProgress | internal/queue/manager.go:441-454 | over any run rows stay with their box and time; ready is never left and washing leads only to ready |
| Bookings.BeginSeesClashes | internal/queue/manager.go:201-209 | the rows re-read for the plan's day contain every row the booking would clash with |
| Bookings.LockSufficesStep | internal/queue/manager.go:185-218 | one step without a restore is the same with and without the exclusion constraint |
| Bookings.LockSuffices | internal/queue/manager.go:185-218 | in runs without restores the lock's re-check alone prevents double booking: both systems pass through the same states |
| Bookings.InsertSucceedsExactly | internal/queue/manager.go:194-218 | undisturbed, a planned booking is inserted exactly when no stored one of its box that is neither canceled, no-show nor overflow reaches into its time and its user has none in queue, waiting or washing |
| Bookings.RestoreDefeatsLock | internal/queue/repository.go:249-251 | a restore between another insert's reading and commit double-books without the constraint and is stopped with it |
| Bookings.FinishKeepsPause | internal/queue/repository.go:252-260 | whatever follows, a finished booking is paused exactly when it was finished while paused |
| Bookings.PausedReady | internal/queue/repository.go:280-295 | a paused ready booking is reachable |
| BookingManager.Database.FindActiveBookingsInRange | internal/queue/repository.go:43-54 | each of the point's occupying rows overlapping the range, once, by start |
| BookingManager.Database.HasActiveForUser | internal/queue/repository.go:96-105 | true exactly when the user has a row in queue, waiting or washing |
| BookingManager.Database.UpdateStatus | internal/queue/repository.go:252-278 | writes the status only from the status the caller read, with the cancellation mark; otherwise the exact error and no change |
| BookingManager.Database.UpdatePausedAt | internal/queue/repository.go:285-295 | writes the pause mark only while washing |
| BookingManager.CancelBooking | internal/queue/manager.go:378-396 | refused outright exactly unless in queue or waiting; otherwise, for anything others do between read and write, cancels, stamps and publishes exactly when the status is still the one read, and keeps all invariants |
| BookingManager.UpdateStatus | internal/queue/manager.go:456-479 | refused as an invalid transition exactly unless staff may make that move, stated without the table; otherwise writes the new status and nothing else exactly when the row is unchanged, a restore exactly when neither constraint is violated |
| BookingManager.PauseOrResume | internal/queue/manager.go:402-439 | pauses or resumes, and writes nothing else, exactly while still washing; a booking finished in between is left alone |
| BookingManager.VerifyBoxAvailable | internal/queue/manager.go:364-371 | refuses exactly when some busy row of the box overlaps the interval |
| BookingManager.LockIsHeld | internal/queue/manager.go:195-199 | while one insert holds a point's lock no other step disturbs its reading |
| BookingManager.InsertLocked | internal/queue/manager.go:194-218 | commits exactly when nothing in the state it commits in forbids it, with the exact failure otherwise; the new row has no rival |
| BookingManager.UnseenClashWasRestored | internal/queue/manager.go:185-218 | over anything others do, a clash the reading under the lock does not show comes from a restore since |
| BookingManager.ConstraintStopsRestores | internal/queue/repository.go:249-251 | when the box check passes, the exclusion constraint rejects the insert exactly when a clashing row was restored while the lock was held |
| BookingManager.CreateBooking | internal/queue/manager.go:224-265 | the exact outcome, stored row, state and publication for anything others do before and during the lock |
| BookingManager.CreateManualBooking | internal/queue/manager.go:292-357 | the same for walk-ins, including staff accounts and overflow |
| BookingManager.RunKeepsValid | internal/queue/repository.go:202-224 | any further run keeps both constraints and the row marks |
| Agreement.AddClosedBoxes | internal/queue/handler.go:160-169 | each interval occurs as often as among the bookings, and once more for a closed box's all-day one |
| Agreement.PublicSlots | internal/queue/handler.go:143-171 | the listed slots are exactly those of the day over bookings and closed boxes |
| Agreement.ListAvailability | internal/queue/handler.go:112-215 | succeeds exactly for a known point, its own services and readable hours, and then lists that day's slots, each as long as the minutes its services block; otherwise the first fault |
| Agreement.ListedMeansFree | internal/queue/handler.go:143-171 | a box is listed at a start exactly when the start is on a window's grid and the box is open, in range and unoccupied |
| Agreement.AvailabilityAgreesWithBooking | internal/queue/manager.go:151-180 | a box is listed at a start exactly when that start is offered and booking it passes planBooking and verifyBoxAvailable in the same state |
| Agreement.SlotsStayOnTheirDay | internal/queue/handler.go:281-288 | every listed slot starts on the local day asked for |
| Agreement.LockCheckIsExclusion | internal/queue/manager.go:364-371 | the check under the lock passes exactly when no row of the whole table would violate the exclusion constraint |
| Agreement.ListedMeansBookable | internal/queue/manager.go:224-265 | from the screen to the table: listed boxes are exactly those whose booking is then inserted |
| Lockouts.Lockout.Fail | internal/platform/ratelimit/lockout.go:55-84 | the entries afterwards are those of one more failure after the sweep |
| Lockouts.Lockout.Locked | internal/platform/ratelimit/lockout.go:39-52 | locked exactly while the key's lock runs, with the time left |
| Lockouts.NewLockout | internal/platform/ratelimit/lockout.go:30-35 | null exactly when a limit is not positive |
| Lockouts.SweepOnlyDropsStale | internal/platform/ratelimit/lockout.go:65-71 | over any run the sweep has only dropped entries that no longer matter |
| Lockouts.SweepIsUnobservable | internal/platform/ratelimit/lockout.go:63-71 | in any run with a non-decreasing clock every answer is the same with and without the sweep |
| Lockouts.FailuresAreBounded | internal/platform/ratelimit/lockout.go:27-29 | if each failure followed an unlocked check and nothing reset the key, no interval as long as the lock holds more than maxFailures |
| Lockouts.StreakLocks | internal/platform/ratelimit/lockout.go:73-83 | a streak locks with its maxFailures-th failure and not sooner, for exactly the duration |
| LockHistory.LockIsExact | internal/platform/ratelimit/lockout.go:39-84 | after any run a key is locked for exactly what the times of its failures since its last reset say: a lock from each maxFailures-th of a streak without a silent duration |
| LockHistory.LapsedStreakStartsOver | internal/platform/ratelimit/lockout.go:27-29 | once a key is unlocked and its last failure a duration old, every later question is answered as if it had never failed, whatever follows |
| Logins.LoginWithPassword | internal/auth/service.go:319-360 | for anything other logins do between its check and its end: a locked name is refused before the password is looked at; otherwise exactly one failure or one reset - also for an account that may not log in - or nothing on a database error |
| Logins.LoginIsItsEvents | internal/auth/service.go:322-347 | the events of a login in a run, with any events of others between them, have the login's effect on the lockout |
| Logins.FailureKeepsBound | internal/platform/ratelimit/lockout.go:73-83 | while a lock runs, the failures less than a duration back and the logins still pending make at most the bound; otherwise the present count covers them |
| Logins.GuessesAreBounded | internal/auth/service.go:311-318 | in any interleaving, whatever other names do: with at most c wrong logins of a name overlapping, no interval as long as the lock holds more than maxFailures + c - 1 of its failures |
| Logins.BoundIsAttained | internal/auth/service.go:322-346 | for every configuration and every c some run reaches maxFailures + c - 1 failures at one instant |
| Logins.BoundNeedsSerialLogins | internal/platform/ratelimit/lockout.go:27-29 | the documented maxFailures bounds all such runs exactly when c is 1: logins of a name never overlap |
| RateLimit.Limiter.Allow | internal/platform/ratelimit/ratelimit.go:41-66 | the verdict and the new windows are those of one hit after the sweep |
| RateLimit.SweepIsUnobservable | internal/platform/ratelimit/ratelimit.go:46-54 | after any run the next hit gets the same verdict with and without the sweep |
| RateLimit.WindowIsBounded | internal/platform/ratelimit/ratelimit.go:56-65 | the present window admitted exactly its count, at most the limit where that is positive |
| RateLimit.LimitMustBePositive | internal/platform/ratelimit/ratelimit.go:25-60 | no window of any run admits more than the limit exactly when the limit is at least one |
| RateLimit.AdmittedAreBounded | internal/platform/ratelimit/ratelimit.go:56-65 | any interval of one window length admits at most 2 * limit - 1 hits of a key, or one if the limit is below one |
| RateLimit.BurstIsAttained | internal/platform/ratelimit/ratelimit.go:56-65 | for every limit and any window longer than one nanosecond some run admits that many |
| RateLimit.RetryAfterIsExact | internal/platform/ratelimit/ratelimit.go:61-79 | a refused key with no hit in between is admitted exactly once retryAfter has passed; the whole seconds announced suffice |
| RateLimit.AllowIsExact | internal/platform/ratelimit/ratelimit.go:56-65 | after any run a hit is refused exactly while the window opened by an admitted hit of its key runs and has admitted the limit, and is told the rest of that window |
| RefreshTokens.SessionsAreSingleThreaded | internal/auth/repository.go:89-100 | in every reachable state a session has at most one unrevoked token or refresh between revoke and issue, and each token at most one successor |
| RefreshTokens.RevocationIsPermanent | internal/auth/repository.go:92-120 | no later step revives or deletes a revoked token |
| RefreshTokens.ReachableHasOneUser | internal/auth/service.go:424-428 | in every reachable state all tokens of a session are one user's |
| RefreshTokens.RevokeAllEndsSessions | internal/auth/service.go:393-395 | in any reachable state, revoking all of a user's tokens ends the session of any of them for good exactly when no refresh of it is in flight |
| RefreshTokens.TokenStore.RevokeIfActive | internal/auth/repository.go:92-100 | true exactly for the call that revoked it; every other token stays exactly as it was |
| RefreshTokens.AllRevokedExactly | internal/auth/repository.go:112-120 | a token is revoked afterwards exactly when it was before or is the user's; only the user's unrevoked ones change, to the time of the call |
| RefreshTokens.RevokedExactly | internal/auth/repository.go:92-110 | revoking one token stamps that token, if unrevoked, and leaves every other one as it was |
| RefreshTokens.IssueAddsOne | internal/auth/service.go:424-428 | the issue step stores one new token, of its predecessor's user, and touches no other |
| RefreshTokens.Refresh | internal/auth/service.go:403-429 | the exact result and state for anything others do between find, revoke and issue: the revoke changes no other token, and a new token is its predecessor's user's and only successor |
| RefreshTokens.Logout | internal/auth/service.go:449-463 | revokes the user's own token and no other, or all of the user's; anything else changes nothing |
| RefreshTokens.ChangePassword | internal/auth/service.go:390-397 | every token the user had is revoked afterwards and the new one is not |
| Reports.ComputePrice | internal/queue/reports.go:384-390 | the sum over the booking's items of their option's price |
| Reports.AddItems | internal/queue/reports.go:348-356 | each service's line grows by its own items, and all lines together by the booking's price |
| Reports.Summarize | internal/queue/reports.go:328-372 | every line is what its rows say and none is empty; revenue is the sum over services, and over boxes plus overflow; cars and minutes add up likewise |
| Reports.SinkInto | internal/queue/reports.go:401-403 | one row moves left past all that earned less, losing none |
| Reports.SortByRevenueDesc | internal/queue/reports.go:399-405 | the rows become a descending permutation of themselves |
| Reports.ServiceRows | internal/queue/reports.go:263-273 | one row per service, best earner first, adding up to the breakdown |
| Reports.TotalsAdd | internal/queue/reports.go:328-372 | every line of a list of bookings is the sum of the bookings' own lines |
| Reports.LinesOfOne | internal/queue/reports.go:334-368 | one completed booking is one car and its price, and outside overflow its whole minutes, in the total and its box's or the overflow line; any other is nothing |
| Reports.PriceOfOne | internal/queue/reports.go:374-390 | a booking without items costs its primary option, one with an item that item's option; an unpriced option costs nothing |
| Reports.PriceOfFurther | internal/queue/reports.go:384-390 | each further item adds its own option's price |
| Reports.ServiceOfOne | internal/queue/reports.go:348-356 | in a service's line a booking of one item, or of none but its primary service, is one car and its price when that is the service |
| Reports.ServiceOfFurther | internal/queue/reports.go:348-356 | each further item adds one car and its price to its own service's line and nothing to others |
| ReportBars.PeriodSpan | internal/queue/reports.go:116-135 | a period is a whole number of local days ending with today, and the previous one is as long and adjacent |
| ReportBars.IndexIsHoldingBar | internal/queue/reports.go:477-483 | within the period a booking's index is that of the bar holding its start |
| ReportBars.HighlightHoldsNow | internal/queue/reports.go:433-439 | the highlighted bar is exactly the one that holds now |
| ReportBars.EmptyBuckets | internal/queue/reports.go:460-475 | one bar per hour or day of the period, at its start |
| ReportBars.ComputeBars | internal/queue/reports.go:412-447 | each bar has the revenue of the completed bookings in it; over rows within the period the bars add up to the total revenue |
| Tickets.RankInOrder | internal/queue/handler_day.go:121-134 | in creation order a booking's rank is the running count of its box |
| Tickets.TicketsById | internal/queue/handler_day.go:121-134 | every booking, and nothing else, gets the ticket of 10 plus its rank by (created, id) among its box's bookings, whatever the list's order |
| Tickets.NumbersFollowCreation | internal/queue/handler_day.go:57-62 | within a box numbers follow creation order, so no two bookings share one |
| Tickets.NumbersFollowTime | internal/queue/handler_day.go:123-134 | of two bookings of a box the earlier created has the smaller number, by id when created together, and the first has number 11 |
| Tickets.NumbersAreInRange | internal/queue/handler_day.go:129-134 | every number lies between 11 and 10 plus the box's bookings |
| Tickets.NumbersHaveNoGaps | internal/queue/handler_day.go:129-134 | every number up to 10 plus the box's bookings is given out |
| Tickets.InsertShifts | internal/queue/handler_day.go:57-62 | adding bookings moves a number up by exactly the added ones of the box that sort before it |
| Tickets.InsertRenumbers | internal/queue/handler_day.go:57-62 | a booking keeps its ticket exactly when no added booking of its box sorts before it |
| Tickets.SmallerIdRenumbers | internal/queue/handler_day.go:123-128 | for instance a booking made at the same instant with a smaller id takes number 11 from the one that had it |
| Tickets.StatusesDoNotMatter | internal/queue/handler_day.go:60-62 | status changes renumber nothing |
| Tickets.TicketsDecode | internal/queue/handler_day.go:92-97 | two tickets are equal exactly when prefix letter and number are |
| Tickets.SharedLetters | internal/queue/handler_day.go:89-97 | among boxes 1..26 and overflow only box 15 and overflow share a letter |
| Tickets.DistinctWhenLettersAre | internal/queue/handler_day.go:92-97 | a day's tickets are distinct exactly when no two used boxes share a letter |
| Tickets.DistinctUnlessBox15 | internal/queue/handler_day.go:89-97 | with at most 26 boxes: exactly unless box 15 and overflow are both used |
| Tickets.ManualTicketIsFirst | internal/queue/handler_day.go:261-266 | a manual booking's answer carries number 11, its day ticket exactly when it is its box's first |
| Tickets.TicketReads | internal/queue/handler_day.go:89-97 | boxes 1 to 26 have the letters of the alphabet in order, the next start over, overflow has an O; a hyphen and the decimal number follow |
| EventBus.Bus.Publish | internal/platform/eventbus/eventbus.go:27-36 | every subscriber of the point is left with one signal, nobody else's changes, and the publisher never waits |
| EventBus.Bus.Subscribe | internal/platform/eventbus/eventbus.go:40-48 | adds a channel nobody else has |
| EventBus.Bus.Unsubscribe | internal/platform/eventbus/eventbus.go:50-57 | removes the channel, leaves no empty set, and is idempotent |
| EventBus.RunKeeps | internal/queue/handler.go:1155-1179 | in every reachable state the bus holds exactly the open streams' channels |
| EventBus.NothingLeaks | internal/platform/eventbus/eventbus.go:38-57 | when all streams are closed the map is empty |
| EventBus.NoLostWakeUp | internal/queue/handler.go:1074-1094 | after any publication it heard a stream, while open, is signalled, about to take a snapshot, or shows everything written before it |
| EventBus.WakeServes | internal/queue/handler.go:1089-1092 | a signalled stream that wakes and reads shows everything written so far and has no signal left |
| EventBus.FreshUnlessMissed | internal/queue/handler.go:1151-1155 | a waiting unsignalled stream is up to date exactly when something was published since it subscribed or nothing was written between first snapshot and subscription |
| EventBus.MissedPublication | internal/queue/handler.go:1070-1075 | that window is real: a run that leaves a stream waiting with stale data |
| Notifications.NeverBothDue | internal/notification/repository.go:84-90 | no booking is due for both time-based stages at one instant |
| Notifications.FindDue | internal/notification/repository.go:95-111 | a row is selected exactly when it is stored, timely and unrecorded and its owner has a device; by start |
| Notifications.FindDueIsExact | internal/notification/repository.go:95-111 | each due row is selected as often as it is stored, and no other |
| Notifications.ReminderExactly | internal/notification/repository.go:84-111 | a reminder is due exactly in the hour before the start, unstarted, made before that hour, unrecorded, with a device |
| Notifications.LateExactly | internal/notification/repository.go:84-111 | a late nudge is due exactly from five minutes to two hours after the start, unstarted, unrecorded, with a device |
| Notifications.StageOfStatus | internal/notification/manager.go:137-145 | washing alone begins the started stage and ready alone the finished one |
| Notifications.Store.NotifyStage | internal/notification/manager.go:170-224 | overflow, no device or a recorded stage changes nothing; otherwise each token is pushed to once, dead tokens go, the outcome is recorded |
| Notifications.Store.NotifyStatus | internal/notification/manager.go:137-164 | only washing and ready have a stage, recorded exactly when it was before or the owner can be reached, and then pushed to every device the owner still has |
| Notifications.Store.TickKind | internal/notification/scheduler.go:30-41 | one kind's due bookings are handled and nothing untimely is; what is newly recorded was pushed to its owner's devices |
| Notifications.Store.Tick | internal/notification/scheduler.go:28-43 | afterwards every timely booking is recorded unless overflow or without a device; nothing else is, what is newly recorded was pushed to its owner's devices, and nothing recorded before is pushed |
| NotificationRuns.SentAtMostOnce | internal/notification/repository.go:64-73 | over any interleaving of attempts a stage is sent by one attempt only and never twice to a token |
| NotificationRuns.AttemptSends | internal/notification/manager.go:170-208 | in any state a new attempt at an unrecorded stage, if nothing stops it, records the stage and pushes to each token it listed |
| NotificationRuns.LostWithItsAttempt | internal/notification/manager.go:195-202 | once recorded only the creator can send, so a stage whose creator stopped is never sent again |
| NotificationRuns.WindowsAreHit | internal/notification/repository.go:84-90 | every start has a tick in its window exactly when no gap between ticks exceeds the window: 1 h, and 1 h 55 min |
| NotificationRuns.RecordedWasSelected | internal/notification/scheduler.go:28-43 | over any run a reminder is recorded, or about to be, only after some tick selected its booking |
| NotificationRuns.RemindedBeforeStart | internal/notification/scheduler.go:46-58 | over any run of ticks of all instances, sends and changes: with reminder ticks at most an hour apart, a booking that waits with a device is selected by a tick of the hour before its start exactly when made an hour ahead |
| Usernames.SlugMeaning | internal/user/provision.go:38-45 | a slug is letters and digits joined by single hyphens, exactly those of the lower-cased name, or "point" |
| Usernames.HyphensAreBetweenWords | internal/user/provision.go:38-40 | hyphenation puts one hyphen between any two runs of letters and digits, and one at an end that is neither |
| Usernames.SlugIsWords | internal/user/provision.go:38-45 | a slug is the runs of letters and digits of the lower-cased name with one hyphen between any two, or "point" |
| Usernames.AlnumReads | internal/user/provision.go:38-40 | what counts as a letter or digit are the 26 small letters and the ten digits, and lower-casing leaves them alone |
| Usernames.CandidateReads | internal/user/provision.go:50-64 | the candidates are the base and then the base, a hyphen and 2, 3, ... in decimal |
| Usernames.SlugOfSlug | internal/user/provision.go:38-45 | slugging is idempotent |
| Usernames.StaffIsNotWorker | internal/user/provision.go:100-104 | no candidate of the staff name is one of the worker name |
| Usernames.ProbeTaken | internal/user/provision.go:50-64 | a probe of a taken name leaves one taken candidate fewer ahead |
| Usernames.Accounts.UniqueUsername | internal/user/provision.go:50-64 | the first free name of base, base-2, ..., found within one more probe than there are names |
| Usernames.Accounts.NewCredential | internal/user/provision.go:66-89 | adds that name and nothing else, or nothing when the column cannot hold it |
| Usernames.Accounts.ProvisionPointAccounts | internal/user/provision.go:96-109 | two different fresh accounts or none; each name is the first free one before the call |
| Usernames.Accounts.ProvisionAccount | internal/user/provision.go:133-148 | one fresh account under the first free derived name |
| StickerCodes.SpelledIsParsed | internal/qrcode/model.go:73-83 | any spelling - prefix or none, any case, spaces, dashes, leading zeros - is read as its digits, if they fit 64 bits |
| StickerCodes.ParsedIsSpelled | internal/qrcode/model.go:73-83 | whatever is accepted is such a spelling |
| StickerCodes.ParsesExactlySpellings | internal/qrcode/model.go:70-83 | the parser reads a code as a number exactly when the code spells it |
| StickerCodes.ParseOfCode | internal/qrcode/model.go:66-68 | a printed code reads back as its number's magnitude |
| StickerCodes.RoundTrip | internal/qrcode/model.go:66-83 | printing and parsing gives back a 64-bit number exactly when it is not negative |
| StickerCodes.CodeReads | internal/qrcode/model.go:66-68 | a non-negative number is printed after "QW-" with at least four digits, zeros only up to four; a negative one as a dash and at least three |
| StickerCodes.SeparatorsRead | internal/qrcode/model.go:73-77 | hyphens and spaces separate, and exactly the 25 Unicode white-space characters are dropped around a code |

## Left out

- HTTP routing, JSON, authorization, SSE bytes and heartbeats: plumbing around the modelled calls.
- Postgres and GORM: a table is a map; connection, timeout and unclassified database errors are not modelled.
- Bcrypt, JWTs, token hashing, OTP, random values and UUIDs: ids are opaque numbers; a password either matches or not.
- BookingManager.Database.Create: when a write violates both constraints the model reports the exclusion one; the database may report either.
- BookingManager.Database.Create: a booking's item rows are not stored, since no modelled property reads them back.
- BookingManager.CreateBooking: the car look-up arrives as a yes or no.
- BookingManager.UpdateStatus: the stage notification after the write runs in the background and is modelled by itself.
- BookingManager.CreateManualBooking: the client found or created by phone arrives as an account value; storing the user and the car is not modelled.
- Agreement.ListAvailability: the parsing of the date and of the service ids is not modelled, nor is the slot list for overflow bookings.
- Logins.GuessesAreBounded: assumes a non-decreasing clock, as the next line.
- Lockouts.SweepIsUnobservable: assumes a non-decreasing clock; the source reads it before taking the mutex.
- RateLimit.SweepIsUnobservable: assumes a non-decreasing clock, as above.
- RateLimit.RetryAfterIsExact: the source's floating-point seconds are modelled as integer division.
- RefreshTokens.ChangePassword: starts once the new password is stored.
- ReportBars.PeriodSpan: the day of the month is a parameter, since calendar months are not modelled; minutes and hours are exact where the source divides floats.
- Reports.ServiceRows: the rows' names and percentage shares are not modelled.
- Reports: percentages and deltas in floating point, labels in Russian, and the per-box load.
- Notifications.Store.NotifyStage: message texts and errors of reading tokens or points are not modelled.
- Notifications.Store.NotifyStatus: runs at once; the source's background goroutine with its time limit is not modelled.
- Notifications.Store.Tick: the database is read and written without failures, so the joined errors are those of the push provider.
- EventBus.NoLostWakeUp: a snapshot is one atomic read; a client that is gone is a close event.
- Usernames.Accounts.NewCredential: a concurrent transaction taking the same name is not modelled; the unique index then fails the whole transaction.
- StickerCodes.SpelledIsParsed: upper-casing is modelled for ASCII letters; other letters are rejected either way.
- CRUD packages, photos, the QR-code pool, scans, admin dashboards and the board's display fields: they would only add easy members.
- Go's integer widths and the saturation of time differences, except where a 64-bit bound matters (sticker codes).
