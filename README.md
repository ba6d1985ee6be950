# Football field booking: slots, conflicts and the admin gate

This project models, in Dafny, the core of a booking service for a small set of
football fields. The service is a Next.js application; the model covers the
following parts:

- **Time arithmetic.** Opening and closing times are turned into a grid of one-hour
  slots. Two `[start, end)` intervals overlap when they share a minute. Phone
  numbers are checked against the Uzbek format.
- **Availability.** The answer shows, for each active field in its display order,
  every slot with the first held booking (pending, confirmed or blocked) that
  overlaps it on the slot's real date.
- **Creating bookings.** The public create route runs an ordered chain of checks:
  required fields, phone, field, lead time, horizon, conflict and price. It then
  appends one pending booking. The admin block route appends a blocked record once
  a conflict check passes. The admin direct create appends with no conflict check
  at all.
- **Listings.** Both booking lists apply equality filters and order the results.
  The admin list also carries three counters.
- **Client-side logic.**
  - The booking grid decides which slots can start a one- or two-hour booking.
  - The admin calendar builds its hour rows, which wrap past midnight, assigns
    them dates and finds the booking in each cell.
  - The booking page shows a price.
  - The admin bookings page offers status changes and builds its query string.
- **The admin gate.** It reads a bearer token or a cookie, gives 401 or 403, and
  checks the configured credentials.

The booking table is a class, `BookingStore.Store`, holding a `seq<Booking>`. Each
create route is a pure decision function over the table. A store method applies
that decision and appends the record it returns. The invariant these methods keep
is `Domain.NoOverlap`: no two held bookings of one field and date overlap. The
public create and the block keep it. The admin direct create does not: a lemma
shows that a direct create overlapping any held booking of the same field and date
is accepted.

Times stay text, as in the source. Reading `"HH:MM"` with `split(":").map(Number)`
gives `Option<nat>`, where `None` stands for `NaN`. Every comparison with `NaN` is
false, so a `None` makes the comparisons that use it false.

Two behaviours of the code are worth naming:

- The admin direct create never checks for conflicts.
- Overlap never wraps past midnight.

## Model

| member | source | states |
|---|---|---|
| TimeUtils.ToMinutes | src/lib/utils.ts:45-48 | `split(":").map(Number)` then h × 60 + m: a NaN hour makes the whole value NaN, and a readable value is at least 60 × the hour |
| TimeUtils.TimeSlots | src/lib/utils.ts:6-34 | an unreadable opening or closing time gives no slots; otherwise the first slot starts at the opening minute |
| TimeUtils.GenerateTimeSlots | src/lib/utils.ts:6-34 | the slots are those of `TimeSlots`: the spans from opening stepping by the duration while a slot still ends by closing, each rendered `HH:MM`; an unreadable time gives none |
| TimeUtils.SlotsBetween | src/lib/utils.ts:15-31 | the loop pushes exactly the rendered spans from `open` to `end` (loop invariants tie the emitted prefix to the remaining spans) |
| TimeUtils.TimeSlotsCount | src/lib/utils.ts:15-18 | for any positive step, the number of slots is (close − open) div step when close ≥ open, and zero otherwise |
| TimeUtils.TimeSlotAt | src/lib/utils.ts:19-30 | slot `i` reads back as open + i·duration to open + (i+1)·duration, ends by closing, and starts where slot `i − 1` ended |
| TimeUtils.SpansFromAt | src/lib/utils.ts:18-30 | span `i` of the loop is [current + i·d, current + i·d + d] and ends by the closing minute |
| TimeUtils.SpansFromLength | src/lib/utils.ts:18 | the loop emits one span per step counted by `SlotCount` |
| TimeUtils.HourlySlotCount | src/lib/utils.ts:18 | with a 60-minute step the loop runs (end − current) div 60 times, and zero times when end < current |
| TimeUtils.SlotCountClosedForm | src/lib/utils.ts:18 | for any positive step the loop runs (end − current) div step times when end ≥ current, and zero times otherwise |
| TimeUtils.FormatTimeRoundTrip | src/lib/utils.ts:19-27 | reading a formatted minute offset back with `toMinutes` gives the same offset; hours are not reduced mod 24 |
| TimeUtils.RenderRoundTrip | src/lib/utils.ts:26-27 | both bounds of a rendered slot read back as the span's minutes |
| TimeUtils.RenderedSpanAt | src/lib/utils.ts:25-28 | rendered slot `i` reads back as the loop's `i`-th start and end minute |
| TimeUtils.RenderedSpansMeet | src/lib/utils.ts:30 | consecutive rendered slots meet: slot `i` starts where slot `i − 1` ends |
| TimeUtils.SpansFromMeet | src/lib/utils.ts:30 | consecutive spans meet in minutes |
| TimeUtils.DefaultScheduleSlots | src/lib/utils.ts:6-34 | opening and closing texts that read as 06:00 and 24:00 give, at 60 minutes, 18 slots, the last "23:00"–"24:00" |
| TimeUtils.TimeSlotsOfMinutes | src/lib/utils.ts:6-34 | the slots of two readable times are the rendered spans between the minutes they read as |
| TimeUtils.HourlySpansLast | src/lib/utils.ts:18-30 | a schedule exactly n hours long has n one-hour spans, the last ending at closing |
| TimeUtils.HourlyScheduleLastSlot | src/lib/utils.ts:6-34 | a schedule exactly n hours long gives n slots, the last rendering the hour before closing |
| TimeUtils.WholeHourText | src/lib/utils.ts:26-27 | a whole hour from 10 to 99 renders as its two digits and ":00" |
| TimeUtils.ClockTextValue | src/lib/utils.ts:12-16 | two digits, a colon and two digits read as that many hours × 60 plus minutes |
| TimeUtils.SplitClockText | src/lib/utils.ts:12-13 | `split(":")` of two digit runs joined by a colon gives exactly those two runs |
| TimeUtils.ToMinutesOfParts | src/lib/utils.ts:12-16 | two digit runs joined by a colon read as hours × 60 plus minutes, and the hour part as the hours |
| TimeUtils.DefaultTimes | src/lib/utils.ts:12-16 | "06:00" reads as minute 360 and "24:00" as minute 1440 |
| TimeUtils.LastDefaultSlotText | src/lib/utils.ts:26-27 | minute 1380 renders "23:00" and 1440 renders "24:00" |
| TimeUtils.RenderAll | src/lib/utils.ts:25-28 | one rendered slot per span, in order |
| TimeUtils.IsTimeOverlap | src/lib/utils.ts:39-56 | an overlap needs all four times readable; for two non-empty intervals it holds iff the later start is before the earlier end |
| TimeUtils.OverlapOfMinutes | src/lib/utils.ts:39-56 | on formatted times, `isTimeOverlap` holds iff s1 < e2 and s2 < e1 |
| TimeUtils.OverlapSymmetric | src/lib/utils.ts:55 | overlap does not depend on which interval is named first |
| TimeUtils.SelfOverlap | src/lib/utils.ts:55 | an interval with a readable start before its end overlaps itself |
| TimeUtils.TouchingIntervalsDoNotOverlap | src/lib/utils.ts:55 | [a, b) and [b, c) do not overlap |
| TimeUtils.IsValidPhone | src/lib/utils.ts:61-64 | an accepted phone has at least nine characters and cleans to 9, 12 or 13 characters |
| TimeUtils.CleanPhone | src/lib/utils.ts:62 | the cleaned phone is no longer than the input, holds no space, hyphen or parenthesis, and only characters of the input |
| TimeUtils.CleanPhoneAppend | src/lib/utils.ts:62 | cleaning distributes over concatenation |
| TimeUtils.CleanPhoneKeepsDigits | src/lib/utils.ts:62 | a run of digits is left unchanged by cleaning |
| TimeUtils.CleanPhoneIdempotent | src/lib/utils.ts:62 | cleaning twice is cleaning once |
| TimeUtils.ValidPhoneShape | src/lib/utils.ts:61-64 | an accepted phone cleans to 9, 12 or 13 characters, the last nine of them digits |
| TimeUtils.SeparatorIgnored | src/lib/utils.ts:62 | inserting a space, hyphen or parenthesis never changes the verdict |
| TimeUtils.NineDigitsAccepted | src/lib/utils.ts:63 | nine digits are accepted, alone or after "998" |
| TimeUtils.InternationalAccepted | src/lib/utils.ts:63 | "+998" followed by nine digits is accepted |
| TimeUtils.DigitCountRejected | src/lib/utils.ts:63 | a run of digits of any length other than 9 or 12 is rejected |
| Text.ShowNatRoundTrip | src/lib/utils.ts:26 | `Number(String(n))` is `n` |
| Text.PadStart2Value | src/lib/utils.ts:26 | padding a number's digits to two places keeps them digits and keeps their value |
| Text.PaddedTwoDigits | src/lib/utils.ts:26 | a number below 100 padded to two places is its tens digit then its units digit |
| Text.ParseIntOfDigits | src/app/api/bookings/route.ts:122 | `parseInt` and `Number` of a non-empty run of digits both give its value |
| Text.SplitAtFirstSeparator | src/lib/utils.ts:46 | `split(":")` of text joined at a colon gives the part before it, then the split of the rest |
| Domain.ConflictsWith | src/app/api/bookings/route.ts:98-108 | a conflicting booking is never cancelled, and all four times read |
| Domain.HasConflict | src/app/api/bookings/route.ts:98-108 | the route's `some` over the store holds iff a search for a conflicting booking finds one |
| Domain.ClashSymmetric | src/app/api/bookings/route.ts:98-115 | two bookings clash regardless of order |
| Domain.AppendKeepsNoOverlap | src/app/api/bookings/route.ts:98-115 | appending a booking that is not held, or has no conflict in the store, keeps the store free of overlaps |
| Domain.UnrelatedBookingNeverConflicts | src/app/api/bookings/route.ts:98-105 | a cancelled booking, or one on another field or date, never changes the conflict answer |
| Auth.DefaultCredentials | src/lib/auth.ts:6-7 | with neither variable set, the pair is admin / admin123 |
| Auth.TokenFromRequest | src/lib/auth.ts:43-51 | a token is either the header with "Bearer " put back in front of it, or the cookie; with no header and no non-empty cookie there is none |
| Auth.BearerTokenWins | src/lib/auth.ts:43-47 | a "Bearer " header yields the text after the prefix, whatever the cookie |
| Auth.CookieFallback | src/lib/auth.ts:48-50 | without a bearer header the token is the non-empty cookie, else none |
| Auth.RequireAdmin | src/lib/auth.ts:53-71 | the gate answers pass, 401 or 403 only; 401 iff there is no non-empty token; 403 iff a token fails to verify or its role is not "admin" |
| Auth.RequireAdminPasses | src/lib/auth.ts:53-71 | the gate passes iff a non-empty token verifies to claims with role "admin" |
| Auth.AuthenticateAdmin | src/lib/auth.ts:19-33 | a token is issued iff both username and password equal the configured pair; it is the signature of the admin claims |
| Auth.IssuedTokenPasses | src/lib/auth.ts:28-30 | a token issued for the configured pair, sent as a bearer header, passes the gate when verification inverts signing |
| Availability.IsPastMidnight | src/app/api/availability/route.ts:16-20 | crossing needs both times readable, and a crossing schedule generates no one-hour slots |
| Availability.PastMidnightOfMinutes | src/app/api/availability/route.ts:16-20 | on formatted times the schedule crosses midnight iff closing ≤ opening |
| Availability.DefaultScheduleDoesNotCross | src/app/api/availability/route.ts:49-51 | 06:00 to 24:00 does not cross midnight |
| Availability.IsNextDaySlot | src/app/api/availability/route.ts:23-29 | a slot is on the next day only when the schedule crosses midnight |
| Availability.NextDaySlotByHour | src/app/api/availability/route.ts:23-29 | on a crossing schedule, a slot is on the next day iff its hour ≤ the closing hour |
| Availability.GetAvailability | src/app/api/availability/route.ts:31-141 | the only errors are 400 for a missing date and a server error for a date without a next date; an answer carries the query's date and one entry per shown field |
| Availability.DateRequired | src/app/api/availability/route.ts:37-42 | a missing or empty date gives 400 and nothing else; a date with a next date gives a grid |
| Availability.DefaultsWithoutSettings | src/app/api/availability/route.ts:49-50 | without settings the answer uses 06:00–24:00, 200000 / 300000, durations [60, 120] and UZS |
| Availability.ShownFields | src/app/api/availability/route.ts:55-80 | no more fields than stored, each shown field stored, active and selected by the field filter |
| Availability.FetchedBookings | src/app/api/availability/route.ts:60-73 | the query returns stored bookings only, each held and on the date or the next date, and every held booking of the date for a selected field |
| Availability.ShownFieldsAreActiveSelectedAndOrdered | src/app/api/availability/route.ts:55-58 | a field is shown iff it is active and selected by the field filter, and the shown fields are ordered by `order` |
| Availability.FieldSlots | src/app/api/availability/route.ts:84-117 | one view per generated slot |
| Availability.SlotFor | src/app/api/availability/route.ts:84-117 | the view keeps the slot's start, end and date; it has no booking iff none of the field's bookings on the date overlaps the slot, and otherwise shows the status and summary of one that does |
| Availability.Occupant | src/app/api/availability/route.ts:90-93 | the booking a slot shows is a stored, held booking |
| Availability.OccupantIsFirst | src/app/api/availability/route.ts:90-93 | the booking shown is the first, in store order, that is held, of the field, on the slot's date and overlapping the slot |
| Availability.PricingOf | src/app/api/availability/route.ts:134-139 | without settings the answer's pricing is 200000 / 300000, "[60,120]", "UZS"; with settings each field is the stored one, or its default when that is 0 or "" |
| Availability.FieldSlotIsOccupant | src/app/api/availability/route.ts:64-73 | narrowing by the bookings query and then by field finds the first held booking of the whole store that overlaps the slot on its date |
| Availability.GridSlotsFollowOccupants | src/app/api/availability/route.ts:76-117 | each shown field's slot `k` has the generated slot's start and end, its real date, and the status and summary of its occupant in the whole store |
| Availability.FreeIffUnoccupied | src/app/api/availability/route.ts:95-108 | a slot is "free" iff nothing occupies it, has no booking then, and is never shown cancelled |
| Availability.CrossingScheduleHasNoSlots | src/app/api/availability/route.ts:76 | a crossing schedule gives every field an empty slot list |
| Listing.DateThenStartIsTotalPreorder | src/app/api/bookings/route.ts:21 | date then start time (date ascending or descending) is a total preorder |
| Listing.List | src/app/api/admin/bookings/route.ts:16-25 | the list is no longer than the store and holds only stored bookings that match the query |
| Listing.ListIsMatchingAndOrdered | src/app/api/admin/bookings/route.ts:16-25 | a booking is listed iff stored and matching every given filter; the list is in order, and each matching booking appears as often as it is stored |
| PublicBookings.ListBookings | src/app/api/bookings/route.ts:13-22 | the public list is no longer than the store and holds only bookings matching the query |
| PublicBookings.ListBookingsIsMatchingAndOrdered | src/app/api/bookings/route.ts:13-22 | the public list holds exactly the matching bookings, each as often as stored, by date then start time ascending |
| PublicBookings.IsEvening | src/app/api/bookings/route.ts:122-130 | a NaN start hour is never evening; an evening start has hour 18 or later |
| PublicBookings.DurationMinutes | src/app/api/bookings/route.ts:122-125 | the duration is readable iff all four `parseInt` parts are; a time to itself lasts 0 minutes; within one hour it is the difference of the minutes |
| PublicBookings.ServerPrice | src/app/api/bookings/route.ts:122-132 | a price exists iff the duration reads, and it is the integer nearest to rate × minutes / 60 |
| PublicBookings.Rate | src/app/api/bookings/route.ts:127-130 | evening price from 18:00 (a NaN hour is day), day price before; 300000 / 200000 when settings are absent, and also when the stored price is 0, since the `or` fallback treats 0 as missing |
| PublicBookings.RoundedPrice | src/app/api/bookings/route.ts:132 | the price is the integer nearest to rate × minutes / 60, halves up |
| PublicBookings.WholeHoursExact | src/app/api/bookings/route.ts:132 | a whole number of hours is charged exactly rate × hours |
| PublicBookings.DurationOfFormattedTimes | src/app/api/bookings/route.ts:123-125 | between two formatted times the route reads end − start minutes, with no midnight wrap |
| PublicBookings.EveningOfFormattedTime | src/app/api/bookings/route.ts:122-130 | a formatted start is charged the evening rate iff it is at or after 18:00 |
| PublicBookings.PriceOfDuration | src/app/api/bookings/route.ts:122-132 | once the duration is read, the stored price is the start's rate × minutes / 60, rounded |
| PublicBookings.ParsedPartsOfFormatTime | src/app/api/bookings/route.ts:122-125 | `parseInt` of each part of a formatted time gives its hour and minute |
| PublicBookings.ParsedPartsOfDigits | src/app/api/bookings/route.ts:122-125 | `parseInt` of each part of two digit runs joined by a colon gives their values |
| PublicBookings.SamplePrices | src/app/api/bookings/route.ts:122-132 | with 200000 / 300000, 14:00–16:00 costs 400000 and 18:00–19:00 costs 300000 |
| PublicBookings.Decide | src/app/api/bookings/route.ts:50-151 | missing fields give 400 first, a bad phone 400 next; success means an open field, a start in the window, no conflict, a pending record at the computed price with the given contact |
| PublicBookings.Create | src/app/api/bookings/route.ts:35-151 | with `name` / `phone` validated: a missing one gives 400; a created booking has a valid phone, is pending under the given id, stores that contact and conflicts with no held booking of the store |
| PublicBookings.CreateAsWritten | src/app/api/bookings/route.ts:35-151 | as written: a missing `customerName` / `customerPhone` gives 400; a created booking has a valid `customerPhone`, is pending, stores `name` / `phone` and conflicts with no held booking of the store |
| PublicBookings.CreateErrors | src/app/api/bookings/route.ts:66-132 | past the first two checks, each answer holds iff its check is the first to fail: 404 field not open, too soon (under 30 minutes), too far (over 30 days), 409 a held booking overlaps, server error an unreadable time |
| PublicBookings.CreateSucceeds | src/app/api/bookings/route.ts:135-151 | passing every check creates a pending booking with the route's price, "" defaults and the form's contact |
| PublicBookings.CreatedWithinWindow | src/app/api/bookings/route.ts:74-95 | a created booking with a valid start is between 30 minutes and 30 days away |
| PublicBookings.CreateKeepsNoOverlap | src/app/api/bookings/route.ts:98-151 | appending what the route creates keeps the store free of overlaps |
| PublicBookings.CreateAsWrittenKeepsNoOverlap | src/app/api/bookings/route.ts:98-151 | appending what the route as written creates keeps the store free of overlaps too |
| PublicBookings.CreateIgnoresUnrelated | src/app/api/bookings/route.ts:98-105 | a cancelled booking, or one on another field or date, never changes the answer |
| PublicBookings.FormRejectedAsWritten | src/app/api/bookings/route.ts:43-55 | as written, every body the booking form sends is refused as missing fields |
| PublicBookings.AcceptedAsWrittenWithoutContact | src/app/api/bookings/route.ts:142-143 | as written, a request passing with `customerName` / `customerPhone` hands the database a record with no contact: both contact fields are absent |
| PublicBookings.FormAcceptedWhenCorrected | src/app/api/bookings/route.ts:50-58 | the corrected route answers a form body as the as-written route answers the same data under the validated keys |
| AdminRoutes.BlockRecord | src/app/api/admin/blocked/route.ts:42-55 | a block is held, price 0, customer "Admin" with phone "", reason or "Yopiq", at the requested field, date and times |
| AdminRoutes.Block | src/app/api/admin/blocked/route.ts:8-55 | the auth error comes first, then 400 for missing fields; 409 iff a held booking of the field and date overlaps; otherwise the block record |
| AdminRoutes.BlockKeepsNoOverlap | src/app/api/admin/blocked/route.ts:23-55 | appending a created block keeps the store free of overlaps |
| AdminRoutes.BlockIgnoresUnrelated | src/app/api/admin/blocked/route.ts:24-28 | a cancelled booking, or one on another field or date, never changes the answer |
| AdminRoutes.AdminRecord | src/app/api/admin/bookings/route.ts:83-97 | status defaults to "confirmed" and price to 0; each of customer name, phone, team name and note is stored as given when non-empty and as "" otherwise; no block reason |
| AdminRoutes.AdminCreate | src/app/api/admin/bookings/route.ts:57-97 | the auth error comes first, then 400 for missing fields, otherwise the record; the store is not consulted |
| AdminRoutes.AdminCreateCanBreakNoOverlap | src/app/api/admin/bookings/route.ts:83-97 | a store holding one held booking has no overlap; a direct create overlapping it on its field and date, with a held or defaulted status, is accepted and leaves an overlap |
| AdminRoutes.AdminList | src/app/api/admin/bookings/route.ts:6-37 | the auth error comes first; otherwise the filtered list, date descending, and the counters: today's confirmed or pending, all pending, today's confirmed |
| AdminRoutes.AdminListIsMatchingAndOrdered | src/app/api/admin/bookings/route.ts:16-25 | the admin list holds exactly the matching bookings, each as often as stored, latest date first, earliest start within a date |
| AdminRoutes.TodayBookings | src/app/api/admin/bookings/route.ts:28-31 | at most the store size, and zero when no booking is on today's date |
| AdminRoutes.PendingCount | src/app/api/admin/bookings/route.ts:32-34 | at most the store size, and zero when no booking is pending |
| AdminRoutes.ConfirmedToday | src/app/api/admin/bookings/route.ts:35-37 | at most the store size, and zero when no booking is confirmed |
| AdminRoutes.StatsIgnoreQuery | src/app/api/admin/bookings/route.ts:28-37 | the counters are the same whatever filters the list query carries |
| AdminRoutes.StatsCountStoredBookings | src/app/api/admin/bookings/route.ts:28-37 | each counter is the number of stored bookings it describes |
| AdminRoutes.StatsBounds | src/app/api/admin/bookings/route.ts:28-37 | confirmedToday ≤ todayBookings ≤ the store size, and pendingCount ≤ the store size |
| BookingStore.Store.constructor | src/app/api/bookings/route.ts:135 | the store starts with the given bookings |
| BookingStore.Store.Commit | src/app/api/bookings/route.ts:135-151 | exactly one record is appended on success, nothing otherwise |
| BookingStore.Store.CreatePublic | src/app/api/bookings/route.ts:35-151 | the answer is the corrected create's; the table gains exactly its record on success; no-overlap is preserved |
| BookingStore.Store.CreatePublicAsWritten | src/app/api/bookings/route.ts:35-151 | the answer is the as-written create's; the table gains exactly its record on success; no-overlap is preserved |
| BookingStore.Store.BlockPeriod | src/app/api/admin/blocked/route.ts:7-55 | the answer is the block route's; the table gains exactly its record on success; no-overlap is preserved |
| BookingStore.Store.CreateByAdmin | src/app/api/admin/bookings/route.ts:57-97 | the answer is the direct create's; the table gains exactly its record on success |
| TimeGrid.EndTime | src/components/TimeGrid.tsx:37-43 | the end reads back as the start's minute plus the duration; an unreadable start gives "NaN:NaN" |
| TimeGrid.EndTimeOfFormatted | src/components/TimeGrid.tsx:37-43 | the end of a formatted start is the formatted sum of start and duration |
| TimeGrid.EndTimeOfRead | src/components/TimeGrid.tsx:37-43 | a start that reads as minute m ends at the formatted minute m + duration |
| TimeGrid.EndTimeDoesNotWrap | src/components/TimeGrid.tsx:37-43 | 23:00 plus 120 minutes shows "25:00" |
| TimeGrid.SlotsNeeded | src/components/TimeGrid.tsx:50-51 | the loop visits index `i` iff 60·i < duration |
| TimeGrid.FitsDuration | src/components/TimeGrid.tsx:47-57 | an hour or less always fits; a longer booking fits only where the slot and the next one exist and are free |
| TimeGrid.IsClickable | src/components/TimeGrid.tsx:134-137 | a clickable slot is free, and a free slot is clickable for an hour or less |
| TimeGrid.CanFitDuration | src/components/TimeGrid.tsx:47-57 | true for an hour or less; otherwise true iff all needed slots from the index exist and are free |
| TimeGrid.TwoHourFit | src/components/TimeGrid.tsx:47-57 | a two-hour booking fits at a free slot iff the next slot exists and is free |
| TimeGrid.EffectiveStatus | src/components/TimeGrid.tsx:134-137 | a clickable slot shows free, a free slot that cannot fit shows unavailable, other statuses pass through |
| TimeGrid.Click | src/components/TimeGrid.tsx:145 | a click hands over the slot iff it is free and fits |
| TimeGrid.AvailableCount | src/components/TimeGrid.tsx:111-113 | the count is at most the number of slots |
| TimeGrid.AvailableAtMostFree | src/components/TimeGrid.tsx:111-113 | the count never exceeds the free slots, and equals them for an hour or less |
| TimeGrid.AvailableFromBounds | src/components/TimeGrid.tsx:111-113 | the same bound on every suffix of the grid |
| AdminCalendar.CrossesMidnight | src/app/admin/calendar/page.tsx:69-73 | crossing iff both hours read and the closing hour ≤ the opening hour |
| AdminCalendar.CalendarHours | src/app/admin/calendar/page.tsx:28-46 | NaN hours give no rows; the first row is the opening hour's label; equal opening and closing hours give a full day of 24 rows |
| AdminCalendar.GenerateCalendarHours | src/app/admin/calendar/page.tsx:28-46 | the rows are the labels from the opening hour up to the end hour |
| AdminCalendar.HoursBetween | src/app/admin/calendar/page.tsx:39-43 | the loop pushes exactly the labels from `openH` up to `end` |
| AdminCalendar.HoursFromLength | src/app/admin/calendar/page.tsx:39-43 | the loop pushes end − h labels when h < end, none otherwise |
| AdminCalendar.HoursFromAt | src/app/admin/calendar/page.tsx:40-41 | row `i` is the label of hour h + i |
| AdminCalendar.CalendarRows | src/app/admin/calendar/page.tsx:36-43 | there are endHour − openH rows, row `i` labelled (openH + i) mod 24 |
| AdminCalendar.CalendarRowExamples | src/app/admin/calendar/page.tsx:36-43 | 06 to 24 gives 18 rows; 16 to 02 gives 10 |
| AdminCalendar.HourLabelPadded | src/app/admin/calendar/page.tsx:40-41 | the row label is the hour mod 24 written with `padStart(2, "0")`, then ":00" |
| AdminCalendar.HourLabelInDay | src/app/admin/calendar/page.tsx:40-41 | every label reads back as hour h mod 24 with zero minutes |
| AdminCalendar.DateForHour | src/app/admin/calendar/page.tsx:128-135 | the row's date is the date when not crossing or when either hour is NaN; when crossing, the next date iff the row's hour < the closing hour |
| AdminCalendar.CrossingRowDate | src/app/admin/calendar/page.tsx:128-135 | on a crossing schedule, row `i` (hour openH + i) gets the next date iff openH + i ≥ 24, i.e. iff it lies past midnight |
| AdminCalendar.EndHourOf | src/app/admin/calendar/page.tsx:145 | the end hour is never 0: a NaN or 0 end hour counts as 24 |
| AdminCalendar.CoversHour | src/app/admin/calendar/page.tsx:144-146 | covering needs a readable row hour and start hour; a booking covers its own start hour iff its end hour is later |
| AdminCalendar.BookingForSlot | src/app/admin/calendar/page.tsx:137-148 | the found booking is loaded, of the field and date, and covers the hour; none iff no loaded booking does |
| AdminCalendar.BookingForSlotIsFirst | src/app/admin/calendar/page.tsx:137-148 | the found booking is the first loaded one of the field and date that covers the hour |
| AdminCalendar.MidnightEndCoversLateHours | src/app/admin/calendar/page.tsx:145-146 | an end hour of 0 counts as 24, so the booking covers the late rows |
| AdminCalendar.CalendarBookings | src/app/admin/calendar/page.tsx:99-109 | a booking is kept iff it is on the date, or on the next date while crossing |
| AdminCalendar.HandleBlock | src/app/admin/calendar/page.tsx:165-181 | a request is sent iff field, start and end are chosen; the reason defaults to "Yopiq" |
| AdminCalendar.BlockFormRequestIsComplete | src/app/admin/calendar/page.tsx:165-181 | a request the form sends passes the block route's required-field check and keeps its reason |
| AdminCalendar.CrossingAgreesOnWholeHours | src/app/admin/calendar/page.tsx:69-73 | on whole hours the calendar and the server agree on crossing midnight |
| AdminCalendar.CrossingDisagreesWithinAnHour | src/app/admin/calendar/page.tsx:69-73 | 06:00 to 06:30 crosses for the calendar but not for the server |
| AdminCalendar.ClosingHourRowDates | src/app/admin/calendar/page.tsx:128-135 | the closing hour's row gets the date, while the server puts that slot on the next date |
| BookingPage.DefaultDurationOffered | src/app/booking/page.tsx:60 | 60 minutes is selected at first and is one of the two offered durations |
| BookingPage.SelectSlot | src/app/booking/page.tsx:103-115 | a slot is selected iff free, with its end moved to start plus the duration |
| BookingPage.SelectedEndFollowsDuration | src/app/booking/page.tsx:107-113 | a selected slot starting at a formatted minute ends at the formatted sum |
| BookingPage.SelectedReadsDuration | src/app/booking/page.tsx:107-113 | the selection of a generated slot reads back as exactly the chosen duration |
| BookingPage.ClientPrice | src/app/booking/page.tsx:121-127 | 0 without pricing or a slot; otherwise rate × duration / 60, unrounded |
| BookingPage.ClientRateIsServerRate | src/app/booking/page.tsx:123-125 | the page's rate is the rate the create route charges |
| BookingPage.ServerPriceOfWholeHours | src/app/api/bookings/route.ts:122-132 | between times read a whole number of hours apart the route charges exactly rate × hours |
| BookingPage.ClientPriceOfWholeHours | src/app/booking/page.tsx:126 | for whole hours the page shows rate × hours |
| BookingPage.OfferedDurationsPriceAlike | src/app/booking/page.tsx:121-127 | for 60 and 120 minutes the shown price is the price the route stores |
| BookingPage.SelectionPriceAlike | src/app/booking/page.tsx:121-127 | any selection that reads back as 60 or 120 minutes is charged alike by the page and the route |
| BookingPage.WholeHoursPriceAlike | src/app/booking/page.tsx:121-127 | a selection read a whole number of hours long is charged alike by the page and the route |
| BookingPage.ClientPriceUnrounded | src/app/booking/page.tsx:126 | at rate 1, ninety minutes show 1.5 while the route stores 2 |
| AdminBookingsPage.OfferedActions | src/app/admin/bookings/page.tsx:221-253 | delete is always offered; a change to s is offered iff pending to confirmed or cancelled, or confirmed to cancelled |
| AdminBookingsPage.SettledBookingsOnlyDelete | src/app/admin/bookings/page.tsx:221-247 | cancelled and blocked bookings offer only delete |
| AdminBookingsPage.DeleteRequest | src/app/admin/bookings/page.tsx:83-84 | the delete is sent iff the user confirms, for that id |
| AdminBookingsPage.OfferedChangeHeld | src/app/admin/bookings/page.tsx:221-247 | an offered change never makes a booking held that was not |
| AdminBookingsPage.OfferedChangeKeepsNoOverlap | src/app/admin/bookings/page.tsx:221-247 | applying an offered change keeps the store free of overlaps |
| AdminBookingsPage.DeleteKeepsNoOverlap | src/app/admin/bookings/page.tsx:248-253 | removing a booking keeps the store free of overlaps |
| AdminBookingsPage.Lookup | src/app/api/admin/bookings/route.ts:12-14 | a key is found iff some parameter has it, with a value it carries |
| AdminBookingsPage.LookupIsFirst | src/app/api/admin/bookings/route.ts:12-14 | `searchParams.get` gives the value of the first parameter with the key |
| AdminBookingsPage.BuildQuery | src/app/admin/bookings/page.tsx:42-45 | the query holds date, status and field each iff its filter is non-empty, and nothing else |
| AdminBookingsPage.QueryReadsBackFilters | src/app/admin/bookings/page.tsx:42-45 | the admin list reading that query matches a booking iff it agrees with every non-empty filter |

## Left out

- JSON bodies are records of optional texts. Non-text JSON values (numbers, booleans, `null` as distinct from absent) and `JSON.parse` of `slotDurations` are not modelled. The durations default is the literal `[60, 120]`.
- Prices are exact integers, or reals on the booking page. Floating-point error in `rate * (minutes / 60)` before `Math.round` is not modelled.
- `Number(...)` reads digits only. Leading or trailing whitespace, signs, hex and exponent forms read as `NaN`, where JavaScript reads a value for most of them.
- `parseInt(...)` (called without a radix) reads only a leading run of ASCII digits. Text with leading whitespace or a sign reads as `NaN`, and a `0x` prefix reads as 0. JavaScript skips the whitespace, applies the sign and reads `0x` text as hexadecimal. A request time such as `" 09:00"`, `"+09:00"` or `"0x9:00"` is therefore read differently by the model than by the route. Times the model formats itself read the same in both.
- `Date`:
  - The booking start instant, `now`, the next date and today's date are parameters (`instantOf`, `now`, `nextDate`, `today`).
  - An invalid date makes `instantOf` return `None`. Both time guards then pass, as in the source.
  - The 30-day horizon is a fixed 30 × 24 hours, so daylight-saving shifts of the local calendar are not modelled.
- JWT signing and verification, and bcrypt, are parameters (`sign`, `verify`). Token expiry is left out.
- The database's order among rows with equal date and start time is not modelled. The lists are specified as sorted, and the stable sort used here is one valid order. Field order is sorted the same way.
- Availability.OccupantIsFirst: the bookings query of the availability route has no `orderBy`, so the order in which the slot's `find` meets candidates is whatever the database returns. The model assumes that order is the store's insertion order. When two held bookings of one field and date overlap the same slot, which the admin direct create allows, or which `NoOverlap` allows when they fall in different parts of the slot (10:00–10:30 pending and 10:30–11:00 confirmed for the slot 10:00–11:00), the route may show either one, while the model shows the one stored first. The same holds for `Availability.FieldSlotIsOccupant` and `Availability.GridSlotsFollowOccupants`, which are stated against that order.
- A race between the conflict query and the insert is left out; every route runs alone.
- Database failures (the 500 answers) are left out, apart from a price that cannot be computed. The store refuses that case with a server error.
- A request body that does not parse as JSON is left out: `req.json()` throws inside the `try` of the public create, the block and the admin direct create (src/app/api/bookings/route.ts:37, src/app/api/admin/blocked/route.ts:12, src/app/api/admin/bookings/route.ts:62), and each answers 500. In the model a body is always a record of optional texts.
- PublicBookings.AcceptedAsWrittenWithoutContact: the model stores the record the route hands to the database, with `customerName` and `customerPhone` absent, as if the booking table accepted missing values. The table's schema is not part of this model. If those columns are required, as every other writer of them suggests, the database refuses the record and the route answers 500 with nothing stored, while `CreateAsWritten` and `BookingStore.Store.CreatePublicAsWritten` answer Ok and append it.
- AdminBookingsPage.OfferedChangeKeepsNoOverlap assumes the status-change route only sets the status. The `/api/admin/bookings/[id]` route that applies changes and deletes is not part of this model.
- Settings, fields and login routes, Telegram notifications, the bot and `formatPrice` are not part of this model.
- React rendering, styling, polling and the booking modal are not part of this model. The modal is consulted only for the keys it sends.
- Admin direct create has no conflict check (src/app/api/admin/bookings/route.ts:83-97). `AdminRoutes.AdminCreateCanBreakNoOverlap` shows it can leave an overlap, so the store keeps `NoOverlap` only for the public create and the block.

## Findings

| source | as written | input that shows it | evidently intended | confidence | as-written member | corrected member |
|---|---|---|---|---|---|---|
| src/app/api/bookings/route.ts:43-58, 142-143 | the route requires and validates `customerName` / `customerPhone` but stores `body.name` / `body.phone`; the booking form sends only `name` / `phone` | any form body, e.g. fieldId, date, startTime, endTime, name "Ali", phone "901234567", and no customerName / customerPhone: answered 400 missing fields | validate and store the same keys, the ones the form sends | not executed | PublicBookings.FormRejectedAsWritten | PublicBookings.FormAcceptedWhenCorrected |
