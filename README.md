# Slot availability and auth guard of the appointment widget, in Dafny

This project models the two pieces of logic in the appointment-booking widget:

- **The calendar edge function** (`supabase/functions/google-calendar/index.ts`).
  It dispatches on the request's `action`. For `getAvailableSlots` it builds a
  day template of eight one-hour slots (start hours 9 to 16, labelled `9:00` to
  `17:00`, ids `${date}-${hour}`, all available). It then marks each slot
  against the busy intervals of the calendar's free/busy reply, using the
  function's own two-clause overlap test. Every thrown error ends in an
  `{ error }` envelope with status 500.
- **The browser helpers** (`src/utils/googleCalendarAuth.ts`). A stored
  authorisation code (the `google_auth_code` storage entry) guards
  `getAvailableSlots` and `bookAppointment`. Without a code both refuse with
  `Not authenticated`. With one, `getAvailableSlots` answers a mock day built
  on the same hour template, and `bookAppointment` answers `true`.

Layout, one module per file:

- `results.dfy` (`Results`): `Option` and `Result`.
- `decimal.dfy` (`Decimal`): how `${hour}` renders an hour, and how a label
  such as `9:00` reads back as minutes after midnight (`ParseClock`).
- `slots.dfy` (`Slots`): the `TimeSlot` record of `src/types/calendar.ts` and
  the hour template that both files build.
- `busy_marking.dfy` (`BusyMarking`): the marking as written, and the
  corrected half-open intersection test.
- `gateway.dfy` (`Gateway`): the template loop, the action dispatcher, the
  error envelope, and the corrected handler.
- `client_auth.dfy` (`ClientAuth`): the `AuthStorage` class and the mock-slot
  loop.

Modelling choices:

- Time is integer minutes after midnight of the queried day.
- The edge function reads a slot's bounds back from its `startTime`/`endTime`
  labels as JavaScript Dates (`BusyMarking.SlotStart`, `BusyMarking.SlotEnd`).
  Among labels `H:MM`, V8 (the engine under Deno) accepts exactly those with
  a two-digit hour, so the unpadded label `9:00` gives an invalid Date
  (`None`). ECMA-262 alone would let an engine fall back to its own reading of
  such a string; the model follows V8. That makes the clause that uses
  it false, just as every comparison with an invalid `Date` is false.
- What a label stands for, whatever the width of its hour, is
  `Decimal.ParseClock`. The template lemmas and the corrected marking use it.
- The Google free/busy query and event insertion are function-valued inputs
  (`Gateway.Upstream`). Each one returns a value or the message of the error
  it throws.
- `Math.random()` is an input: eight draws, one per hour. A slot is available
  when its draw is `> 0.3`.

## Model

| member | source | states |
|---|---|---|
| Decimal.Digits | supabase/functions/google-calendar/index.ts:61-63 | `${hour}` renders a non-negative hour as a non-empty string of decimal digits with no leading zero (a leading `0` only in `"0"` itself) |
| Decimal.DigitsRoundTrip | supabase/functions/google-calendar/index.ts:61-63 | reading the rendered digits back gives the hour again |
| Decimal.DigitsInjective | supabase/functions/google-calendar/index.ts:61 | two different hours never render the same |
| Decimal.ParseClock | supabase/functions/google-calendar/index.ts:62-63 | the minute a label `H:MM` stands for, whatever the width of its hour, lies between 0 and 24*60 |
| Decimal.ClockRoundTrip | supabase/functions/google-calendar/index.ts:71-72 | the label `${hour}:00` reads back as minute hour*60, for every hour up to 24 |
| Decimal.FiveCharClockShape | supabase/functions/google-calendar/index.ts:71-72 | a five-character label that reads as a time of day is two digits, a colon and two digits, and denotes HH*60+mm |
| Decimal.ParseIsoTime | supabase/functions/google-calendar/index.ts:71-72 | a label that V8 reads as a valid Date time part after `${day}T` has the shape `HH:mm` (two digits, a colon, two digits) and denotes HH*60+mm; among labels `H:MM`, V8 accepts exactly those with a two-digit hour |
| Decimal.IsoTimeOfLabel | supabase/functions/google-calendar/index.ts:71-72 | the label `${hour}:00` is a valid Date time part iff the hour has two digits (10 to 24), and then denotes hour*60; hours 0 to 9 give an invalid Date |
| Slots.SlotIdInjective | supabase/functions/google-calendar/index.ts:61 | within one day, slot ids `${date}-${hour}` of different hours differ |
| Slots.HourSlotsShape | supabase/functions/google-calendar/index.ts:56-65 | the hour template has 8 slots; slot k runs from minute (9+k)*60 to (10+k)*60, so the slots are ascending and back to back; its flag is the k-th given availability |
| Slots.HourSlotsBounds | supabase/functions/google-calendar/index.ts:62-63 | every template slot's labels read back as the start and end of its hour |
| Slots.HourSlotBounds | supabase/functions/google-calendar/index.ts:62-63 | the labels of the slot for one hour read back as that hour's start and end minutes |
| Slots.HourSlotsIdsDistinct | src/utils/googleCalendarAuth.ts:54 | no two slots of one template share an id |
| Slots.HourSlotsIsoBounds | supabase/functions/google-calendar/index.ts:71-72 | read as Dates, every end label of the template is valid, and every start label except the first (`9:00`) |
| Slots.HourSlotsLabels | supabase/functions/google-calendar/index.ts:62-63 | the labels are unpadded: the day starts at "9:00" and ends at "17:00" |
| Gateway.BuildTemplate | supabase/functions/google-calendar/index.ts:55-66 | the loop over hours 9 to 16 pushes exactly the template of the request's date |
| Gateway.TemplateShape | supabase/functions/google-calendar/index.ts:55-66 | the template has exactly 8 slots, start hours 9..16 ascending, one hour each, ids `${date}-${hour}` pairwise distinct, all available; read as Dates, every bound is valid except the start of the 9:00 slot |
| BusyMarking.AnyOverlap | supabase/functions/google-calendar/index.ts:74-81 | `busySlots.some` holds iff some busy interval satisfies the two-clause test |
| BusyMarking.MarkSlot | supabase/functions/google-calendar/index.ts:83 | the spread copy keeps id, startTime and endTime; it is available iff no busy interval overlaps it |
| BusyMarking.MarkAvailability | supabase/functions/google-calendar/index.ts:70-84 | marking keeps the length and order, changes nothing but `isAvailable`, and a slot is unavailable iff some busy interval has busyStart <= slotStart < busyEnd or busyStart < slotEnd <= busyEnd |
| BusyMarking.NoBusyKeepsAllAvailable | supabase/functions/google-calendar/index.ts:69-84 | with an empty busy list every slot stays available |
| BusyMarking.MarkingMonotonic | supabase/functions/google-calendar/index.ts:74-81 | adding busy intervals can only close slots, never open one |
| BusyMarking.RemarkingIgnoresPreviousFlags | supabase/functions/google-calendar/index.ts:70-84 | marking ignores the old flags: re-marking a marked list equals marking the original, so repeated queries over the same data agree |
| BusyMarking.TouchingBoundaryDoesNotOverlap | supabase/functions/google-calendar/index.ts:77-80 | for a slot whose start and end both read as Dates, a busy interval ending at the slot's start or starting at its end does not close the slot (`Gateway.TemplateTouchingBoundaryDoesNotOverlap` covers every template slot, 9:00 included) |
| BusyMarking.InteriorBusyDoesNotOverlap | supabase/functions/google-calendar/index.ts:77-80 | for a slot whose start and end both read as Dates, a busy interval strictly inside it satisfies neither clause (`Gateway.TemplateInteriorBusyDoesNotOverlap` covers every template slot) |
| BusyMarking.OverlapSharesMinute | supabase/functions/google-calendar/index.ts:77-80 | for a slot whose start and end both read as Dates, whatever the test finds overlapping really shares a minute with the slot (`Gateway.TemplateOverlapSharesMinute` covers every template slot) |
| BusyMarking.IntersectsIffShareMinute | supabase/functions/google-calendar/index.ts:77-80 | the corrected test holds iff slot and busy interval share a minute |
| BusyMarking.NoIntersectionIffNoSharedMinute | supabase/functions/google-calendar/index.ts:74-81 | for one slot, no busy interval intersects it under the corrected test iff none shares a minute with it |
| BusyMarking.MarkAvailabilityIntended | supabase/functions/google-calendar/index.ts:70-84 | the corrected marking keeps length, order and every field but the flag, and closes a slot whose labels read as times iff some busy interval shares at least one minute with it |
| BusyMarking.TestsDifferOnlyOnInterior | supabase/functions/google-calendar/index.ts:77-80 | for a slot whose start and end both read as Dates and a non-empty busy interval, the source's test implies the corrected one, and they differ exactly when the busy interval lies strictly inside the slot; on the 9:00 slot they also differ on busy intervals that start by 9:00 and end before 10:00 (`Gateway.TemplateTestsDiffer`) |
| Gateway.OneHourBusyClosesExactlyItsSlot | supabase/functions/google-calendar/index.ts:55-84 | a busy interval covering exactly one business hour closes that slot and leaves the other seven open |
| Gateway.InteriorMeetingLeavesSlotAvailable | supabase/functions/google-calendar/index.ts:77-80 | a meeting from hh:30 to hh:45 leaves hour hh available as written, and closes it under the corrected marking |
| Gateway.EarlyMeetingLeavesNineOClockOpen | supabase/functions/google-calendar/index.ts:71-80 | as written, a meeting starting by 9:00 and ending before 10:00 leaves the 9:00 slot available, because its start is an invalid Date; the corrected marking closes it |
| Gateway.TemplateOverlapSharesMinute | supabase/functions/google-calendar/index.ts:71-80 | on every template slot, the 9:00 slot with its invalid start included, the two-clause test is sound: it closes slot k only for a busy interval sharing a minute with hour 9+k |
| Gateway.TemplateMarkingSound | supabase/functions/google-calendar/index.ts:70-84 | marking the template closes slot k only when some busy interval shares a minute with hour 9+k |
| Gateway.TemplateTouchingBoundaryDoesNotOverlap | supabase/functions/google-calendar/index.ts:71-80 | on every template slot, a busy interval ending at the hour's start or starting at its end leaves the slot open |
| Gateway.TemplateInteriorBusyDoesNotOverlap | supabase/functions/google-calendar/index.ts:71-80 | on every template slot, a busy interval strictly inside the hour leaves the slot open |
| Gateway.TemplateTestsDiffer | supabase/functions/google-calendar/index.ts:71-80 | on the template and for a non-empty busy interval, the two-clause test implies the corrected one; they differ on slots 10:00 to 16:00 exactly for busy intervals strictly inside the hour, and on the 9:00 slot exactly for busy intervals ending strictly inside the hour |
| Gateway.Dispatch | supabase/functions/google-calendar/index.ts:33-107 | a missing or empty action gives `No action specified`; an unknown action gives `Unknown action: <action>`; the two known actions go to their branches |
| Gateway.BadActionIsError | supabase/functions/google-calendar/index.ts:33-113 | a missing or unknown action ends in the error envelope with status 500 and the matching message |
| Gateway.SlotsReplyShape | supabase/functions/google-calendar/index.ts:40-88 | `getAvailableSlots` with a date and a free/busy reply answers 8 template slots in order, each closed iff a busy interval of that calendar overlaps it |
| Gateway.NoBusyListAllAvailable | supabase/functions/google-calendar/index.ts:69 | when the reply has no calendars, no entry for the calendar, or no busy list, every slot is available |
| Gateway.UpstreamFailureIsError | supabase/functions/google-calendar/index.ts:108-113 | a failing free/busy query is answered with its own message and status 500 |
| Gateway.TwoPmMeetingClosesOnlyItsSlot | supabase/functions/google-calendar/index.ts:55-84 | on 2024-06-10, calendar "primary", busy 14:00-15:00: the 14:00 slot is closed, the other seven open |
| Gateway.BookingAlwaysFails | supabase/functions/google-calendar/index.ts:41-97 | as written, `bookAppointment` always answers the uninitialised-`startTime` error with status 500 |
| Gateway.CorrectedBookingForwardsRequest | supabase/functions/google-calendar/index.ts:90-103 | corrected, booking inserts an event with the request's calendar and times, and answers the created event or the calendar's error |
| ClientAuth.GenerateMockTimeSlots | src/utils/googleCalendarAuth.ts:47-62 | the counting loop over hours 9 to 16 yields exactly the mock day for the date and the draws |
| ClientAuth.MockSlotsShape | src/utils/googleCalendarAuth.ts:48-59 | the mock day has 8 slots, start hours 9..16 ascending, each ending an hour later, available iff its draw exceeds 0.3, with pairwise distinct ids |
| ClientAuth.AuthStorage.HandleAuthCallback | src/utils/googleCalendarAuth.ts:11-15 | the stored code becomes `code` and the call returns true; the store counts as signed in iff the code is non-empty |
| ClientAuth.AuthStorage.GetAvailableSlots | src/utils/googleCalendarAuth.ts:17-27 | fails with `Not authenticated` iff no non-empty code is stored, otherwise returns the mock day for `startDate`; it cannot change the stored code (no modifies clause) |
| ClientAuth.AuthStorage.BookAppointment | src/utils/googleCalendarAuth.ts:29-45 | fails with `Not authenticated` iff no non-empty code is stored, otherwise returns true; it cannot change the stored code |
| ClientAuth.SignInThenUse | src/utils/googleCalendarAuth.ts:11-45 | with nothing stored both the slot query and booking refuse with `Not authenticated`; after a callback with a non-empty code the query answers the mock day and booking succeeds |
| Slots.HourSlots | supabase/functions/google-calendar/index.ts:56-65 | the day's slots in hour order; its meaning is stated by `Slots.HourSlotsShape`, `Slots.HourSlotsIsoBounds` and `Slots.HourSlotsIdsDistinct` |
| Gateway.Template | supabase/functions/google-calendar/index.ts:55-66 | the unmarked day of the request's date; its meaning is stated by `Gateway.TemplateShape`, and `Gateway.BuildTemplate` is proved to compute it |
| BusyMarking.SlotStart | supabase/functions/google-calendar/index.ts:71 | the slot's start as a Date; its values on the template are stated by `Gateway.TemplateShape` |
| BusyMarking.SlotEnd | supabase/functions/google-calendar/index.ts:72 | the slot's end as a Date; its values on the template are stated by `Gateway.TemplateShape` |
| BusyMarking.Overlaps | supabase/functions/google-calendar/index.ts:77-80 | the two-clause test exactly as written; its meaning is stated by `BusyMarking.OverlapSharesMinute`, `BusyMarking.TestsDifferOnlyOnInterior` and the boundary lemmas |
| Gateway.BusyFor | supabase/functions/google-calendar/index.ts:69 | the calendar's busy list, `[]` when calendars, entry or list is missing; stated by `Gateway.NoBusyListAllAvailable` |
| Gateway.QuerySlots | supabase/functions/google-calendar/index.ts:40-88 | the `getAvailableSlots` branch; stated by `Gateway.SlotsReplyShape`, `Gateway.UpstreamFailureIsError` and `Gateway.TwoPmMeetingClosesOnlyItsSlot` |
| Gateway.Status | supabase/functions/google-calendar/index.ts:108-113 | 500 for every caught error, the default 200 otherwise; stated by `Gateway.BadActionIsError`, `Gateway.UpstreamFailureIsError` and `Gateway.BookingAlwaysFails` |
| Gateway.Respond | supabase/functions/google-calendar/index.ts:30-113 | the handler as written; stated by `Gateway.Dispatch`, `Gateway.BadActionIsError`, `Gateway.SlotsReplyShape` and `Gateway.BookingAlwaysFails` |
| Gateway.RespondCorrected | supabase/functions/google-calendar/index.ts:30-113 | the handler with both corrections; stated by `Gateway.CorrectedBookingForwardsRequest` and `BusyMarking.MarkAvailabilityIntended` |
| ClientAuth.MockSlots | src/utils/googleCalendarAuth.ts:47-62 | the mock day; its meaning is stated by `ClientAuth.MockSlotsShape`, and `ClientAuth.GenerateMockTimeSlots` is proved to compute it |
| ClientAuth.AuthStorage.IsAuthenticated | src/utils/googleCalendarAuth.ts:18-19 | `!authCode` is false: a code is stored and it is not empty; stated by the contracts of `HandleAuthCallback`, `GetAvailableSlots` and `BookAppointment` |

## Left out

- HTTP plumbing is not modelled: the `serve` handler, CORS headers, the OPTIONS short-circuit, JSON body parsing, `Response` construction and `console.error`. The handler's outcome is a `Gateway.Response` value, and `Gateway.Status` gives its status.
- The googleapis OAuth2 client, the environment credentials and the refresh token are not modelled. They are foreign code. The free/busy query and the event insertion are inputs, each returning a value or the message of what it throws.
- JavaScript `Date` work is abstracted: the day window of the free/busy query, `setHours`, `toISOString` and host time zones. Busy intervals are minutes on the queried day.
- The date part of `${day}T${label}` is taken as valid. Only the label decides whether the Date is valid: among labels `H:MM`, V8 accepts exactly those with a two-digit hour (`Decimal.ParseIsoTime`). Longer time parts (seconds, fractions, a zone suffix), which V8 also accepts, are not modelled because the labels never carry them.
- A `date` that is present but not a valid date is not modelled. Only an absent `date` is: `toISOString` then throws `Invalid time value`. Every present date is taken as valid.
- `Gateway.Dispatch` takes an action as a string or absent. Falsy values of other JSON types (`0`, `false`) are not modelled, and `null` counts as absent.
- The slot start computed and never used at index.ts lines 57-58 is omitted, because it has no effect.
- The optional `time` field of `TimeSlot` is omitted, because neither core file ever sets it.
- `initializeGoogleAuth` is not modelled: it only builds a URL and redirects the browser. `console.log` in `bookAppointment` is left out too.
- Browser storage is only the `googleAuthCode` field, with `None` for a missing entry.
- `Date.toISOString()` in the mock ids is an input string (`isoDate`).
- The unused `calendarId` and `endDate` parameters are kept in the signatures and have no effect.
- `Math.random()` is an input: eight draws, one per hour.
- The created event is only its id (`Gateway.EventData`), because its content comes from the calendar service.
- The code has no token exchange, token refresh, `getAuthUrl`/`getToken` action or timezone formatting, so none is modelled.

## Findings

| source | as written | input that shows it | evidently intended | confidence | as-written member | corrected member |
|---|---|---|---|---|---|---|
| supabase/functions/google-calendar/index.ts:77-80 | a slot counts as busy only if its start lies in [busyStart, busyEnd) or its end lies in (busyStart, busyEnd] | slot 10:00-11:00 against busy 10:30-10:45: neither clause holds, so the slot stays available | a slot is unavailable when it shares any time with a busy interval (half-open intersection) | high; not executed | Gateway.InteriorMeetingLeavesSlotAvailable | BusyMarking.MarkAvailabilityIntended |
| supabase/functions/google-calendar/index.ts:41-97 | `const startTime`/`const endTime` declared in the `getAvailableSlots` case shadow the request's fields for the whole `switch` block, so in the `bookAppointment` case `start: { dateTime: startTime }` reads an uninitialised binding and throws a ReferenceError | any request with action `bookAppointment`: answer `{ error: "Cannot access 'startTime' before initialization" }` with status 500, and no event is created | booking inserts an event with the request's `startTime`/`endTime` and answers `{ event }` | high; not executed | Gateway.BookingAlwaysFails | Gateway.CorrectedBookingForwardsRequest |
| supabase/functions/google-calendar/index.ts:62-78 | the start label of the first slot is the unpadded `9:00`, so the Date read from `${day}T9:00` is invalid and clause 1 never holds for the 9:00 slot | busy 9:00-9:30 (or 8:30-9:30): clause 2 fails because 10:00 is after the busy end, so the 9:00 slot stays available | the 9:00 slot is closed by a meeting overlapping it, as the 10:00 to 16:00 slots are (a two-digit hour label) | medium, resting on V8 (the engine under Deno) rejecting a time part whose hour is not two digits; not executed | Gateway.EarlyMeetingLeavesNineOClockOpen | BusyMarking.MarkAvailabilityIntended |
