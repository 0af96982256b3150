# mednova appointment booking: a Dafny model

mednova is a small medical-appointment web application. Patients pick a specialty, a
doctor, a day on a month calendar and a free time slot, and the server books the
appointment. This project models its core in Dafny and proves properties about it.
The core consists of:

- **the in-memory store** (`MemStorage`): one table per entity keyed by an id from a
  per-entity counter, plus the availability table keyed by (doctor, date);
- **the server handlers that carry logic**:
  - the open slots of a doctor on a date;
  - the two checks a booking passes before it is stored;
  - the status whitelist;
  - the month calendar;
  - the listings with their `parseInt` checks;
- **two client components**:
  - the availability calendar: month navigation, date text, past days, clicks and the day grid;
  - the booking form: the 12-hour time label, the slot-label table, the required fields and
    the submitted payload.

Modules, one per file:

| module | file | what it holds |
|---|---|---|
| `Wrappers` | wrappers.dfy | `Option` (JavaScript `undefined`/`null`/`NaN` are `None`) |
| `JsText` | js_text.dfy | `String(n)`, `padStart`, `split`, `parseInt` and string `<` as functions, with their round trips |
| `Gregorian` | gregorian.dfy | month lengths, weekdays and serial day numbers of the proleptic Gregorian calendar; the normalisation of the `Date` constructor; `YYYY-MM-DD` text (ISO 8601 calendar date, extended format) |
| `Schema` | schema.dfy | the records of `shared/schema.ts`, their insert forms and partial updates |
| `Tables` | tables.dfy | map values in key order, `filter`, `find`, subsequences |
| `Storage` | storage.dfy | `class MemStorage`: map fields and counters, `create*`/`update*` methods, getters |
| `Routes` | routes.dfy | the HTTP handlers and the no-double-booking invariant |
| `AvailabilityCalendar` | availability_calendar.dfy | the calendar component |
| `AppointmentForm` | appointment_form.dfy | the booking form helpers |

### How the source is represented

**Store tables.** Each id-keyed `Map` is a `map<int, _>` field, and each counter is an
`int` field.
- The class invariant `Valid()` says that a table holds exactly the ids `1 .. counter-1`.
  Listing in ascending id order is therefore the `Map`'s insertion order.
- The availability table is keyed by the pair `(doctorId, date)`, not by the text
  `` `${doctorId}-${date}` ``. It keeps its first-insertion order in a separate sequence,
  because a JavaScript `Map` keeps a key's place when the key is overwritten.

**Partial updates.** Spreading `{ ...record, ...partial }` is `Merge*`. In a partial
record, `None` means the key is absent.
- A partial that carries an `id` makes the stored record's `id` differ from its key.
- The `update*` methods state exactly when "every record's id equals its key"
  (`UserIdsMatch` etc.) survives: only when the partial has no `id` or repeats the same one.

**Inputs the source takes from the outside.** The clock (`new Date()`) is a parameter:
`now`, a timestamp on the server and an `Instant` (day number and milliseconds since
midnight) on the client.

**parseInt.** `parseInt` is modelled with its leading white space, sign, `0x` prefix and
digit-prefix rules. `NaN` is `None`.

**Calendar arithmetic.** It is written out over the Gregorian calendar, including two quirks
of the `Date` constructor:
- years 0..99 read as 1900..1999;
- months out of range roll over into the next or previous year.

### Holidays and blocked hours

An availability record declares `isHoliday` and `blockedHours` (shared/schema.ts:50-51), and
the doctor's availability page shows a holiday as "No hay horarios disponibles"
(client/src/pages/doctor/availability.tsx:151-155). The slots handler
(server/routes.ts:44-57) never reads either field, and the model follows the handler:
`Routes.OpenSlotsIgnoreHoliday` states that neither field changes the result.

The status route re-confirms an appointment without re-checking its slot. Creation keeps at
most one live appointment per (doctor, date, time) (`Routes.CreateAppointmentRoute`).
`Routes.ReconfirmBreaksNoDoubleBooking` exhibits two appointments for which a status update
breaks that invariant.

## Model

| member | source | states |
|---|---|---|
| Storage.NewUser | server/storage.ts:241-249 | the stored user keeps the inserted fields and gets the new id; the role is never empty and is "patient" exactly when none, an empty one or "patient" was given; empty email and phone become null |
| Storage.NewSpecialty | server/storage.ts:272-278 | the new id, the name, and an empty description stored as null |
| Storage.NewDoctor | server/storage.ts:300-307 | `isAvailable ?? true`: the flag is false exactly when false was given, and true otherwise; an empty license number becomes null |
| Storage.NewAppointment | server/storage.ts:348-359 | slot fields copied; the status is "confirmed" when missing or empty and the given one otherwise; empty reason and notes become null; createdAt == updatedAt == now |
| Storage.NewAvailability | server/storage.ts:401-409 | the record sits under (doctorId, date) with the new id; slots and blocked hours as given; the holiday flag is true only when true was given |
| Storage.IdOrNull | server/storage.ts:446 | `appointmentId \|\| null`: a present id other than 0 is kept, anything else is null |
| Storage.NewMedicalHistory | server/storage.ts:441-453 | the new id, the user, the appointment id with 0 turned into null, the five texts with empty turned into null, createdAt == now |
| Storage.MergeUser | server/storage.ts:258 | the merged user keeps its id exactly when the partial has no id or the same id; an empty partial changes nothing |
| Storage.MergeDoctor | server/storage.ts:316 | as MergeUser, for doctors |
| Storage.MergeAppointment | server/storage.ts:368-372 | as MergeUser, and updatedAt is `now` whatever the partial says |
| Storage.WithStatus | server/storage.ts:381-386 | only status, notes and updatedAt differ from the old record; missing or empty notes keep the old notes |
| Storage.UpdatedAvailability | server/storage.ts:421-426 | same id and key; slots replaced; blocked hours as given or null; the holiday flag kept when none is given |
| Storage.MergeMedicalHistory | server/storage.ts:462 | as MergeUser, for history entries |
| Storage.MemStorage.constructor | server/storage.ts:57-68 | empty tables, every counter at 1, invariant established |
| Storage.MemStorage.UserList | server/storage.ts:233-239 | `Array.from(users.values())`, which the user lookups scan, holds exactly the stored users |
| Storage.MemStorage.SpecialtyList | server/storage.ts:264-266 | `getSpecialties` holds exactly the stored specialties |
| Storage.MemStorage.DoctorList | server/storage.ts:284-286 | `getDoctors` holds exactly the stored doctors |
| Storage.MemStorage.AppointmentList | server/storage.ts:322-324 | `getAppointments` holds exactly the stored appointments |
| Storage.MemStorage.AvailabilityList | server/storage.ts:397-398 | the availability values hold exactly the stored records |
| Storage.MemStorage.MedicalHistoryList | server/storage.ts:433-434 | the history values hold exactly the stored entries |
| Storage.MemStorage.GetUser | server/storage.ts:229-231 | a user is found exactly when the id is a key, and it is the stored one |
| Storage.MemStorage.GetUserByUsername | server/storage.ts:233-235 | none exactly when no stored user has the name; otherwise the first user with that name in insertion order |
| Storage.MemStorage.GetUsersByRole | server/storage.ts:237-239 | exactly the stored users with the role, in insertion order |
| Storage.MemStorage.CreateUser | server/storage.ts:241-252 | the id is the old counter, never used before; the counter grows by one; the table gains exactly that entry; the listing gains it at the end; ids stay equal to keys |
| Storage.MemStorage.UpdateUser | server/storage.ts:254-261 | a missing id answers none and changes nothing; otherwise only that entry changes, to the merge, in place in the listing; ids stay equal to keys exactly when the partial carries no other id |
| Storage.MemStorage.GetSpecialty | server/storage.ts:268-270 | found exactly when the id is a key; the specialty carries that id |
| Storage.MemStorage.CreateSpecialty | server/storage.ts:272-281 | as CreateUser, for specialties |
| Storage.MemStorage.GetDoctor | server/storage.ts:288-290 | found exactly when the id is a key |
| Storage.MemStorage.GetDoctorsBySpecialty | server/storage.ts:292-294 | exactly the stored doctors of the specialty, in insertion order |
| Storage.MemStorage.GetDoctorByUserId | server/storage.ts:296-298 | none exactly when no stored doctor links to the user; otherwise the first such doctor in insertion order |
| Storage.MemStorage.CreateDoctor | server/storage.ts:300-310 | as CreateUser, for doctors |
| Storage.MemStorage.UpdateDoctor | server/storage.ts:312-319 | as UpdateUser, for doctors |
| Storage.MemStorage.GetAppointment | server/storage.ts:326-328 | found exactly when the id is a key |
| Storage.MemStorage.GetAppointmentsByUser | server/storage.ts:330-332 | exactly the user's stored appointments, in insertion order |
| Storage.MemStorage.GetAppointmentsByDoctor | server/storage.ts:334-336 | exactly the doctor's stored appointments, in insertion order |
| Storage.MemStorage.GetAppointmentsByDate | server/storage.ts:338-340 | exactly the stored appointments on the date, in insertion order |
| Storage.MemStorage.GetAppointmentsByDateRange | server/storage.ts:342-346 | exactly the stored appointments whose date lies between the bounds, both included, under JavaScript string order |
| Storage.MemStorage.CreateAppointment | server/storage.ts:348-362 | as CreateUser; the record is NewAppointment with the old counter as id |
| Storage.MemStorage.UpdateAppointment | server/storage.ts:364-375 | as UpdateUser, with MergeAppointment |
| Storage.MemStorage.UpdateAppointmentStatus | server/storage.ts:377-389 | a missing id answers none and changes nothing; otherwise only that entry changes, to WithStatus; ids stay equal to keys |
| Storage.MemStorage.GetAvailability | server/storage.ts:392-395 | found exactly when (doctorId, date) is a key; it is the one record for that pair |
| Storage.MemStorage.GetAvailabilityByDoctor | server/storage.ts:397-399 | exactly the doctor's records, in insertion order |
| Storage.MemStorage.CreateAvailability | server/storage.ts:401-413 | the key (doctorId, date) is overwritten with the new record; a new key goes to the end of the order, a replaced key keeps its place; the counter grows by one; a lookup returns the new record |
| Storage.MemStorage.UpdateAvailability | server/storage.ts:415-430 | a missing key answers none and changes nothing; otherwise only that record changes, to UpdatedAvailability |
| Storage.MemStorage.GetMedicalHistory | server/storage.ts:433-435 | exactly the user's entries, in insertion order |
| Storage.MemStorage.GetMedicalHistoryByAppointment | server/storage.ts:437-439 | none exactly when no entry refers to the appointment; otherwise the first such entry in insertion order |
| Storage.MemStorage.CreateMedicalHistory | server/storage.ts:441-456 | as CreateUser, for history entries |
| Storage.MemStorage.UpdateMedicalHistory | server/storage.ts:458-465 | as UpdateUser, for history entries |
| Routes.Response.StatusCode | server/routes.ts:46-87 | 200, 201, 400 and 404 correspond one to one to the four kinds of answer |
| Routes.BookedSlots | server/routes.ts:51-53 | a time is booked exactly when some appointment on the date that is not cancelled has it |
| Tables.FilterCounts | server/routes.ts:55 | `filter` keeps every occurrence of a kept element and no occurrence of any other |
| Routes.OpenSlots | server/routes.ts:44-57 | empty without a record or without slots; otherwise a subsequence of the declared slots holding exactly the declared slots that no live appointment on the date holds, each as many times as it is declared |
| Routes.OpenSlotsIgnoreHoliday | server/routes.ts:44-57 | the holiday flag and the blocked hours do not change the open slots |
| Routes.AvailabilityRoute | server/routes.ts:35-57 | 400 exactly when the doctor id does not parse; otherwise the open slots, stated against the store's tables |
| Routes.SlotHeld | server/routes.ts:76-80 | true exactly when some appointment of the list holds the time on the date |
| Routes.CreateAppointmentRoute | server/routes.ts:64-87 | "not available" exactly when the slot is not declared; "already booked" exactly when it is declared and a live appointment of the doctor holds it; 201 exactly when the slot is declared and free, with NewAppointment stored under the next id; rejections change nothing; no double booking is preserved |
| Routes.NoDoubleBookingAfterInsert | server/routes.ts:75-86 | inserting under a fresh key an appointment whose slot nobody holds keeps at most one live appointment per slot |
| Routes.UpdateStatusRoute | server/routes.ts:126-148 | 400 for an id that does not parse, then 400 for a status other than confirmed, pending or cancelled, then 404 for an unknown id; 200 exactly when the id parses, the status is allowed and the id is stored, and the appointment becomes WithStatus without notes; only 200 changes the store |
| Routes.ReconfirmBreaksNoDoubleBooking | server/routes.ts:135-142 | a store without double bookings gets one when a cancelled appointment whose slot was rebooked is set back to confirmed |
| Routes.DayAvailableMeaning | server/routes.ts:168-181 | a weekend day is false; a weekday is true exactly when the record for its ISO date declares some slot that no live appointment of the doctor holds |
| Routes.CalendarDay | server/routes.ts:165-181 | one pass of the loop computes DayAvailable |
| Routes.MonthCalendar | server/routes.ts:161-182 | the map has exactly the keys 1..daysInMonth of the normalised month, each holding DayAvailable |
| Routes.CalendarRoute | server/routes.ts:151-188 | 400 exactly when one of the three parameters does not parse; 200 with the month calendar exactly when all three parse |
| Routes.SpecialtiesRoute | server/routes.ts:10-17 | exactly the stored specialties |
| Routes.DoctorsBySpecialtyRoute | server/routes.ts:20-32 | 400 exactly when the id does not parse; otherwise exactly the doctors of the specialty |
| Routes.Enrich | server/routes.ts:107-117 | one entry per appointment, in order; a name is present exactly when the doctor or specialty exists, and then it is that record's name |
| Routes.UserAppointmentsRoute | server/routes.ts:97-123 | 400 exactly when the id does not parse; otherwise Enrich of the user's appointments in order, so each carries its doctor and specialty names |
| AvailabilityCalendar.PreviousMonth | client/src/components/appointments/availability-calendar.tsx:39-46 | on months 1..12 the result is a month 1..12 whose month count is one less |
| AvailabilityCalendar.NextMonth | client/src/components/appointments/availability-calendar.tsx:48-55 | on months 1..12 the result is a month 1..12 whose month count is one more |
| AvailabilityCalendar.NextMonthOfPreviousMonth | client/src/components/appointments/availability-calendar.tsx:39-55 | next after previous, and previous after next, is the identity |
| AvailabilityCalendar.DateStringIsIso | client/src/components/appointments/availability-calendar.tsx:58 | for four-digit years the click text is the ISO date text the server produces |
| AvailabilityCalendar.DateStringRoundTrip | client/src/components/appointments/availability-calendar.tsx:71 | the text of a valid date reads back as that date |
| AvailabilityCalendar.IsDatePast | client/src/components/appointments/availability-calendar.tsx:79-83 | past exactly when the day is before today, or is today and midnight has passed |
| AvailabilityCalendar.MidnightBefore | client/src/components/appointments/availability-calendar.tsx:81-82 | comparing the day's midnight with `now` in milliseconds agrees with comparing day numbers, then the time of day |
| AvailabilityCalendar.HandleDateClick | client/src/components/appointments/availability-calendar.tsx:57-68 | a date is selected exactly when the day is not past and the loaded map marks it; the selection is the date text |
| AvailabilityCalendar.DayCellMeaning | client/src/components/appointments/availability-calendar.tsx:107-133 | a day cell is disabled exactly when past or not available; its look is "past" exactly when past and "selected" exactly when not past and selected |
| AvailabilityCalendar.WholeWeeks | client/src/components/appointments/availability-calendar.tsx:136 | the least multiple of 7 not below the cell count |
| AvailabilityCalendar.GridRows | client/src/components/appointments/availability-calendar.tsx:89-149 | the grid has 28, 35 or 42 cells; 28 only for a 28-day month starting on Sunday |
| AvailabilityCalendar.GridCells | client/src/components/appointments/availability-calendar.tsx:86-149 | for any per-day cell function: the first firstDayOfMonth cells are the last days of the previous month, ascending; then the cells of days 1..daysInMonth; then 1, 2, ... of the next month; the total is WholeWeeks of leading + days |
| AvailabilityCalendar.BuildCalendarGrid | client/src/components/appointments/availability-calendar.tsx:86-149 | the three loops build Grid with DayCell as the per-day cell (so GridCells applies) |
| AvailabilityCalendar.PushLeadingDays | client/src/components/appointments/availability-calendar.tsx:93-104 | the first loop yields the last firstDayOfMonth days of the previous month, oldest first |
| AvailabilityCalendar.PushMonthDays | client/src/components/appointments/availability-calendar.tsx:107-133 | the second loop appends the cells of days 1..daysInMonth in order |
| AvailabilityCalendar.PushTrailingDays | client/src/components/appointments/availability-calendar.tsx:136-149 | the third loop appends days 1, 2, ... of the next month until the count is a whole number of weeks |
| AvailabilityCalendar.ClickSelectsIffEnabled | client/src/components/appointments/availability-calendar.tsx:57-68 | clicking a day selects its date exactly when its cell is enabled |
| AppointmentForm.DisplayHour | client/src/components/appointments/appointment-form.tsx:21 | an hour 0..23 shows as 1..12 with the same remainder modulo 12 |
| AppointmentForm.DisplayHourRoundTrip | client/src/components/appointments/appointment-form.tsx:20-21 | the shown hour and the AM/PM mark give back the 24-hour hour |
| AppointmentForm.Meridiem | client/src/components/appointments/appointment-form.tsx:20 | "PM" exactly when the parsed hour is 12 or more; `NaN` gets "AM" |
| AppointmentForm.FormatTimeWithAMPM | client/src/components/appointments/appointment-form.tsx:17-23 | the text ends in " AM" or " PM" as Meridiem says; an unreadable hour prints "NaN:" |
| AppointmentForm.FormatClockTime | client/src/components/appointments/appointment-form.tsx:17-23 | on HH:MM the text is the shown hour without leading zero, ':', the minutes verbatim, then AM before noon and PM after; also client/src/pages/appointments.tsx:51-57, client/src/components/appointments/upcoming-appointments.tsx:34-40, client/src/components/appointments/confirmation-modal.tsx:32-38 |
| AppointmentForm.TableLabel | client/src/components/appointments/appointment-form.tsx:272-285 | only the fourteen standard slots have a table entry |
| AppointmentForm.SlotLabel | client/src/components/appointments/appointment-form.tsx:272-286 | a slot outside the table is labelled by FormatTimeWithAMPM |
| AppointmentForm.PaddedClockTime | client/src/components/appointments/appointment-form.tsx:17-23 | padding the label of HH:MM to eight characters gives a two-digit shown hour |
| AppointmentForm.StandardSlotLabels | client/src/components/appointments/appointment-form.tsx:272-285 | every label of the fourteen-slot table is FormatTimeWithAMPM padded to a two-digit hour |
| AppointmentForm.ValidateForm | client/src/components/appointments/appointment-form.tsx:25-31 | accepted exactly when the four required fields are non-empty; otherwise one message per empty field, in field order |
| AppointmentForm.ReasonIsOptional | client/src/components/appointments/appointment-form.tsx:30 | the reason never decides acceptance |
| AppointmentForm.SubmitPayload | client/src/components/appointments/appointment-form.tsx:106-116 | user 1, status "confirmed", date, time and reason copied; an id is NaN exactly when its text does not parse |
| AppointmentForm.SubmitPayloadIds | client/src/components/appointments/appointment-form.tsx:109-110 | ids chosen from the selects (`id.toString()`) are submitted unchanged |
| AppointmentForm.SubmittedBookingIsConfirmed | client/src/components/appointments/appointment-form.tsx:106-116 | a booking from the form is stored as a confirmed appointment of user 1 |
| JsText.ParseIntOfIntToString | server/routes.ts:22 | `parseInt` reads back every integer written by `String` |
| JsText.SplitJoin | client/src/components/appointments/appointment-form.tsx:18 | joining the parts of `split` with the separator gives the text back |
| Gregorian.WeekdayOfNextDate | server/routes.ts:169 | the weekday of the next day is one more, modulo 7 |
| Gregorian.WeekdayAnchor | server/routes.ts:169 | 10 June 2025 is a Tuesday |
| Gregorian.DayNumberIncreasing | client/src/components/appointments/availability-calendar.tsx:81-82 | one valid date comes before another exactly when its day number is smaller |
| Gregorian.JsYearMonthPlain | server/routes.ts:161-165 | for years outside 0..99 and months 1..12 the `Date` constructor's month is the given one |
| Gregorian.ParseIsoDateOfIsoDate | server/routes.ts:165-166 | the ISO text of a valid date of years 0..9999 reads back as that date |
| Gregorian.IsoDateOrder | server/storage.ts:342-346 | on ISO dates of years 0..9999, string order is calendar order, and equal texts are equal dates |

## Left out

- The clock: `new Date()` on the server and the client is the parameter `now`. Daylight saving time and the range limit of `Date` (±275760 years) are not modelled.
- The `toISOString` shift from local time to UTC (server/routes.ts:166) is not modelled: the server is taken to run in UTC, so the date text is the local date.
- Routes.MonthCalendar: the keys are the day numbers, not their decimal texts (`day.toString()`).
- `parseInt` on numbers above 2^53, where the source loses precision, and `-0`, are not modelled.
- JavaScript compares strings by UTF-16 code units. Dafny `char` order agrees with that only inside the Basic Multilingual Plane, so characters outside it are not modelled.
- Zod parsing of request bodies (server/routes.ts:66, :89-91) and of the form is not modelled. Inputs arrive as the validated records of `Schema`. A status body that is not a string is not modelled.
- Express request and response plumbing, the 500 answers of the `catch` blocks, React rendering, hooks, the query cache and toasts are not modelled.
- `async`/`Promise`: the store is modelled as synchronous, so the race between two concurrent bookings of one slot is not modelled.
- `initializeDefaultData` (server/storage.ts:74-226) is not modelled: the constructor yields an empty store.
- Storage.MergeUser and the other merges: an explicit `undefined` value in a partial is not distinguished from an absent key. A partial that writes null into a non-null column is not modelled.
- Storage.GetAvailability: the source joins the key as `` `${doctorId}-${date}` ``, which could collide only for malformed dates; the model uses the pair.
- The `/api/calendar` route awaits the store on every weekday of its loop. The model reads the same store on each day (`Routes.CalendarDay`), so another request changing the store between those reads is not modelled (see the `async` line above).
- AvailabilityCalendar.IsDatePast and HandleDateClick take one `now`. The source calls `new Date()` separately at render time and at click time.
