/**
 * The HTTP handlers of the appointment server that carry logic: the open-slot computation
 * for a doctor and a date, the two checks a booking passes before it is stored, the status
 * whitelist, the month calendar, and the read-only listings. A handler's answer is a
 * `Response`; the express plumbing around it is not modelled.
 */
module Routes {
  import opened Wrappers
  import opened JsText
  import opened Gregorian
  import opened Schema
  import opened Tables
  import opened Storage

  /** What a handler sends back: 200 with a body, 201 with a body, 400 or 404 with a message. */
  datatype Response<T> = Ok(body: T) | Created(body: T) | BadRequest(message: string) | NotFound(message: string)
  {
    function StatusCode(): (code: int)
      ensures code == 200 <==> Ok?
      ensures code == 201 <==> Created?
      ensures code == 400 <==> BadRequest?
      ensures code == 404 <==> NotFound?
    {
      match this
      case Ok(_) => 200
      case Created(_) => 201
      case BadRequest(_) => 400
      case NotFound(_) => 404
    }
  }

  // ---- Open slots ----

  /** An appointment that holds `time` on `date` (its status is not "cancelled"). */
  predicate Holds(a: Appointment, date: string, time: string) {
    a.date == date && a.time == time && HoldsSlot(a)
  }

  /** `bookedSlots`: the times of the appointments on `date` that are not cancelled, in order. */
  function BookedSlots(apts: seq<Appointment>, date: string): (r: seq<string>)
    ensures forall t :: t in r <==> exists a :: a in apts && Holds(a, date, t)
  {
    if apts == [] then []
    else
      var rest := BookedSlots(apts[1..], date);
      var r := if Holds(apts[0], date, apts[0].time) then [apts[0].time] + rest else rest;
      assert forall t :: t in r <==> exists a :: a in apts && Holds(a, date, t) by {
        forall t | exists a :: a in apts && Holds(a, date, t)
          ensures t in r
        {
          var a :| a in apts && Holds(a, date, t);
          if a != apts[0] {
            assert a in apts[1..];
          }
        }
        forall t | t in rest
          ensures exists a :: a in apts && Holds(a, date, t)
        {
          var a :| a in apts[1..] && Holds(a, date, t);
          assert a in apts;
        }
      }
      r
  }

  /**
   * `availability?.timeSlots?.filter(slot => !bookedSlots.includes(slot)) || []`: the declared
   * slots, in declared order, that no appointment of `apts` holds on `date`. The holiday flag
   * and the blocked hours are not consulted.
   */
  function OpenSlots(avail: Option<Availability>, apts: seq<Appointment>, date: string): (r: seq<string>)
    ensures avail.None? || avail.value.timeSlots.None? ==> r == []
    ensures avail.Some? && avail.value.timeSlots.Some? ==>
      IsSubsequence(r, avail.value.timeSlots.value) &&
      forall t :: t in r <==> t in avail.value.timeSlots.value && forall a :: a in apts ==> !Holds(a, date, t)
    ensures avail.Some? && avail.value.timeSlots.Some? ==>
      forall t :: multiset(r)[t] ==
        if forall a :: a in apts ==> !Holds(a, date, t) then multiset(avail.value.timeSlots.value)[t] else 0
  {
    match avail
    case None => []
    case Some(record) =>
      match record.timeSlots
      case None => []
      case Some(slots) =>
        var booked := BookedSlots(apts, date);
        var free := (slot: string) => slot !in booked;
        FilterCounts(slots, free);
        Filter(slots, free)
  }

  /** The open-slot result does not depend on the holiday flag or on the blocked hours. */
  lemma OpenSlotsIgnoreHoliday(record: Availability, apts: seq<Appointment>, date: string,
                               isHoliday: Option<bool>, blockedHours: Option<seq<string>>)
    ensures OpenSlots(Some(record.(isHoliday := isHoliday, blockedHours := blockedHours)), apts, date)
         == OpenSlots(Some(record), apts, date)
  {
  }

  /** `GET /api/availability/:doctorId/:date`. */
  function AvailabilityRoute(store: MemStorage, doctorIdParam: string, date: string): (r: Response<seq<string>>)
    reads store
    requires store.Valid()
    ensures ParseInt(doctorIdParam).None? <==> r == BadRequest("Invalid doctor ID")
    ensures r.BadRequest? || r.Ok?
    ensures r.Ok? ==>
      var key := (ParseInt(doctorIdParam).value, date);
      (key !in store.availability || store.availability[key].timeSlots.None? ==> r.body == []) &&
      (key in store.availability && store.availability[key].timeSlots.Some? ==>
        var slots := store.availability[key].timeSlots.value;
        IsSubsequence(r.body, slots) &&
        forall t :: t in r.body <==>
          t in slots && forall a :: a in store.appointments.Values && a.doctorId == key.0 ==> !Holds(a, date, t))
  {
    match ParseInt(doctorIdParam)
    case None => BadRequest("Invalid doctor ID")
    case Some(doctorId) =>
      Ok(OpenSlots(store.GetAvailability(doctorId, date), store.GetAppointmentsByDoctor(doctorId), date))
  }

  // ---- Booking ----

  /** `existingAppointments.some(...)`: some appointment holds `time` on `date`. */
  function SlotHeld(apts: seq<Appointment>, date: string, time: string): (r: bool)
    ensures r <==> exists a :: a in apts && Holds(a, date, time)
  {
    var i := FindIndex(apts, (a: Appointment) => Holds(a, date, time));
    if i.Some? then
      assert Holds(apts[i.value], date, time);
      true
    else
      assert forall a :: a in apts ==> exists j :: 0 <= j < |apts| && apts[j] == a;
      false
  }

  /** Two appointments for the same doctor, date and time. */
  predicate SameSlot(a: Appointment, b: Appointment) {
    a.doctorId == b.doctorId && a.date == b.date && a.time == b.time
  }

  /** At most one appointment that is not cancelled per (doctorId, date, time). */
  ghost predicate NoDoubleBooking(m: map<int, Appointment>) {
    forall i, j :: i in m && j in m && HoldsSlot(m[i]) && HoldsSlot(m[j]) && SameSlot(m[i], m[j]) ==> i == j
  }

  /** The slot the booking asks for is declared for that doctor and date. */
  ghost predicate SlotDeclared(store: MemStorage, doctorId: int, date: string, time: string)
    reads store
  {
    var key := (doctorId, date);
    key in store.availability && store.availability[key].timeSlots.Some? &&
    time in store.availability[key].timeSlots.value
  }

  /** Some stored appointment that is not cancelled already has that doctor, date and time. */
  ghost predicate SlotTaken(appointments: map<int, Appointment>, doctorId: int, date: string, time: string) {
    exists a :: a in appointments.Values && a.doctorId == doctorId && Holds(a, date, time)
  }

  /**
   * `POST /api/appointments` on validated input: reject a slot that is not declared, then a
   * slot that is taken, and otherwise store the appointment and answer 201. Creation keeps
   * the store free of double bookings.
   */
  method CreateAppointmentRoute(store: MemStorage, insert: InsertAppointment, now: Timestamp)
    returns (r: Response<Appointment>)
    requires store.Valid()
    modifies store`appointments, store`currentAppointmentId
    ensures store.Valid()
    ensures r == BadRequest("Selected time slot is not available") <==>
      !old(SlotDeclared(store, insert.doctorId, insert.date, insert.time))
    ensures r == BadRequest("Selected time slot is already booked") <==>
      old(SlotDeclared(store, insert.doctorId, insert.date, insert.time)) &&
      SlotTaken(old(store.appointments), insert.doctorId, insert.date, insert.time)
    ensures r.Created? <==>
      old(SlotDeclared(store, insert.doctorId, insert.date, insert.time)) &&
      !SlotTaken(old(store.appointments), insert.doctorId, insert.date, insert.time)
    ensures r.Created? || r.BadRequest?
    ensures r.BadRequest? ==>
      store.appointments == old(store.appointments) && store.currentAppointmentId == old(store.currentAppointmentId)
    ensures r.Created? ==>
      r.body == NewAppointment(old(store.currentAppointmentId), insert, now) &&
      store.appointments == old(store.appointments)[r.body.id := r.body] &&
      store.currentAppointmentId == old(store.currentAppointmentId) + 1
    ensures old(NoDoubleBooking(store.appointments)) ==> NoDoubleBooking(store.appointments)
  {
    var availability := store.GetAvailability(insert.doctorId, insert.date);
    if availability.None? || availability.value.timeSlots.None? || insert.time !in availability.value.timeSlots.value {
      return BadRequest("Selected time slot is not available");
    }
    var existing := store.GetAppointmentsByDoctor(insert.doctorId);
    var isSlotBooked := SlotHeld(existing, insert.date, insert.time);
    if isSlotBooked {
      BookingMessagesDiffer();
      return BadRequest("Selected time slot is already booked");
    }
    assert !SlotTaken(store.appointments, insert.doctorId, insert.date, insert.time);
    ghost var before := store.appointments;
    var appointment := store.CreateAppointment(insert, now);
    NoDoubleBookingAfterInsert(before, appointment.id, appointment);
    r := Created(appointment);
  }

  /** The two refusals of a booking are told apart by their text. */
  lemma BookingMessagesDiffer()
    ensures "Selected time slot is already booked" != "Selected time slot is not available"
  {
    assert "Selected time slot is already booked"[22] != "Selected time slot is not available"[22];
  }

  /** Adding an appointment under a fresh key whose slot nobody holds keeps bookings single. */
  lemma NoDoubleBookingAfterInsert(m: map<int, Appointment>, id: int, a: Appointment)
    requires id !in m
    requires !SlotTaken(m, a.doctorId, a.date, a.time)
    ensures NoDoubleBooking(m) ==> NoDoubleBooking(m[id := a])
  {
    forall k | k in m && HoldsSlot(m[k])
      ensures !SameSlot(m[k], a) && !SameSlot(a, m[k])
    {
      assert m[k] in m.Values;
    }
  }

  // ---- Status update ----

  /** The statuses `PATCH /api/appointments/:id/status` accepts. */
  predicate AllowedStatus(status: string) {
    status in [Confirmed, Pending, Cancelled]
  }

  /**
   * `PATCH /api/appointments/:id/status`: a non-numeric id, then a status outside the
   * whitelist, answer 400; an unknown id answers 404; otherwise the status is set with no
   * check that the slot is still free.
   */
  method UpdateStatusRoute(store: MemStorage, idParam: string, status: string, now: Timestamp)
    returns (r: Response<Appointment>)
    requires store.Valid()
    modifies store`appointments
    ensures store.Valid()
    ensures ParseInt(idParam).None? <==> r == BadRequest("Invalid appointment ID")
    ensures r.Ok? <==>
      ParseInt(idParam).Some? && AllowedStatus(status) && ParseInt(idParam).value in old(store.appointments)
    ensures r.Ok? || r.BadRequest? || r.NotFound?
    ensures ParseInt(idParam).Some? ==>
      (r == BadRequest("Invalid status") <==> status != Confirmed && status != Pending && status != Cancelled)
    ensures ParseInt(idParam).Some? && AllowedStatus(status) ==>
      (r == NotFound("Appointment not found") <==> ParseInt(idParam).value !in old(store.appointments))
    ensures !r.Ok? ==> store.appointments == old(store.appointments)
    ensures r.Ok? ==>
      var id := ParseInt(idParam).value;
      AllowedStatus(status) && id in old(store.appointments) &&
      r.body == WithStatus(old(store.appointments[id]), status, None, now) &&
      store.appointments == old(store.appointments)[id := r.body]
  {
    var id := ParseInt(idParam);
    if id.None? {
      return BadRequest("Invalid appointment ID");
    }
    if !AllowedStatus(status) {
      return BadRequest("Invalid status");
    }
    var appointment := store.UpdateAppointmentStatus(id.value, status, None, now);
    if appointment.None? {
      return NotFound("Appointment not found");
    }
    r := Ok(appointment.value);
  }

  /**
   * The status route does not keep bookings single: a cancelled appointment whose slot was
   * booked again can be set back to "confirmed", and then two live appointments share a slot.
   */
  lemma ReconfirmBreaksNoDoubleBooking()
    ensures var cancelled := Appointment(1, 1, 1, 1, "2025-06-10", "09:00", None, Cancelled, None, 0, 0);
            var rebooked := Appointment(2, 2, 1, 1, "2025-06-10", "09:00", None, Confirmed, None, 0, 0);
            var m := map[1 := cancelled, 2 := rebooked];
            NoDoubleBooking(m) && !NoDoubleBooking(m[1 := WithStatus(cancelled, Confirmed, None, 1)])
  {
    var cancelled := Appointment(1, 1, 1, 1, "2025-06-10", "09:00", None, Cancelled, None, 0, 0);
    var rebooked := Appointment(2, 2, 1, 1, "2025-06-10", "09:00", None, Confirmed, None, 0, 0);
    var m := map[1 := cancelled, 2 := rebooked];
    var m' := m[1 := WithStatus(cancelled, Confirmed, None, 1)];
    assert HoldsSlot(m'[1]) && HoldsSlot(m'[2]) && SameSlot(m'[1], m'[2]);
  }

  // ---- Month calendar ----

  /**
   * Whether the calendar marks day `d` of (`y`, `m`) for the doctor: weekends never, a weekday
   * exactly when some declared slot of that date is not held.
   */
  function DayAvailable(store: MemStorage, doctorId: int, y: int, m: int, d: int): bool
    reads store
    requires store.Valid() && ValidDate(y, m, d)
  {
    if IsWeekend(y, m, d) then false
    else
      var date := IsoDate(y, m, d);
      |OpenSlots(store.GetAvailability(doctorId, date), store.GetAppointmentsByDoctor(doctorId), date)| > 0
  }

  /** What a calendar entry means in terms of the stored records. */
  lemma DayAvailableMeaning(store: MemStorage, doctorId: int, y: int, m: int, d: int)
    requires store.Valid() && ValidDate(y, m, d)
    ensures IsWeekend(y, m, d) ==> !DayAvailable(store, doctorId, y, m, d)
    ensures !IsWeekend(y, m, d) ==>
      var key := (doctorId, IsoDate(y, m, d));
      (DayAvailable(store, doctorId, y, m, d) <==>
        (key in store.availability && store.availability[key].timeSlots.Some? &&
         exists t :: t in store.availability[key].timeSlots.value &&
           forall a :: a in store.appointments.Values && a.doctorId == doctorId ==> !Holds(a, key.1, t)))
  {
    var date := IsoDate(y, m, d);
    var open := OpenSlots(store.GetAvailability(doctorId, date), store.GetAppointmentsByDoctor(doctorId), date);
    assert |open| > 0 ==> open[0] in open;
  }

  /** One pass of the calendar loop: a weekend is false, a weekday asks for its open slots. */
  method CalendarDay(store: MemStorage, doctorId: int, y: int, m: int, day: int) returns (entry: bool)
    requires store.Valid() && ValidDate(y, m, day)
    ensures entry == DayAvailable(store, doctorId, y, m, day)
  {
    var dateStr := IsoDate(y, m, day);
    if Weekday(y, m, day) == 0 || Weekday(y, m, day) == 6 {
      return false;
    }
    var availability := store.GetAvailability(doctorId, dateStr);
    var appointments := store.GetAppointmentsByDoctor(doctorId);
    var availableSlots := OpenSlots(availability, appointments, dateStr);
    entry := |availableSlots| > 0;
  }

  /**
   * The calendar of (`year`, `month`) after the `Date` constructor's normalisation: its keys
   * are the days 1..daysInMonth and each day holds `DayAvailable`.
   */
  ghost predicate IsMonthCalendar(store: MemStorage, doctorId: int, year: int, month: int, cal: map<int, bool>)
    reads store
    requires store.Valid()
  {
    var ym := JsYearMonth(year, month - 1);
    (forall day :: day in cal <==> 1 <= day <= JsDaysInMonth(year, month)) &&
    forall day :: 1 <= day <= JsDaysInMonth(year, month) ==> cal[day] == DayAvailable(store, doctorId, ym.0, ym.1, day)
  }

  /**
   * `GET /api/calendar/:doctorId/:year/:month`: one entry per day of the month, filled by a
   * loop; the month and year are normalised as the `Date` constructor does.
   */
  method CalendarRoute(store: MemStorage, doctorIdParam: string, yearParam: string, monthParam: string)
    returns (r: Response<map<int, bool>>)
    requires store.Valid()
    ensures ParseInt(doctorIdParam).None? || ParseInt(yearParam).None? || ParseInt(monthParam).None?
      <==> r == BadRequest("Invalid parameters")
    ensures r.Ok? <==> ParseInt(doctorIdParam).Some? && ParseInt(yearParam).Some? && ParseInt(monthParam).Some?
    ensures r.BadRequest? || r.Ok?
    ensures r.Ok? ==>
      IsMonthCalendar(store, ParseInt(doctorIdParam).value, ParseInt(yearParam).value, ParseInt(monthParam).value, r.body)
  {
    var doctorId, year, month := ParseInt(doctorIdParam), ParseInt(yearParam), ParseInt(monthParam);
    if doctorId.None? || year.None? || month.None? {
      return BadRequest("Invalid parameters");
    }
    var calendar := MonthCalendar(store, doctorId.value, year.value, month.value);
    r := Ok(calendar);
  }

  /** The loop of the calendar route over the days of the month. */
  method MonthCalendar(store: MemStorage, doctorId: int, year: int, month: int) returns (availabilityMap: map<int, bool>)
    requires store.Valid()
    ensures IsMonthCalendar(store, doctorId, year, month, availabilityMap)
  {
    var ym := JsYearMonth(year, month - 1);
    var daysInMonth := JsDaysInMonth(year, month);
    var y, m := ym.0, ym.1;
    assert daysInMonth == DaysInMonth(y, m);
    availabilityMap := map[];
    var day := 1;
    while day <= daysInMonth
      invariant 1 <= day <= daysInMonth + 1
      invariant forall k :: k in availabilityMap <==> 1 <= k < day
      invariant forall k :: 1 <= k < day ==> availabilityMap[k] == DayAvailable(store, doctorId, y, m, k)
    {
      assert ValidDate(y, m, day);
      var entry := CalendarDay(store, doctorId, y, m, day);
      availabilityMap := availabilityMap[day := entry];
      day := day + 1;
    }
  }

  // ---- Listings ----

  /** `GET /api/specialties`. */
  function SpecialtiesRoute(store: MemStorage): (r: Response<seq<Specialty>>)
    reads store
    requires store.Valid()
    ensures r.Ok? && forall s :: s in r.body <==> s in store.specialties.Values
  {
    Ok(store.SpecialtyList())
  }

  /** `GET /api/doctors/specialty/:specialtyId`. */
  function DoctorsBySpecialtyRoute(store: MemStorage, specialtyIdParam: string): (r: Response<seq<Doctor>>)
    reads store
    requires store.Valid()
    ensures ParseInt(specialtyIdParam).None? <==> r == BadRequest("Invalid specialty ID")
    ensures r.BadRequest? || r.Ok?
    ensures r.Ok? ==> forall d :: d in r.body <==>
      d in store.doctors.Values && d.specialtyId == ParseInt(specialtyIdParam).value
  {
    match ParseInt(specialtyIdParam)
    case None => BadRequest("Invalid specialty ID")
    case Some(specialtyId) => Ok(store.GetDoctorsBySpecialty(specialtyId))
  }

  /** An appointment with the names of its doctor and specialty, absent when they are unknown. */
  datatype EnrichedAppointment = EnrichedAppointment(
    appointment: Appointment, doctorName: Option<string>, specialtyName: Option<string>)

  function Enrich(store: MemStorage, apts: seq<Appointment>): (r: seq<EnrichedAppointment>)
    reads store
    requires store.Valid()
    ensures |r| == |apts|
    ensures forall i :: 0 <= i < |r| ==>
      r[i].appointment == apts[i] &&
      (r[i].doctorName.Some? <==> apts[i].doctorId in store.doctors) &&
      (r[i].doctorName.Some? ==> r[i].doctorName.value == store.doctors[apts[i].doctorId].name) &&
      (r[i].specialtyName.Some? <==> apts[i].specialtyId in store.specialties) &&
      (r[i].specialtyName.Some? ==> r[i].specialtyName.value == store.specialties[apts[i].specialtyId].name)
  {
    if apts == [] then []
    else
      var a := apts[0];
      var doctor := store.GetDoctor(a.doctorId);
      var specialty := store.GetSpecialty(a.specialtyId);
      [EnrichedAppointment(a, if doctor.Some? then Some(doctor.value.name) else None,
                           if specialty.Some? then Some(specialty.value.name) else None)]
      + Enrich(store, apts[1..])
  }

  /** `GET /api/appointments/user/:userId`: the user's appointments in order, with names added. */
  function UserAppointmentsRoute(store: MemStorage, userIdParam: string): (r: Response<seq<EnrichedAppointment>>)
    reads store
    requires store.Valid()
    ensures ParseInt(userIdParam).None? <==> r == BadRequest("Invalid user ID")
    ensures r.BadRequest? || r.Ok?
    ensures r.Ok? ==>
      ParseInt(userIdParam).Some? &&
      r.body == Enrich(store, store.GetAppointmentsByUser(ParseInt(userIdParam).value))
    ensures r.Ok? ==> |r.body| == |store.GetAppointmentsByUser(ParseInt(userIdParam).value)|
    ensures r.Ok? ==> forall i :: 0 <= i < |r.body| ==>
      r.body[i].appointment == store.GetAppointmentsByUser(ParseInt(userIdParam).value)[i] &&
      r.body[i].appointment in store.appointments.Values &&
      r.body[i].appointment.userId == ParseInt(userIdParam).value
  {
    match ParseInt(userIdParam)
    case None => BadRequest("Invalid user ID")
    case Some(userId) =>
      var mine := store.GetAppointmentsByUser(userId);
      assert forall i :: 0 <= i < |mine| ==> mine[i] in mine;
      Ok(Enrich(store, mine))
  }
}
