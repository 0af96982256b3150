/**
 * The in-memory store (`MemStorage`): one table per entity, each a JavaScript `Map` from
 * id to record whose ids come from a per-entity counter starting at 1, plus the
 * availability table keyed by doctor and date. `create*` takes the counter's value as the
 * new id and then increments it; `update*` spreads a partial record over the stored one;
 * the getters scan a table in insertion order.
 */
module Storage {
  import opened Wrappers
  import opened Schema
  import opened Tables
  import opened JsText

  /**
   * The availability key. The source joins the two parts as the text `${doctorId}-${date}`;
   * the pair is the same key without the text encoding.
   */
  type AvailabilityKey = (int, string)

  function KeyOf(a: Availability): AvailabilityKey {
    (a.doctorId, a.date)
  }

  // ---- Records built by create* ----

  /** The user `createUser` stores: the role defaults to "patient", empty contacts become null. */
  function NewUser(id: int, u: InsertUser): (r: User)
    ensures r.id == id && r.username == u.username && r.password == u.password
    ensures r.fullName == u.fullName && r.socialSecurityId == u.socialSecurityId
    ensures r.role != ""
    ensures r.role == "patient" <==> u.role.None? || u.role.value == "" || u.role.value == "patient"
    ensures r.email == TextOrNull(u.email) && r.phone == TextOrNull(u.phone)
  {
    User(id, u.username, u.password, u.fullName, u.socialSecurityId,
         TextOr(u.role, "patient"), TextOrNull(u.email), TextOrNull(u.phone))
  }

  function NewSpecialty(id: int, s: InsertSpecialty): (r: Specialty)
    ensures r.id == id && r.name == s.name && r.description == TextOrNull(s.description)
  {
    Specialty(id, s.name, TextOrNull(s.description))
  }

  /**
   * The doctor `createDoctor` stores: `isAvailable ?? true` only fills a missing flag, so an
   * explicit false survives.
   */
  function NewDoctor(id: int, d: InsertDoctor): (r: Doctor)
    ensures r.id == id && r.userId == d.userId && r.name == d.name && r.specialtyId == d.specialtyId
    ensures r.isAvailable == Some(true) <==> d.isAvailable != Some(false)
    ensures r.isAvailable == Some(false) <==> d.isAvailable == Some(false)
    ensures r.licenseNumber == TextOrNull(d.licenseNumber)
  {
    var available := d.isAvailable.GetOr(true);
    assert available <==> d.isAvailable != Some(false) by {
      if d.isAvailable.Some? { assert available == d.isAvailable.value; }
    }
    Doctor(id, d.userId, d.name, d.specialtyId, Some(available),
           TextOrNull(d.licenseNumber))
  }

  /**
   * The appointment `createAppointment` stores: the status defaults to "confirmed" when
   * missing or empty, an empty reason or note becomes null, and both timestamps are `now`.
   */
  function NewAppointment(id: int, a: InsertAppointment, now: Timestamp): (r: Appointment)
    ensures r.id == id && r.userId == a.userId && r.doctorId == a.doctorId
    ensures r.specialtyId == a.specialtyId && r.date == a.date && r.time == a.time
    ensures r.status != ""
    ensures a.status.None? || a.status.value == "" ==> r.status == Confirmed
    ensures a.status.Some? && a.status.value != "" ==> r.status == a.status.value
    ensures r.reason == TextOrNull(a.reason) && r.notes == TextOrNull(a.notes)
    ensures r.createdAt == r.updatedAt == now
  {
    Appointment(id, a.userId, a.doctorId, a.specialtyId, a.date, a.time, TextOrNull(a.reason),
                TextOr(a.status, Confirmed), TextOrNull(a.notes), now, now)
  }

  /** The availability `createAvailability` stores: a missing holiday flag becomes false. */
  function NewAvailability(id: int, a: InsertAvailability): (r: Availability)
    ensures r.id == id && KeyOf(r) == (a.doctorId, a.date)
    ensures r.timeSlots == a.timeSlots && r.blockedHours == a.blockedHours
    ensures r.isHoliday == Some(a.isHoliday == Some(true))
  {
    var holiday := a.isHoliday.GetOr(false);
    assert holiday <==> a.isHoliday == Some(true) by {
      if a.isHoliday.Some? { assert holiday == a.isHoliday.value; }
    }
    Availability(id, a.doctorId, a.date, a.timeSlots, Some(holiday), a.blockedHours)
  }

  /** `n || null` for a nullable id: 0 is falsy and becomes null. */
  function IdOrNull(n: Option<int>): (r: Option<int>)
    ensures r.Some? <==> n.Some? && n.value != 0
    ensures r.Some? ==> r == n
  {
    if n.Some? && n.value != 0 then n else None
  }

  function NewMedicalHistory(id: int, h: InsertMedicalHistory, now: Timestamp): (r: MedicalHistory)
    ensures r.id == id && r.userId == h.userId && r.createdAt == now
    ensures r.appointmentId == IdOrNull(h.appointmentId)
    ensures r.diagnosis == TextOrNull(h.diagnosis) && r.treatment == TextOrNull(h.treatment)
    ensures r.medications == TextOrNull(h.medications) && r.allergies == TextOrNull(h.allergies)
    ensures r.notes == TextOrNull(h.notes)
  {
    MedicalHistory(id, h.userId, IdOrNull(h.appointmentId), TextOrNull(h.diagnosis),
                   TextOrNull(h.treatment), TextOrNull(h.medications), TextOrNull(h.allergies),
                   TextOrNull(h.notes), now)
  }

  // ---- Records built by update* (`{ ...stored, ...partial }`) ----

  const NoUserChange := UserPatch(None, None, None, None, None, None, None, None)

  /** `{ ...u, ...p }`: a partial that carries an `id` other than `u.id` changes the record's id. */
  function MergeUser(u: User, p: UserPatch): (r: User)
    ensures r.id == u.id <==> p.id.None? || p.id == Some(u.id)
    ensures p == NoUserChange ==> r == u
  {
    User(p.id.GetOr(u.id), p.username.GetOr(u.username), p.password.GetOr(u.password),
         p.fullName.GetOr(u.fullName), p.socialSecurityId.GetOr(u.socialSecurityId),
         p.role.GetOr(u.role), p.email.GetOr(u.email), p.phone.GetOr(u.phone))
  }

  const NoDoctorChange := DoctorPatch(None, None, None, None, None, None)

  function MergeDoctor(d: Doctor, p: DoctorPatch): (r: Doctor)
    ensures r.id == d.id <==> p.id.None? || p.id == Some(d.id)
    ensures p == NoDoctorChange ==> r == d
  {
    Doctor(p.id.GetOr(d.id), p.userId.GetOr(d.userId), p.name.GetOr(d.name),
           p.specialtyId.GetOr(d.specialtyId), p.isAvailable.GetOr(d.isAvailable),
           p.licenseNumber.GetOr(d.licenseNumber))
  }

  const NoAppointmentChange := AppointmentPatch(None, None, None, None, None, None, None, None, None, None, None)

  /** `{ ...a, ...p, updatedAt: now }`: the stamp is `now` whatever the partial says. */
  function MergeAppointment(a: Appointment, p: AppointmentPatch, now: Timestamp): (r: Appointment)
    ensures r.id == a.id <==> p.id.None? || p.id == Some(a.id)
    ensures r.updatedAt == now
    ensures p == NoAppointmentChange ==> r == a.(updatedAt := now)
  {
    Appointment(p.id.GetOr(a.id), p.userId.GetOr(a.userId), p.doctorId.GetOr(a.doctorId),
                p.specialtyId.GetOr(a.specialtyId), p.date.GetOr(a.date), p.time.GetOr(a.time),
                p.reason.GetOr(a.reason), p.status.GetOr(a.status), p.notes.GetOr(a.notes),
                p.createdAt.GetOr(a.createdAt), now)
  }

  /**
   * `{ ...a, status, notes: notes || a.notes, updatedAt: now }`: only the status, the notes
   * and the update stamp change, and missing or empty notes keep the old ones.
   */
  function WithStatus(a: Appointment, status: string, notes: Option<string>, now: Timestamp): (r: Appointment)
    ensures r.(status := a.status, notes := a.notes, updatedAt := a.updatedAt) == a
    ensures r.status == status && r.updatedAt == now
    ensures r.notes == if notes.Some? && notes.value != "" then notes else a.notes
  {
    a.(status := status, notes := if notes.Some? && notes.value != "" then notes else a.notes,
       updatedAt := now)
  }

  /**
   * The record `updateAvailability` stores: the slots are replaced, the blocked hours are
   * the given ones or null, the holiday flag is kept unless a new one is given.
   */
  function UpdatedAvailability(a: Availability, timeSlots: seq<string>, blockedHours: Option<seq<string>>,
                               isHoliday: Option<bool>): (r: Availability)
    ensures r.id == a.id && KeyOf(r) == KeyOf(a)
    ensures r.timeSlots == Some(timeSlots) && r.blockedHours == blockedHours
    ensures isHoliday.None? ==> r.isHoliday == a.isHoliday
    ensures isHoliday.Some? ==> r.isHoliday == isHoliday
  {
    a.(timeSlots := Some(timeSlots), blockedHours := blockedHours,
       isHoliday := if isHoliday.Some? then isHoliday else a.isHoliday)
  }

  const NoMedicalHistoryChange := MedicalHistoryPatch(None, None, None, None, None, None, None, None, None)

  function MergeMedicalHistory(h: MedicalHistory, p: MedicalHistoryPatch): (r: MedicalHistory)
    ensures r.id == h.id <==> p.id.None? || p.id == Some(h.id)
    ensures p == NoMedicalHistoryChange ==> r == h
  {
    MedicalHistory(p.id.GetOr(h.id), p.userId.GetOr(h.userId), p.appointmentId.GetOr(h.appointmentId),
                   p.diagnosis.GetOr(h.diagnosis), p.treatment.GetOr(h.treatment),
                   p.medications.GetOr(h.medications), p.allergies.GetOr(h.allergies),
                   p.notes.GetOr(h.notes), p.createdAt.GetOr(h.createdAt))
  }

  /** Every stored record carries the id it is stored under. */
  ghost predicate IdsMatchKeys<V>(m: map<int, V>, idOf: V -> int) {
    forall k :: k in m ==> idOf(m[k]) == k
  }

  class MemStorage {
    var users: map<int, User>
    var specialties: map<int, Specialty>
    var doctors: map<int, Doctor>
    var appointments: map<int, Appointment>
    var availability: map<AvailabilityKey, Availability>
    /** The availability keys in first-insertion order (what `Map.values()` follows). */
    var availabilityOrder: seq<AvailabilityKey>
    var medicalHistory: map<int, MedicalHistory>
    var currentUserId: int
    var currentSpecialtyId: int
    var currentDoctorId: int
    var currentAppointmentId: int
    var currentAvailabilityId: int
    var currentMedicalHistoryId: int

    /**
     * The store's invariant: each id-keyed table holds exactly the ids its counter has
     * handed out (so ascending id order is insertion order), and each availability record
     * is stored under its own (doctorId, date) with an id the counter has handed out.
     */
    ghost predicate Valid()
      reads this
    {
      KeysUpTo(users, currentUserId) &&
      KeysUpTo(specialties, currentSpecialtyId) &&
      KeysUpTo(doctors, currentDoctorId) &&
      KeysUpTo(appointments, currentAppointmentId) &&
      KeysUpTo(medicalHistory, currentMedicalHistoryId) &&
      ListsKeys(availability, availabilityOrder) &&
      currentAvailabilityId >= 1 &&
      (forall k :: k in availability ==> KeyOf(availability[k]) == k) &&
      (forall k :: k in availability ==> 1 <= availability[k].id < currentAvailabilityId) &&
      IdsMatchKeys(specialties, (s: Specialty) => s.id)
    }

    ghost predicate UserIdsMatch() reads this {
      IdsMatchKeys(users, (u: User) => u.id)
    }

    ghost predicate DoctorIdsMatch() reads this {
      IdsMatchKeys(doctors, (d: Doctor) => d.id)
    }

    ghost predicate AppointmentIdsMatch() reads this {
      IdsMatchKeys(appointments, (a: Appointment) => a.id)
    }

    ghost predicate MedicalHistoryIdsMatch() reads this {
      IdsMatchKeys(medicalHistory, (h: MedicalHistory) => h.id)
    }

    constructor ()
      ensures Valid()
      ensures users == map[] && specialties == map[] && doctors == map[] && appointments == map[]
      ensures availability == map[] && availabilityOrder == [] && medicalHistory == map[]
      ensures currentUserId == currentSpecialtyId == currentDoctorId == 1
      ensures currentAppointmentId == currentAvailabilityId == currentMedicalHistoryId == 1
    {
      users, specialties, doctors, appointments := map[], map[], map[], map[];
      availability, availabilityOrder, medicalHistory := map[], [], map[];
      currentUserId, currentSpecialtyId, currentDoctorId := 1, 1, 1;
      currentAppointmentId, currentAvailabilityId, currentMedicalHistoryId := 1, 1, 1;
    }

    // ---- Listings in insertion order (`Array.from(map.values())`) ----

    function UserList(): (r: seq<User>)
      reads this
      requires Valid()
      ensures forall u :: u in r <==> u in users.Values
    {
      KeysUpToListed(users, currentUserId);
      ValuesOfMembershipAll(users, Range(1, currentUserId));
      ValuesOf(users, Range(1, currentUserId))
    }

    function SpecialtyList(): (r: seq<Specialty>)
      reads this
      requires Valid()
      ensures forall s :: s in r <==> s in specialties.Values
    {
      KeysUpToListed(specialties, currentSpecialtyId);
      ValuesOfMembershipAll(specialties, Range(1, currentSpecialtyId));
      ValuesOf(specialties, Range(1, currentSpecialtyId))
    }

    function DoctorList(): (r: seq<Doctor>)
      reads this
      requires Valid()
      ensures forall d :: d in r <==> d in doctors.Values
    {
      KeysUpToListed(doctors, currentDoctorId);
      ValuesOfMembershipAll(doctors, Range(1, currentDoctorId));
      ValuesOf(doctors, Range(1, currentDoctorId))
    }

    function AppointmentList(): (r: seq<Appointment>)
      reads this
      requires Valid()
      ensures forall a :: a in r <==> a in appointments.Values
    {
      KeysUpToListed(appointments, currentAppointmentId);
      ValuesOfMembershipAll(appointments, Range(1, currentAppointmentId));
      ValuesOf(appointments, Range(1, currentAppointmentId))
    }

    function AvailabilityList(): (r: seq<Availability>)
      reads this
      requires Valid()
      ensures forall a :: a in r <==> a in availability.Values
    {
      ValuesOfMembershipAll(availability, availabilityOrder);
      ValuesOf(availability, availabilityOrder)
    }

    function MedicalHistoryList(): (r: seq<MedicalHistory>)
      reads this
      requires Valid()
      ensures forall h :: h in r <==> h in medicalHistory.Values
    {
      KeysUpToListed(medicalHistory, currentMedicalHistoryId);
      ValuesOfMembershipAll(medicalHistory, Range(1, currentMedicalHistoryId));
      ValuesOf(medicalHistory, Range(1, currentMedicalHistoryId))
    }

    // ---- User operations ----

    function GetUser(id: int): (r: Option<User>)
      reads this
      ensures r.Some? <==> id in users
      ensures r.Some? ==> r.value == users[id]
    {
      if id in users then Some(users[id]) else None
    }

    /** The first user, in insertion order, with the given username. */
    function GetUserByUsername(username: string): (r: Option<User>)
      reads this
      requires Valid()
      ensures r.None? <==> forall u :: u in users.Values ==> u.username != username
      ensures r.Some? ==> r.value in users.Values && r.value.username == username
      ensures r.Some? ==>
        exists i :: 0 <= i < |UserList()| && UserList()[i] == r.value &&
          forall j :: 0 <= j < i ==> UserList()[j].username != username
    {
      Find(UserList(), (u: User) => u.username == username)
    }

    function GetUsersByRole(role: string): (r: seq<User>)
      reads this
      requires Valid()
      ensures forall u :: u in r <==> u in users.Values && u.role == role
      ensures IsSubsequence(r, UserList())
    {
      Filter(UserList(), (u: User) => u.role == role)
    }

    method CreateUser(insert: InsertUser) returns (user: User)
      requires Valid()
      modifies this`users, this`currentUserId
      ensures Valid()
      ensures user == NewUser(old(currentUserId), insert)
      ensures old(currentUserId) !in old(users) && currentUserId == old(currentUserId) + 1
      ensures users == old(users)[user.id := user]
      ensures UserList() == old(UserList()) + [user]
      ensures old(UserIdsMatch()) ==> UserIdsMatch()
    {
      var id := currentUserId;
      user := NewUser(id, insert);
      RangeSnoc(1, id);
      ValuesOfInsert(users, Range(1, id), id, user);
      users := users[id := user];
      currentUserId := currentUserId + 1;
    }

    method UpdateUser(id: int, patch: UserPatch) returns (r: Option<User>)
      requires Valid()
      modifies this`users
      ensures Valid()
      ensures id !in old(users) ==> r.None? && users == old(users)
      ensures id in old(users) ==> r == Some(MergeUser(old(users[id]), patch)) && users == old(users)[id := r.value]
      ensures id in old(users) ==> UserList() == old(UserList())[id - 1 := r.value]
      ensures old(UserIdsMatch()) ==> (UserIdsMatch() <==> r.None? || patch.id.None? || patch.id == Some(id))
    {
      if id !in users {
        return None;
      }
      var updated := MergeUser(users[id], patch);
      ValuesOfOverwrite(users, Range(1, currentUserId), id - 1, updated);
      users := users[id := updated];
      r := Some(updated);
    }

    // ---- Specialty operations ----

    function GetSpecialty(id: int): (r: Option<Specialty>)
      reads this
      requires Valid()
      ensures r.Some? <==> id in specialties
      ensures r.Some? ==> r.value == specialties[id] && r.value.id == id
    {
      if id in specialties then Some(specialties[id]) else None
    }

    method CreateSpecialty(insert: InsertSpecialty) returns (specialty: Specialty)
      requires Valid()
      modifies this`specialties, this`currentSpecialtyId
      ensures Valid()
      ensures specialty == NewSpecialty(old(currentSpecialtyId), insert)
      ensures old(currentSpecialtyId) !in old(specialties) && currentSpecialtyId == old(currentSpecialtyId) + 1
      ensures specialties == old(specialties)[specialty.id := specialty]
      ensures SpecialtyList() == old(SpecialtyList()) + [specialty]
    {
      var id := currentSpecialtyId;
      specialty := NewSpecialty(id, insert);
      RangeSnoc(1, id);
      ValuesOfInsert(specialties, Range(1, id), id, specialty);
      specialties := specialties[id := specialty];
      currentSpecialtyId := currentSpecialtyId + 1;
    }

    // ---- Doctor operations ----

    function GetDoctor(id: int): (r: Option<Doctor>)
      reads this
      ensures r.Some? <==> id in doctors
      ensures r.Some? ==> r.value == doctors[id]
    {
      if id in doctors then Some(doctors[id]) else None
    }

    function GetDoctorsBySpecialty(specialtyId: int): (r: seq<Doctor>)
      reads this
      requires Valid()
      ensures forall d :: d in r <==> d in doctors.Values && d.specialtyId == specialtyId
      ensures IsSubsequence(r, DoctorList())
    {
      Filter(DoctorList(), (d: Doctor) => d.specialtyId == specialtyId)
    }

    /** The first doctor, in insertion order, linked to the given user. */
    function GetDoctorByUserId(userId: int): (r: Option<Doctor>)
      reads this
      requires Valid()
      ensures r.None? <==> forall d :: d in doctors.Values ==> d.userId != userId
      ensures r.Some? ==> r.value in doctors.Values && r.value.userId == userId
      ensures r.Some? ==>
        exists i :: 0 <= i < |DoctorList()| && DoctorList()[i] == r.value &&
          forall j :: 0 <= j < i ==> DoctorList()[j].userId != userId
    {
      Find(DoctorList(), (d: Doctor) => d.userId == userId)
    }

    method CreateDoctor(insert: InsertDoctor) returns (doctor: Doctor)
      requires Valid()
      modifies this`doctors, this`currentDoctorId
      ensures Valid()
      ensures doctor == NewDoctor(old(currentDoctorId), insert)
      ensures old(currentDoctorId) !in old(doctors) && currentDoctorId == old(currentDoctorId) + 1
      ensures doctors == old(doctors)[doctor.id := doctor]
      ensures DoctorList() == old(DoctorList()) + [doctor]
      ensures old(DoctorIdsMatch()) ==> DoctorIdsMatch()
    {
      var id := currentDoctorId;
      doctor := NewDoctor(id, insert);
      RangeSnoc(1, id);
      ValuesOfInsert(doctors, Range(1, id), id, doctor);
      doctors := doctors[id := doctor];
      currentDoctorId := currentDoctorId + 1;
    }

    method UpdateDoctor(id: int, patch: DoctorPatch) returns (r: Option<Doctor>)
      requires Valid()
      modifies this`doctors
      ensures Valid()
      ensures id !in old(doctors) ==> r.None? && doctors == old(doctors)
      ensures id in old(doctors) ==> r == Some(MergeDoctor(old(doctors[id]), patch)) && doctors == old(doctors)[id := r.value]
      ensures id in old(doctors) ==> DoctorList() == old(DoctorList())[id - 1 := r.value]
      ensures old(DoctorIdsMatch()) ==> (DoctorIdsMatch() <==> r.None? || patch.id.None? || patch.id == Some(id))
    {
      if id !in doctors {
        return None;
      }
      var updated := MergeDoctor(doctors[id], patch);
      ValuesOfOverwrite(doctors, Range(1, currentDoctorId), id - 1, updated);
      doctors := doctors[id := updated];
      r := Some(updated);
    }

    // ---- Appointment operations ----

    function GetAppointment(id: int): (r: Option<Appointment>)
      reads this
      ensures r.Some? <==> id in appointments
      ensures r.Some? ==> r.value == appointments[id]
    {
      if id in appointments then Some(appointments[id]) else None
    }

    function GetAppointmentsByUser(userId: int): (r: seq<Appointment>)
      reads this
      requires Valid()
      ensures forall a :: a in r <==> a in appointments.Values && a.userId == userId
      ensures IsSubsequence(r, AppointmentList())
    {
      Filter(AppointmentList(), (a: Appointment) => a.userId == userId)
    }

    function GetAppointmentsByDoctor(doctorId: int): (r: seq<Appointment>)
      reads this
      requires Valid()
      ensures forall a :: a in r <==> a in appointments.Values && a.doctorId == doctorId
      ensures IsSubsequence(r, AppointmentList())
    {
      Filter(AppointmentList(), (a: Appointment) => a.doctorId == doctorId)
    }

    function GetAppointmentsByDate(date: string): (r: seq<Appointment>)
      reads this
      requires Valid()
      ensures forall a :: a in r <==> a in appointments.Values && a.date == date
      ensures IsSubsequence(r, AppointmentList())
    {
      Filter(AppointmentList(), (a: Appointment) => a.date == date)
    }

    /** Appointments dated from `startDate` to `endDate`, both included, in string order. */
    function GetAppointmentsByDateRange(startDate: string, endDate: string): (r: seq<Appointment>)
      reads this
      requires Valid()
      ensures forall a :: a in r <==> a in appointments.Values && StringLeq(startDate, a.date) && StringLeq(a.date, endDate)
      ensures IsSubsequence(r, AppointmentList())
    {
      Filter(AppointmentList(), (a: Appointment) => StringLeq(startDate, a.date) && StringLeq(a.date, endDate))
    }

    method CreateAppointment(insert: InsertAppointment, now: Timestamp) returns (appointment: Appointment)
      requires Valid()
      modifies this`appointments, this`currentAppointmentId
      ensures Valid()
      ensures appointment == NewAppointment(old(currentAppointmentId), insert, now)
      ensures old(currentAppointmentId) !in old(appointments)
      ensures currentAppointmentId == old(currentAppointmentId) + 1
      ensures appointments == old(appointments)[appointment.id := appointment]
      ensures AppointmentList() == old(AppointmentList()) + [appointment]
      ensures old(AppointmentIdsMatch()) ==> AppointmentIdsMatch()
    {
      var id := currentAppointmentId;
      appointment := NewAppointment(id, insert, now);
      RangeSnoc(1, id);
      ValuesOfInsert(appointments, Range(1, id), id, appointment);
      appointments := appointments[id := appointment];
      currentAppointmentId := currentAppointmentId + 1;
    }

    method UpdateAppointment(id: int, patch: AppointmentPatch, now: Timestamp) returns (r: Option<Appointment>)
      requires Valid()
      modifies this`appointments
      ensures Valid()
      ensures id !in old(appointments) ==> r.None? && appointments == old(appointments)
      ensures id in old(appointments) ==>
        r == Some(MergeAppointment(old(appointments[id]), patch, now)) && appointments == old(appointments)[id := r.value]
      ensures id in old(appointments) ==> AppointmentList() == old(AppointmentList())[id - 1 := r.value]
      ensures old(AppointmentIdsMatch()) ==> (AppointmentIdsMatch() <==> r.None? || patch.id.None? || patch.id == Some(id))
    {
      if id !in appointments {
        return None;
      }
      var updated := MergeAppointment(appointments[id], patch, now);
      ValuesOfOverwrite(appointments, Range(1, currentAppointmentId), id - 1, updated);
      appointments := appointments[id := updated];
      r := Some(updated);
    }

    method UpdateAppointmentStatus(id: int, status: string, notes: Option<string>, now: Timestamp)
      returns (r: Option<Appointment>)
      requires Valid()
      modifies this`appointments
      ensures Valid()
      ensures id !in old(appointments) ==> r.None? && appointments == old(appointments)
      ensures id in old(appointments) ==>
        r == Some(WithStatus(old(appointments[id]), status, notes, now)) && appointments == old(appointments)[id := r.value]
      ensures id in old(appointments) ==> AppointmentList() == old(AppointmentList())[id - 1 := r.value]
      ensures old(AppointmentIdsMatch()) ==> AppointmentIdsMatch()
    {
      if id !in appointments {
        return None;
      }
      var updated := WithStatus(appointments[id], status, notes, now);
      ValuesOfOverwrite(appointments, Range(1, currentAppointmentId), id - 1, updated);
      appointments := appointments[id := updated];
      r := Some(updated);
    }

    // ---- Availability operations ----

    /** The record for (doctorId, date); there is at most one. */
    function GetAvailability(doctorId: int, date: string): (r: Option<Availability>)
      reads this
      requires Valid()
      ensures r.Some? <==> (doctorId, date) in availability
      ensures r.Some? ==> r.value.doctorId == doctorId && r.value.date == date
      ensures r.Some? ==> forall a :: a in availability.Values && KeyOf(a) == (doctorId, date) ==> a == r.value
    {
      if (doctorId, date) in availability then Some(availability[(doctorId, date)]) else None
    }

    function GetAvailabilityByDoctor(doctorId: int): (r: seq<Availability>)
      reads this
      requires Valid()
      ensures forall a :: a in r <==> a in availability.Values && a.doctorId == doctorId
      ensures IsSubsequence(r, AvailabilityList())
    {
      Filter(AvailabilityList(), (a: Availability) => a.doctorId == doctorId)
    }

    /**
     * Stores a new record under (doctorId, date), replacing any record already there; the
     * counter advances either way. A replaced key keeps its place in the listing.
     */
    method CreateAvailability(insert: InsertAvailability) returns (record: Availability)
      requires Valid()
      modifies this`availability, this`availabilityOrder, this`currentAvailabilityId
      ensures Valid()
      ensures record == NewAvailability(old(currentAvailabilityId), insert)
      ensures currentAvailabilityId == old(currentAvailabilityId) + 1
      ensures availability == old(availability)[KeyOf(record) := record]
      ensures KeyOf(record) in old(availability) ==> availabilityOrder == old(availabilityOrder)
      ensures KeyOf(record) !in old(availability) ==> availabilityOrder == old(availabilityOrder) + [KeyOf(record)]
      ensures GetAvailability(insert.doctorId, insert.date) == Some(record)
    {
      record := NewAvailability(currentAvailabilityId, insert);
      var key := KeyOf(record);
      if key !in availability {
        availabilityOrder := availabilityOrder + [key];
      }
      availability := availability[key := record];
      currentAvailabilityId := currentAvailabilityId + 1;
    }

    method UpdateAvailability(doctorId: int, date: string, timeSlots: seq<string>,
                              blockedHours: Option<seq<string>>, isHoliday: Option<bool>)
      returns (r: Option<Availability>)
      requires Valid()
      modifies this`availability
      ensures Valid()
      ensures (doctorId, date) !in old(availability) ==> r.None? && availability == old(availability)
      ensures (doctorId, date) in old(availability) ==>
        r == Some(UpdatedAvailability(old(availability[(doctorId, date)]), timeSlots, blockedHours, isHoliday)) &&
        availability == old(availability)[(doctorId, date) := r.value]
    {
      var key := (doctorId, date);
      if key !in availability {
        return None;
      }
      var updated := UpdatedAvailability(availability[key], timeSlots, blockedHours, isHoliday);
      availability := availability[key := updated];
      r := Some(updated);
    }

    // ---- Medical history operations ----

    function GetMedicalHistory(userId: int): (r: seq<MedicalHistory>)
      reads this
      requires Valid()
      ensures forall h :: h in r <==> h in medicalHistory.Values && h.userId == userId
      ensures IsSubsequence(r, MedicalHistoryList())
    {
      Filter(MedicalHistoryList(), (h: MedicalHistory) => h.userId == userId)
    }

    /** The first entry, in insertion order, that refers to the given appointment. */
    function GetMedicalHistoryByAppointment(appointmentId: int): (r: Option<MedicalHistory>)
      reads this
      requires Valid()
      ensures r.None? <==> forall h :: h in medicalHistory.Values ==> h.appointmentId != Some(appointmentId)
      ensures r.Some? ==> r.value in medicalHistory.Values && r.value.appointmentId == Some(appointmentId)
      ensures r.Some? ==>
        exists i :: 0 <= i < |MedicalHistoryList()| && MedicalHistoryList()[i] == r.value &&
          forall j :: 0 <= j < i ==> MedicalHistoryList()[j].appointmentId != Some(appointmentId)
    {
      Find(MedicalHistoryList(), (h: MedicalHistory) => h.appointmentId == Some(appointmentId))
    }

    method CreateMedicalHistory(insert: InsertMedicalHistory, now: Timestamp) returns (history: MedicalHistory)
      requires Valid()
      modifies this`medicalHistory, this`currentMedicalHistoryId
      ensures Valid()
      ensures history == NewMedicalHistory(old(currentMedicalHistoryId), insert, now)
      ensures old(currentMedicalHistoryId) !in old(medicalHistory)
      ensures currentMedicalHistoryId == old(currentMedicalHistoryId) + 1
      ensures medicalHistory == old(medicalHistory)[history.id := history]
      ensures MedicalHistoryList() == old(MedicalHistoryList()) + [history]
      ensures old(MedicalHistoryIdsMatch()) ==> MedicalHistoryIdsMatch()
    {
      var id := currentMedicalHistoryId;
      history := NewMedicalHistory(id, insert, now);
      RangeSnoc(1, id);
      ValuesOfInsert(medicalHistory, Range(1, id), id, history);
      medicalHistory := medicalHistory[id := history];
      currentMedicalHistoryId := currentMedicalHistoryId + 1;
    }

    method UpdateMedicalHistory(id: int, patch: MedicalHistoryPatch) returns (r: Option<MedicalHistory>)
      requires Valid()
      modifies this`medicalHistory
      ensures Valid()
      ensures id !in old(medicalHistory) ==> r.None? && medicalHistory == old(medicalHistory)
      ensures id in old(medicalHistory) ==>
        r == Some(MergeMedicalHistory(old(medicalHistory[id]), patch)) && medicalHistory == old(medicalHistory)[id := r.value]
      ensures id in old(medicalHistory) ==> MedicalHistoryList() == old(MedicalHistoryList())[id - 1 := r.value]
      ensures old(MedicalHistoryIdsMatch()) ==> (MedicalHistoryIdsMatch() <==> r.None? || patch.id.None? || patch.id == Some(id))
    {
      if id !in medicalHistory {
        return None;
      }
      var updated := MergeMedicalHistory(medicalHistory[id], patch);
      ValuesOfOverwrite(medicalHistory, Range(1, currentMedicalHistoryId), id - 1, updated);
      medicalHistory := medicalHistory[id := updated];
      r := Some(updated);
    }
  }
}
