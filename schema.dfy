/**
 * The records of the scheduling system: one datatype per stored entity, the insert form a
 * caller supplies to `create*`, and the partial form `update*` spreads over a stored record.
 * In a partial, `None` means the key is absent; for a nullable column the value itself is
 * an `Option`, so `Some(None)` writes `null`.
 */
module Schema {
  import opened Wrappers

  /** A point in time from the caller's clock (milliseconds); `new Date()` is a parameter. */
  type Timestamp = int

  datatype User = User(
    id: int, username: string, password: string, fullName: string,
    socialSecurityId: string, role: string, email: Option<string>, phone: Option<string>)

  datatype InsertUser = InsertUser(
    username: string, password: string, fullName: string, socialSecurityId: string,
    role: Option<string>, email: Option<string>, phone: Option<string>)

  datatype UserPatch = UserPatch(
    id: Option<int>, username: Option<string>, password: Option<string>,
    fullName: Option<string>, socialSecurityId: Option<string>, role: Option<string>,
    email: Option<Option<string>>, phone: Option<Option<string>>)

  datatype Specialty = Specialty(id: int, name: string, description: Option<string>)

  datatype InsertSpecialty = InsertSpecialty(name: string, description: Option<string>)

  datatype Doctor = Doctor(
    id: int, userId: int, name: string, specialtyId: int,
    isAvailable: Option<bool>, licenseNumber: Option<string>)

  datatype InsertDoctor = InsertDoctor(
    userId: int, name: string, specialtyId: int,
    isAvailable: Option<bool>, licenseNumber: Option<string>)

  datatype DoctorPatch = DoctorPatch(
    id: Option<int>, userId: Option<int>, name: Option<string>, specialtyId: Option<int>,
    isAvailable: Option<Option<bool>>, licenseNumber: Option<Option<string>>)

  datatype Appointment = Appointment(
    id: int, userId: int, doctorId: int, specialtyId: int, date: string, time: string,
    reason: Option<string>, status: string, notes: Option<string>,
    createdAt: Timestamp, updatedAt: Timestamp)

  datatype InsertAppointment = InsertAppointment(
    userId: int, doctorId: int, specialtyId: int, date: string, time: string,
    reason: Option<string>, status: Option<string>, notes: Option<string>)

  datatype AppointmentPatch = AppointmentPatch(
    id: Option<int>, userId: Option<int>, doctorId: Option<int>, specialtyId: Option<int>,
    date: Option<string>, time: Option<string>, reason: Option<Option<string>>,
    status: Option<string>, notes: Option<Option<string>>,
    createdAt: Option<Timestamp>, updatedAt: Option<Timestamp>)

  datatype Availability = Availability(
    id: int, doctorId: int, date: string, timeSlots: Option<seq<string>>,
    isHoliday: Option<bool>, blockedHours: Option<seq<string>>)

  datatype InsertAvailability = InsertAvailability(
    doctorId: int, date: string, timeSlots: Option<seq<string>>,
    isHoliday: Option<bool>, blockedHours: Option<seq<string>>)

  datatype MedicalHistory = MedicalHistory(
    id: int, userId: int, appointmentId: Option<int>, diagnosis: Option<string>,
    treatment: Option<string>, medications: Option<string>, allergies: Option<string>,
    notes: Option<string>, createdAt: Timestamp)

  datatype InsertMedicalHistory = InsertMedicalHistory(
    userId: int, appointmentId: Option<int>, diagnosis: Option<string>,
    treatment: Option<string>, medications: Option<string>, allergies: Option<string>,
    notes: Option<string>)

  datatype MedicalHistoryPatch = MedicalHistoryPatch(
    id: Option<int>, userId: Option<int>, appointmentId: Option<Option<int>>,
    diagnosis: Option<Option<string>>, treatment: Option<Option<string>>,
    medications: Option<Option<string>>, allergies: Option<Option<string>>,
    notes: Option<Option<string>>, createdAt: Option<Timestamp>)

  const Confirmed := "confirmed"
  const Pending := "pending"
  const Cancelled := "cancelled"

  /** An appointment holds its slot unless it is cancelled. */
  predicate HoldsSlot(a: Appointment) {
    a.status != Cancelled
  }

  /** `s || null` for a nullable text: the empty string is falsy and becomes `null`. */
  function TextOrNull(s: Option<string>): (r: Option<string>)
    ensures r.Some? <==> s.Some? && s.value != ""
    ensures r.Some? ==> r == s
  {
    if s.Some? && s.value != "" then s else None
  }

  /** `s || fallback` for an optional text. */
  function TextOr(s: Option<string>, fallback: string): (r: string)
    ensures s.Some? && s.value != "" ==> r == s.value
    ensures s.None? || s.value == "" ==> r == fallback
  {
    if s.Some? && s.value != "" then s.value else fallback
  }
}
