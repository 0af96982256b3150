/**
 * The booking form's pure parts: the 12-hour rendering of an `HH:MM` slot (the same helper
 * appears on the appointments page, the upcoming-appointments list and the confirmation
 * dialog), the fixed labels of the slot picker, the required-field rules and the payload
 * the form submits.
 */
module AppointmentForm {
  import opened Wrappers
  import opened JsText
  import opened Schema
  import opened Tables
  import opened Storage

  // ---- 12-hour time ----

  /** `hour > 12 ? hour - 12 : hour === 0 ? 12 : hour`: the hour on a 12-hour dial. */
  function DisplayHour(hour: int): (d: int)
    ensures 0 <= hour <= 23 ==> 1 <= d <= 12 && d % 12 == hour % 12
  {
    if hour > 12 then hour - 12 else if hour == 0 then 12 else hour
  }

  /** The 24-hour hour a 12-hour dial reading stands for. */
  function To24Hour(d: int, pm: bool): int {
    d % 12 + (if pm then 12 else 0)
  }

  /** The dial reading and the AM/PM mark determine the hour again. */
  lemma DisplayHourRoundTrip(hour: int)
    requires 0 <= hour <= 23
    ensures To24Hour(DisplayHour(hour), hour >= 12) == hour
  {
  }

  /** The mark `formatTimeWithAMPM` appends: "PM" exactly when the hour reads as 12 or more. */
  function Meridiem(hour: Option<int>): (m: string)
    ensures m == "PM" <==> hour.Some? && hour.value >= 12
    ensures m == "AM" || m == "PM"
  {
    if hour.Some? && hour.value >= 12 then "PM" else "AM"
  }

  /**
   * `formatTimeWithAMPM`: split at ':', read the hour with `parseInt`, print the 12-hour hour,
   * the minutes text as given and the mark. An unreadable hour prints as "NaN" and is marked
   * "AM"; text without ':' has "undefined" minutes.
   */
  function FormatTimeWithAMPM(time: string): (r: string)
    ensures var hour := ParseInt(Split(time, ':')[0]);
      |r| >= 3 && r[|r| - 3..] == " " + Meridiem(hour)
    ensures ParseInt(Split(time, ':')[0]).None? ==> |r| >= 4 && r[..4] == "NaN:"
  {
    var parts := Split(time, ':');
    var hour := ParseInt(parts[0]);
    var minutes := if |parts| >= 2 then parts[1] else "undefined";
    var displayHour := if hour.None? then "NaN" else IntToString(DisplayHour(hour.value));
    var head, mark := displayHour + ":" + minutes, " " + Meridiem(hour);
    SplitConcat(head, mark);
    assert hour.None? ==> head[..4] == "NaN:";
    head + mark
  }

  /** A concatenation splits back into its two parts. */
  lemma SplitConcat(a: string, b: string)
    ensures (a + b)[|a|..] == b && (a + b)[..|a|] == a
  {
  }

  /** A slot as the server stores it: two-digit hour 00..23, ':', two-digit minutes 00..59. */
  predicate IsClockTime(t: string) {
    |t| == 5 && t[2] == ':' && AllDigits(t[..2]) && AllDigits(t[3..]) &&
    DigitsValue(t[..2]) < 24 && DigitsValue(t[3..]) < 60
  }

  /**
   * On a clock time the result is the 12-hour hour without a leading zero, ':', the minutes
   * text unchanged, and "AM" before noon, "PM" from noon on.
   */
  lemma FormatClockTime(t: string)
    requires IsClockTime(t)
    ensures var hour := DigitsValue(t[..2]);
      FormatTimeWithAMPM(t) == NatToString(DisplayHour(hour)) + ":" + t[3..] + " " + (if hour < 12 then "AM" else "PM")
    ensures FormatTimeWithAMPM(t)[0] != '0'
  {
    var hh, mm := t[..2], t[3..];
    assert t == hh + [':'] + mm;
    assert ':' !in hh && ':' !in mm by {
      assert forall i :: 0 <= i < 2 ==> IsDigit(hh[i]);
      assert forall i :: 0 <= i < 2 ==> IsDigit(mm[i]);
    }
    SplitOnce(hh, mm, ':');
    ParseIntOfDigits(hh);
    var hour := DigitsValue(hh);
    FormatOfSplit(t, hh, mm, hour);
    var text := NatToString(DisplayHour(hour));
    assert IntToString(DisplayHour(hour)) == text;
    assert Meridiem(Some(hour)) == (if hour < 12 then "AM" else "PM");
    assert (text + ":" + mm + " " + Meridiem(Some(hour)))[0] == text[0];
  }

  /** The formatted time of a text that splits into an hour and a minutes part. */
  lemma FormatOfSplit(time: string, hh: string, mm: string, hour: int)
    requires Split(time, ':') == [hh, mm] && ParseInt(hh) == Some(hour)
    ensures FormatTimeWithAMPM(time) == IntToString(DisplayHour(hour)) + ":" + mm + " " + Meridiem(Some(hour))
  {
  }

  // ---- The slot picker ----

  /** The slots the picker labels from its own table, each with a zero-padded hour. */
  const StandardSlots: seq<string> := [
    "08:00", "08:30", "09:00", "09:30", "10:00", "10:30", "11:00", "11:30",
    "14:00", "14:30", "15:00", "15:30", "16:00", "16:30"]

  /** The picker's own table of labels: the chain of slot comparisons, or `None` past its end. */
  function TableLabel(slot: string): (entry: Option<string>)
    ensures slot !in StandardSlots ==> entry.None?
  {
    if slot == "08:00" then Some("08:00 AM")
    else if slot == "08:30" then Some("08:30 AM")
    else if slot == "09:00" then Some("09:00 AM")
    else if slot == "09:30" then Some("09:30 AM")
    else if slot == "10:00" then Some("10:00 AM")
    else if slot == "10:30" then Some("10:30 AM")
    else if slot == "11:00" then Some("11:00 AM")
    else if slot == "11:30" then Some("11:30 AM")
    else if slot == "14:00" then Some("02:00 PM")
    else if slot == "14:30" then Some("02:30 PM")
    else if slot == "15:00" then Some("03:00 PM")
    else if slot == "15:30" then Some("03:30 PM")
    else if slot == "16:00" then Some("04:00 PM")
    else if slot == "16:30" then Some("04:30 PM")
    else None
  }

  /** The label the picker shows for a slot: the table's, or the formatted time for any other slot. */
  function SlotLabel(slot: string): (text: string)
    ensures slot !in StandardSlots ==> text == FormatTimeWithAMPM(slot)
  {
    match TableLabel(slot)
    case Some(entry) => entry
    case None => FormatTimeWithAMPM(slot)
  }

  /** An hour of the dial padded to two digits, followed by the rest of the label. */
  lemma PadDialHour(d: nat, tail: string)
    requires 1 <= d <= 12 && |tail| == 6
    ensures PadStart(NatToString(d) + tail, 8, '0') == Digits(d, 2) + tail
  {
    assert Pow10(2) == 100;
    PadStartIsDigits(d, 2);
    PadStartAppend(NatToString(d), tail, 2, '0');
  }

  lemma Regroup(hour: string, mm: string, mark: string)
    ensures hour + ":" + mm + " " + mark == hour + (":" + mm + " " + mark)
  {
  }

  /** Padding the formatted time of a clock time to eight characters gives a two-digit hour. */
  lemma PaddedClockTime(t: string)
    requires IsClockTime(t)
    ensures var hour := DigitsValue(t[..2]);
      PadStart(FormatTimeWithAMPM(t), 8, '0') ==
        Digits(DisplayHour(hour), 2) + ":" + t[3..] + " " + (if hour < 12 then "AM" else "PM")
  {
    FormatClockTime(t);
    var hour := DigitsValue(t[..2]);
    var d, mm, mark := DisplayHour(hour), t[3..], if hour < 12 then "AM" else "PM";
    var tail := ":" + mm + " " + mark;
    assert |tail| == 6;
    Regroup(NatToString(d), mm, mark);
    Regroup(Digits(d, 2), mm, mark);
    PadDialHour(d, tail);
  }

  /** A morning clock time, padded: the slot itself followed by " AM". */
  lemma MorningShape(t: string)
    requires IsClockTime(t) && 1 <= DigitsValue(t[..2]) < 12
    ensures var hour := DigitsValue(t[..2]);
      Digits(DisplayHour(hour), 2) + ":" + t[3..] + " " + "AM" == t + " AM"
  {
    DigitsOfDigitsValue(t[..2]);
    assert t == t[..2] + ":" + t[3..];
  }

  /** An afternoon clock time from 13:00 to 21:59, padded: '0', the dial hour, the minutes, " PM". */
  lemma AfternoonShape(t: string)
    requires IsClockTime(t) && 13 <= DigitsValue(t[..2]) <= 21
    ensures var hour := DigitsValue(t[..2]);
      Digits(DisplayHour(hour), 2) + ":" + t[3..] + " " + "PM" == ['0', DigitChar(hour - 12)] + ":" + t[3..] + " PM"
  {
    var d := DigitsValue(t[..2]) - 12;
    assert Digits(d, 2) == Digits(0, 1) + [DigitChar(d)];
    assert Digits(d, 2) == ['0', DigitChar(d)];
    JoinMark(['0', DigitChar(d)], t[3..], "PM");
  }

  lemma JoinMark(hour: string, mm: string, mark: string)
    ensures hour + ":" + mm + " " + mark == hour + ":" + mm + (" " + mark)
  {
  }

  /** The value of a two-digit field. */
  lemma TwoDigitValue(s: string)
    requires |s| == 2 && AllDigits(s)
    ensures DigitsValue(s) == 10 * DigitValue(s[0]) + DigitValue(s[1])
  {
    assert s[..1][..0] == [];
    assert DigitsValue(s[..1]) == DigitValue(s[0]);
    assert DigitsValue(s) == DigitsValue(s[..1]) * 10 + DigitValue(s[1]);
  }

  /** What a slot of the table looks like and the label the table gives it. */
  predicate TableEntry(slot: string) {
    IsClockTime(slot) &&
    var hour := DigitsValue(slot[..2]);
    (hour < 12 ==> 1 <= hour && TableLabel(slot) == Some(slot + " AM")) &&
    (hour >= 12 ==> 13 <= hour <= 21 && TableLabel(slot) == Some(['0', DigitChar(hour - 12)] + ":" + slot[3..] + " PM"))
  }

  /** A morning slot of the table, from its clock facts and its table label. */
  lemma MorningEntry(slot: string)
    requires IsClockTime(slot) && 1 <= DigitsValue(slot[..2]) < 12
    requires TableLabel(slot) == Some(slot + " AM")
    ensures TableEntry(slot)
  {
  }

  /** An afternoon slot of the table, from its clock facts and its table label. */
  lemma AfternoonEntry(slot: string, d: nat)
    requires IsClockTime(slot) && DigitsValue(slot[..2]) == d + 12 && 1 <= d <= 9
    requires TableLabel(slot) == Some(['0', DigitChar(d)] + ":" + slot[3..] + " PM")
    ensures TableEntry(slot)
  {
  }

  lemma Entry0800()
    ensures TableEntry("08:00")
  {
    assert IsClockTime("08:00") && DigitsValue("08:00"[..2]) == 8 by {
      assert "08:00"[..2] == "08" && "08:00"[3..] == "00";
      TwoDigitValue("08");
      TwoDigitValue("00");
    }
    assert TableLabel("08:00") == Some("08:00 AM") && "08:00 AM" == "08:00" + " AM";
    MorningEntry("08:00");
  }

  lemma Entry0830()
    ensures TableEntry("08:30")
  {
    assert IsClockTime("08:30") && DigitsValue("08:30"[..2]) == 8 by {
      assert "08:30"[..2] == "08" && "08:30"[3..] == "30";
      TwoDigitValue("08");
      TwoDigitValue("30");
    }
    assert TableLabel("08:30") == Some("08:30 AM") && "08:30 AM" == "08:30" + " AM";
    MorningEntry("08:30");
  }

  lemma Entry0900()
    ensures TableEntry("09:00")
  {
    assert IsClockTime("09:00") && DigitsValue("09:00"[..2]) == 9 by {
      assert "09:00"[..2] == "09" && "09:00"[3..] == "00";
      TwoDigitValue("09");
      TwoDigitValue("00");
    }
    assert TableLabel("09:00") == Some("09:00 AM") && "09:00 AM" == "09:00" + " AM";
    MorningEntry("09:00");
  }

  lemma Entry0930()
    ensures TableEntry("09:30")
  {
    assert IsClockTime("09:30") && DigitsValue("09:30"[..2]) == 9 by {
      assert "09:30"[..2] == "09" && "09:30"[3..] == "30";
      TwoDigitValue("09");
      TwoDigitValue("30");
    }
    assert TableLabel("09:30") == Some("09:30 AM") && "09:30 AM" == "09:30" + " AM";
    MorningEntry("09:30");
  }

  lemma Entry1000()
    ensures TableEntry("10:00")
  {
    assert IsClockTime("10:00") && DigitsValue("10:00"[..2]) == 10 by {
      assert "10:00"[..2] == "10" && "10:00"[3..] == "00";
      TwoDigitValue("10");
      TwoDigitValue("00");
    }
    assert TableLabel("10:00") == Some("10:00 AM") && "10:00 AM" == "10:00" + " AM";
    MorningEntry("10:00");
  }

  lemma Entry1030()
    ensures TableEntry("10:30")
  {
    assert IsClockTime("10:30") && DigitsValue("10:30"[..2]) == 10 by {
      assert "10:30"[..2] == "10" && "10:30"[3..] == "30";
      TwoDigitValue("10");
      TwoDigitValue("30");
    }
    assert TableLabel("10:30") == Some("10:30 AM") && "10:30 AM" == "10:30" + " AM";
    MorningEntry("10:30");
  }

  lemma Entry1100()
    ensures TableEntry("11:00")
  {
    assert IsClockTime("11:00") && DigitsValue("11:00"[..2]) == 11 by {
      assert "11:00"[..2] == "11" && "11:00"[3..] == "00";
      TwoDigitValue("11");
      TwoDigitValue("00");
    }
    assert TableLabel("11:00") == Some("11:00 AM") && "11:00 AM" == "11:00" + " AM";
    MorningEntry("11:00");
  }

  lemma Entry1130()
    ensures TableEntry("11:30")
  {
    assert IsClockTime("11:30") && DigitsValue("11:30"[..2]) == 11 by {
      assert "11:30"[..2] == "11" && "11:30"[3..] == "30";
      TwoDigitValue("11");
      TwoDigitValue("30");
    }
    assert TableLabel("11:30") == Some("11:30 AM") && "11:30 AM" == "11:30" + " AM";
    MorningEntry("11:30");
  }

  lemma Entry1400()
    ensures TableEntry("14:00")
  {
    assert IsClockTime("14:00") && DigitsValue("14:00"[..2]) == 14 by {
      assert "14:00"[..2] == "14" && "14:00"[3..] == "00";
      TwoDigitValue("14");
      TwoDigitValue("00");
    }
    assert TableLabel("14:00") == Some(['0', DigitChar(2)] + ":" + "14:00"[3..] + " PM") by {
      assert "14:00"[3..] == "00";
      assert DigitChar(2) == '2';
      assert TableLabel("14:00") == Some("02:00 PM") && "02:00 PM" == ['0', '2'] + ":" + "00" + " PM";
    }
    AfternoonEntry("14:00", 2);
  }

  lemma Entry1430()
    ensures TableEntry("14:30")
  {
    assert IsClockTime("14:30") && DigitsValue("14:30"[..2]) == 14 by {
      assert "14:30"[..2] == "14" && "14:30"[3..] == "30";
      TwoDigitValue("14");
      TwoDigitValue("30");
    }
    assert TableLabel("14:30") == Some(['0', DigitChar(2)] + ":" + "14:30"[3..] + " PM") by {
      assert "14:30"[3..] == "30";
      assert DigitChar(2) == '2';
      assert TableLabel("14:30") == Some("02:30 PM") && "02:30 PM" == ['0', '2'] + ":" + "30" + " PM";
    }
    AfternoonEntry("14:30", 2);
  }

  lemma Entry1500()
    ensures TableEntry("15:00")
  {
    assert IsClockTime("15:00") && DigitsValue("15:00"[..2]) == 15 by {
      assert "15:00"[..2] == "15" && "15:00"[3..] == "00";
      TwoDigitValue("15");
      TwoDigitValue("00");
    }
    assert TableLabel("15:00") == Some(['0', DigitChar(3)] + ":" + "15:00"[3..] + " PM") by {
      assert "15:00"[3..] == "00";
      assert DigitChar(3) == '3';
      assert TableLabel("15:00") == Some("03:00 PM") && "03:00 PM" == ['0', '3'] + ":" + "00" + " PM";
    }
    AfternoonEntry("15:00", 3);
  }

  lemma Entry1530()
    ensures TableEntry("15:30")
  {
    assert IsClockTime("15:30") && DigitsValue("15:30"[..2]) == 15 by {
      assert "15:30"[..2] == "15" && "15:30"[3..] == "30";
      TwoDigitValue("15");
      TwoDigitValue("30");
    }
    assert TableLabel("15:30") == Some(['0', DigitChar(3)] + ":" + "15:30"[3..] + " PM") by {
      assert "15:30"[3..] == "30";
      assert DigitChar(3) == '3';
      assert TableLabel("15:30") == Some("03:30 PM") && "03:30 PM" == ['0', '3'] + ":" + "30" + " PM";
    }
    AfternoonEntry("15:30", 3);
  }

  lemma Entry1600()
    ensures TableEntry("16:00")
  {
    assert IsClockTime("16:00") && DigitsValue("16:00"[..2]) == 16 by {
      assert "16:00"[..2] == "16" && "16:00"[3..] == "00";
      TwoDigitValue("16");
      TwoDigitValue("00");
    }
    assert TableLabel("16:00") == Some(['0', DigitChar(4)] + ":" + "16:00"[3..] + " PM") by {
      assert "16:00"[3..] == "00";
      assert DigitChar(4) == '4';
      assert TableLabel("16:00") == Some("04:00 PM") && "04:00 PM" == ['0', '4'] + ":" + "00" + " PM";
    }
    AfternoonEntry("16:00", 4);
  }

  lemma Entry1630()
    ensures TableEntry("16:30")
  {
    assert IsClockTime("16:30") && DigitsValue("16:30"[..2]) == 16 by {
      assert "16:30"[..2] == "16" && "16:30"[3..] == "30";
      TwoDigitValue("16");
      TwoDigitValue("30");
    }
    assert TableLabel("16:30") == Some(['0', DigitChar(4)] + ":" + "16:30"[3..] + " PM") by {
      assert "16:30"[3..] == "30";
      assert DigitChar(4) == '4';
      assert TableLabel("16:30") == Some("04:30 PM") && "04:30 PM" == ['0', '4'] + ":" + "30" + " PM";
    }
    AfternoonEntry("16:30", 4);
  }

  /** The table's slots, one by one. */
  lemma SlotCases(slot: string)
    requires slot in StandardSlots
    ensures
      slot == "08:00" || slot == "08:30" || slot == "09:00" || slot == "09:30" ||
      slot == "10:00" || slot == "10:30" || slot == "11:00" || slot == "11:30" ||
      slot == "14:00" || slot == "14:30" || slot == "15:00" || slot == "15:30" ||
      slot == "16:00" || slot == "16:30"
  {
    var i :| 0 <= i < |StandardSlots| && StandardSlots[i] == slot;
  }

  lemma TableEntries(slot: string)
    requires slot in StandardSlots
    ensures TableEntry(slot)
  {
    SlotCases(slot);
    if slot == "08:00" {
      Entry0800();
    } else if slot == "08:30" {
      Entry0830();
    } else if slot == "09:00" {
      Entry0900();
    } else if slot == "09:30" {
      Entry0930();
    } else if slot == "10:00" {
      Entry1000();
    } else if slot == "10:30" {
      Entry1030();
    } else if slot == "11:00" {
      Entry1100();
    } else if slot == "11:30" {
      Entry1130();
    } else if slot == "14:00" {
      Entry1400();
    } else if slot == "14:30" {
      Entry1430();
    } else if slot == "15:00" {
      Entry1500();
    } else if slot == "15:30" {
      Entry1530();
    } else if slot == "16:00" {
      Entry1600();
    } else {
      Entry1630();
    }
  }

  /** The table's labels are the formatted times padded to a two-digit hour. */
  lemma StandardSlotLabels(slot: string)
    requires slot in StandardSlots
    ensures SlotLabel(slot) == PadStart(FormatTimeWithAMPM(slot), 8, '0')
  {
    TableEntries(slot);
    PaddedClockTime(slot);
    if DigitsValue(slot[..2]) < 12 {
      MorningShape(slot);
    } else {
      AfternoonShape(slot);
    }
  }

  // ---- Required fields ----

  /** What the form holds: the select and input values as text; the reason may be absent. */
  datatype FormData = FormData(specialtyId: string, doctorId: string, date: string, time: string,
                               reason: Option<string>)

  /** The fields with a minimum length of one, in the order they are declared. */
  datatype Field = SpecialtyField | DoctorField | DateField | TimeField

  const RequiredFields: seq<Field> := [SpecialtyField, DoctorField, DateField, TimeField]

  function FieldText(data: FormData, f: Field): string {
    match f
    case SpecialtyField => data.specialtyId
    case DoctorField => data.doctorId
    case DateField => data.date
    case TimeField => data.time
  }

  /** The message shown under an empty required field. */
  function Message(f: Field): string {
    match f
    case SpecialtyField => "Debe seleccionar una especialidad"
    case DoctorField => "Debe seleccionar un doctor"
    case DateField => "Debe seleccionar una fecha"
    case TimeField => "Debe seleccionar una hora"
  }

  datatype FieldError = FieldError(field: Field, message: string)

  datatype Validation = Accepted(data: FormData) | Rejected(errors: seq<FieldError>)

  function ErrorsFor(fields: seq<Field>): (errors: seq<FieldError>)
    ensures |errors| == |fields|
    ensures forall i :: 0 <= i < |fields| ==> errors[i] == FieldError(fields[i], Message(fields[i]))
  {
    if fields == [] then [] else [FieldError(fields[0], Message(fields[0]))] + ErrorsFor(fields[1..])
  }

  /**
   * `appointmentSchema`: the form is accepted exactly when the four required fields are
   * non-empty, whatever the reason holds; otherwise each empty field gets its message, in
   * field order.
   */
  function ValidateForm(data: FormData): (r: Validation)
    ensures r.Accepted? <==> forall f :: f in RequiredFields ==> FieldText(data, f) != ""
    ensures r.Accepted? ==> r.data == data
    ensures r.Rejected? ==>
      |r.errors| > 0 &&
      (forall e :: e in r.errors ==> e.message == Message(e.field)) &&
      (forall f :: f in RequiredFields ==> (FieldText(data, f) == "" <==> exists e :: e in r.errors && e.field == f))
    ensures r.Rejected? ==> IsSubsequence(FieldsOf(r.errors), RequiredFields)
  {
    var empty := Filter(RequiredFields, (f: Field) => FieldText(data, f) == "");
    if empty == [] then
      Accepted(data)
    else
      var errors := ErrorsFor(empty);
      ErrorsForFields(empty);
      assert empty[0] in empty;
      Rejected(errors)
  }

  /** The errors for a list of fields: one per field, in order, each with its message. */
  lemma ErrorsForFields(fields: seq<Field>)
    ensures FieldsOf(ErrorsFor(fields)) == fields
    ensures forall e :: e in ErrorsFor(fields) ==> e.message == Message(e.field)
    ensures forall f :: f in fields <==> exists e :: e in ErrorsFor(fields) && e.field == f
  {
    var errors := ErrorsFor(fields);
    assert FieldsOf(errors) == fields;
    forall e | e in errors
      ensures e.message == Message(e.field)
    {
      var i :| 0 <= i < |errors| && errors[i] == e;
    }
    forall f | f in fields
      ensures exists e :: e in errors && e.field == f
    {
      var i :| 0 <= i < |fields| && fields[i] == f;
      assert errors[i] in errors;
    }
  }

  function FieldsOf(errors: seq<FieldError>): (fields: seq<Field>)
    ensures |fields| == |errors| && forall i :: 0 <= i < |errors| ==> fields[i] == errors[i].field
  {
    if errors == [] then [] else [errors[0].field] + FieldsOf(errors[1..])
  }

  /** The reason is optional: an absent or empty reason never causes a rejection. */
  lemma ReasonIsOptional(data: FormData, reason: Option<string>)
    ensures ValidateForm(data.(reason := reason)).Accepted? == ValidateForm(data).Accepted?
  {
  }

  // ---- Submission ----

  /** The body `onSubmit` posts; an id that does not parse is `NaN` (here `None`). */
  datatype Payload = Payload(userId: int, specialtyId: Option<int>, doctorId: Option<int>, date: string,
                             time: string, reason: Option<string>, status: string)

  /** `onSubmit`: the fixed user 1, the ids read with `parseInt`, status "confirmed". */
  function SubmitPayload(data: FormData): (p: Payload)
    ensures p.userId == 1 && p.status == Confirmed
    ensures p.date == data.date && p.time == data.time && p.reason == data.reason
    ensures p.specialtyId.None? <==> ParseInt(data.specialtyId).None?
    ensures p.doctorId.None? <==> ParseInt(data.doctorId).None?
  {
    Payload(1, ParseInt(data.specialtyId), ParseInt(data.doctorId), data.date, data.time, data.reason, Confirmed)
  }

  /** The select options carry `id.toString()`, so the ids submitted are the ids selected. */
  lemma SubmitPayloadIds(data: FormData, specialtyId: int, doctorId: int)
    requires data.specialtyId == IntToString(specialtyId) && data.doctorId == IntToString(doctorId)
    ensures SubmitPayload(data).specialtyId == Some(specialtyId)
    ensures SubmitPayload(data).doctorId == Some(doctorId)
  {
    ParseIntOfIntToString(specialtyId);
    ParseIntOfIntToString(doctorId);
  }

  /** The appointment the server stores for a submitted payload whose ids both parse. */
  function PayloadInsert(p: Payload): (a: InsertAppointment)
    requires p.specialtyId.Some? && p.doctorId.Some?
    ensures a.userId == p.userId && a.doctorId == p.doctorId.value && a.specialtyId == p.specialtyId.value
    ensures a.date == p.date && a.time == p.time && a.status == Some(p.status)
  {
    InsertAppointment(p.userId, p.doctorId.value, p.specialtyId.value, p.date, p.time, p.reason, Some(p.status), None)
  }

  /** A booking made through the form is stored as a confirmed appointment of user 1. */
  lemma SubmittedBookingIsConfirmed(data: FormData, id: int, now: Timestamp)
    requires SubmitPayload(data).specialtyId.Some? && SubmitPayload(data).doctorId.Some?
    ensures NewAppointment(id, PayloadInsert(SubmitPayload(data)), now).status == Confirmed
    ensures NewAppointment(id, PayloadInsert(SubmitPayload(data)), now).userId == 1
  {
  }
}
