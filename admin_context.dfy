/** The admin client's shared helpers (`AppContext`): the `d_m_y` slot-date
    formatter, the local availability toggle and cancellation of the lists it
    keeps, and the unwrapping of a reference-preserving JSON list. */
module AdminContext {
  import opened Common
  import opened Text
  import opened Lists
  import JsonNames

  /** The argument of `slotDateFormat`: a string, or any other value
      (`null`, `undefined`, a number, an object). */
  datatype SlotDate = NotAString | Str(s: string)

  const InvalidDate: string := "Invalid Date"

  const Months: seq<string> := ["Jan", "Feb", "Mar", "Apr", "May", "Jun", "Jul", "Aug", "Sep", "Oct", "Nov", "Dec"]

  /** A slot date the formatter accepts: three `_`-separated pieces whose
      middle one reads as a number from 1 to 12. */
  predicate SlotDateOk(s: string) {
    var parts := Split(s, '_');
    && |parts| == 3
    && JsNumber(parts[1]).Some?
    && 1.0 <= JsNumber(parts[1]).value <= 12.0
  }

  /** `months[m - 1]` as a template prints it: the abbreviation for a whole
      month number, and "undefined" for a fractional one, which indexes no
      element of the array. */
  function MonthName(m: real): (r: string)
    requires 1.0 <= m <= 12.0
    ensures m == m.Floor as real ==> 1 <= m.Floor <= 12 && r == Months[m.Floor - 1]
    ensures m != m.Floor as real ==> r == "undefined"
  {
    if m == m.Floor as real then Months[m.Floor - 1] else "undefined"
  }

  /** `slotDateFormat`: "day month year" for an accepted slot date, and
      "Invalid Date" for anything else, an empty string included. */
  function SlotDateFormat(v: SlotDate): (r: string)
    ensures r == InvalidDate <==> !(v.Str? && v.s != [] && SlotDateOk(v.s))
    ensures v.Str? && v.s != [] && SlotDateOk(v.s) ==>
              var parts := Split(v.s, '_');
              r == parts[0] + " " + MonthName(JsNumber(parts[1]).value) + " " + parts[2]
  {
    match v
    case NotAString => InvalidDate
    case Str(s) =>
      if s == [] || !SlotDateOk(s) then InvalidDate
      else
        var parts := Split(s, '_');
        var m := MonthName(JsNumber(parts[1]).value);
        TwoSpacesNotInvalid(parts[0], m, parts[2]);
        parts[0] + " " + m + " " + parts[2]
  }

  /** A text with two spaces is not "Invalid Date", whose only space is its
      eighth character. */
  lemma TwoSpacesNotInvalid(a: string, m: string, b: string)
    ensures a + " " + m + " " + b != InvalidDate
  {
    var r := a + " " + m + " " + b;
    assert r[|a|] == ' ' && r[|a| + |m| + 1] == ' ';
    if r == InvalidDate {
      assert forall k :: 0 <= k < |InvalidDate| && k != 7 ==> InvalidDate[k] != ' ';
      assert false;
    }
  }

  /** Formatting day, month text and year joined by `_`: the month text is
      read by `Number`, and the date is invalid unless it reads as 1 to 12. */
  lemma FormatParts(day: string, month: string, year: string)
    requires '_' !in day && '_' !in month && '_' !in year
    ensures var n := JsNumber(month);
            SlotDateFormat(Str(day + "_" + month + "_" + year))
            == if n.Some? && 1.0 <= n.value <= 12.0 then day + " " + MonthName(n.value) + " " + year else InvalidDate
  {
    var parts := [day, month, year];
    assert Join(parts, '_') == day + "_" + month + "_" + year by {
      assert Join(parts[2..], '_') == year;
      assert Join(parts[1..], '_') == month + "_" + year;
    }
    SplitJoin(parts, '_');
  }

  /** Formatting a date written as day, month number and year joined by `_`
      puts the month's abbreviation between the day and the year. */
  lemma FormatJoined(day: string, month: nat, year: string)
    requires '_' !in day && '_' !in year
    requires 1 <= month <= 12
    ensures SlotDateFormat(Str(day + "_" + Decimal(month) + "_" + year)) == day + " " + Months[month - 1] + " " + year
  {
    assert '_' !in Decimal(month) by {
      assert forall k :: 0 <= k < |Decimal(month)| ==> Decimal(month)[k] != '_';
    }
    FormatParts(day, Decimal(month), year);
    JsNumberDecimal(month);
    assert (month as real).Floor == month;
  }

  /** A month number outside 1..12 makes the date invalid. */
  lemma MonthOutOfRange(day: string, month: nat, year: string)
    requires '_' !in day && '_' !in year
    requires month == 0 || month > 12
    ensures SlotDateFormat(Str(day + "_" + Decimal(month) + "_" + year)) == InvalidDate
  {
    assert '_' !in Decimal(month) by {
      assert forall k :: 0 <= k < |Decimal(month)| ==> Decimal(month)[k] != '_';
    }
    FormatParts(day, Decimal(month), year);
    JsNumberDecimal(month);
  }

  /** Formatting a date whose month text reads as `v`, from 1 to 12. */
  lemma FormatMonthValue(day: string, month: string, year: string, v: real)
    requires '_' !in day && '_' !in month && '_' !in year
    requires JsNumber(month) == Some(v) && 1.0 <= v <= 12.0
    ensures SlotDateFormat(Str(day + "_" + month + "_" + year)) == day + " " + MonthName(v) + " " + year
  {
    FormatParts(day, month, year);
  }

  /** A fractional month passes the range check and prints as "undefined". */
  lemma FractionalMonth(day: string, year: string)
    requires '_' !in day && '_' !in year
    ensures SlotDateFormat(Str(day + "_" + "1.5" + "_" + year)) == day + " " + "undefined" + " " + year
  {
    var m := "1.5";
    assert '_' !in m by {
      assert m[0] != '_' && m[1] != '_' && m[2] != '_';
    }
    JsNumberFractions();
    FormatMonthValue(day, m, year, 1.5);
    assert MonthName(1.5) == "undefined" by {
      assert (1.5).Floor == 1;
    }
  }

  /** A whole month written with a fraction part prints its abbreviation. */
  lemma WholeMonthWithFraction(day: string, year: string)
    requires '_' !in day && '_' !in year
    ensures SlotDateFormat(Str(day + "_" + "01.0" + "_" + year)) == day + " " + "Jan" + " " + year
  {
    var m := "01.0";
    assert '_' !in m by {
      assert m[0] != '_' && m[1] != '_' && m[2] != '_' && m[3] != '_';
    }
    JsNumberFractions();
    FormatMonthValue(day, m, year, 1.0);
    assert MonthName(1.0) == "Jan" by {
      assert (1.0).Floor == 1;
    }
  }

  /** A doctor of the admin's local list, by the fields the toggle uses. */
  datatype DoctorCard = DoctorCard(id: int, name: string, available: bool)

  /** An entry of the admin's appointment list: the JSON object fetched
      from `GET api/appointment`. */
  type AppointmentEntry = JsonNames.JsonObject

  /** `appointment.id` as the client reads an entry: `undefined`, folded
      into Nil, when the entry has no `id` property. */
  function IdOf(entry: AppointmentEntry): JsonNames.Field {
    if "id" in entry then entry["id"] else JsonNames.Nil
  }

  /** `changeAvailability`: the doctors whose `id` is `docId` have their
      availability flipped; every other doctor and the order stay. */
  function ChangeAvailability(doctors: seq<DoctorCard>, docId: int): (r: seq<DoctorCard>)
    ensures |r| == |doctors|
    ensures forall i :: 0 <= i < |r| ==> r[i].id == doctors[i].id && r[i].name == doctors[i].name
    ensures forall i :: 0 <= i < |r| ==> (r[i].available <==> (doctors[i].available != (doctors[i].id == docId)))
  {
    seq(|doctors|, i requires 0 <= i < |doctors| =>
      if doctors[i].id == docId then doctors[i].(available := !doctors[i].available) else doctors[i])
  }

  /** Toggling the same doctor twice gives the list back. */
  lemma ChangeAvailabilityTwice(doctors: seq<DoctorCard>, docId: int)
    ensures ChangeAvailability(ChangeAvailability(doctors, docId), docId) == doctors
  {
    var r := ChangeAvailability(ChangeAvailability(doctors, docId), docId);
    assert forall i :: 0 <= i < |r| ==> r[i] == doctors[i];
  }

  /** `cancelAppointment`: the list without the entries whose `id` is
      strictly equal to `appointmentId`, the rest in their order. */
  function CancelAppointment(appointments: seq<AppointmentEntry>, appointmentId: int): (r: seq<AppointmentEntry>)
    ensures forall i :: 0 <= i < |r| ==> IdOf(r[i]) != JsonNames.Num(appointmentId) && r[i] in appointments
    ensures forall i :: 0 <= i < |appointments| && IdOf(appointments[i]) != JsonNames.Num(appointmentId) ==> appointments[i] in r
    ensures IsSubsequence(r, appointments)
    ensures forall a :: multiset(r)[a] == if IdOf(a) != JsonNames.Num(appointmentId) then multiset(appointments)[a] else 0
  {
    var p := (a: AppointmentEntry) => IdOf(a) != JsonNames.Num(appointmentId);
    FilterMultiset(appointments, p);
    Filter(appointments, p)
  }

  /** Cancelling an id that is not listed changes nothing, and cancelling
      the same id again changes nothing more. */
  lemma CancelAppointmentStable(appointments: seq<AppointmentEntry>, appointmentId: int)
    ensures (forall i :: 0 <= i < |appointments| ==> IdOf(appointments[i]) != JsonNames.Num(appointmentId)) ==>
              CancelAppointment(appointments, appointmentId) == appointments
    ensures CancelAppointment(CancelAppointment(appointments, appointmentId), appointmentId)
            == CancelAppointment(appointments, appointmentId)
  {
    var p := (a: AppointmentEntry) => IdOf(a) != JsonNames.Num(appointmentId);
    if forall i :: 0 <= i < |appointments| ==> IdOf(appointments[i]) != JsonNames.Num(appointmentId) {
      FilterAll(appointments, p);
    }
    FilterIdempotent(appointments, p);
  }

  /** The properties of `AppointmentGetDto`, in declaration order. */
  const AppointmentDtoNames: seq<string> :=
    ["AppointmentID", "PatientID", "PatientName", "DoctorID", "DoctorName", "AppointmentDate",
     "AppointmentTime", "Reason", "Status", "CreatedAt", "UpdatedAt", "TreatmentRecordID"]

  /** An entry as the backend writes it: an `AppointmentGetDto` whose
      properties hold `values`. */
  function FetchedEntry(values: seq<JsonNames.Field>): AppointmentEntry
    requires |values| == |AppointmentDtoNames|
  {
    JsonNames.Serialize(seq(|values|, i requires 0 <= i < |values| => (AppointmentDtoNames[i], values[i])))
  }

  /** A fetched entry holds its id under `appointmentID` and has no `id`. */
  lemma FetchedEntryShape(values: seq<JsonNames.Field>)
    requires |values| == |AppointmentDtoNames|
    ensures "id" !in FetchedEntry(values)
    ensures "appointmentID" in FetchedEntry(values) && FetchedEntry(values)["appointmentID"] == values[0]
  {
    var props := seq(|values|, i requires 0 <= i < |values| => (AppointmentDtoNames[i], values[i]));
    assert forall i :: 0 <= i < |props| ==>
             |props[i].0| >= 6 && props[i].0 != [] && (i != 0 ==> |props[i].0| != 13);
    if "id" in FetchedEntry(values) {
      JsonNames.SerializedKeys(props, "id");
      assert false;
    }
    JsonNames.SerializedValue(props, 0);
    JsonNames.AppointmentIdName();
  }

  /** Every entry of the admin's list comes from the backend and has no
      `id`, so cancelling any appointment removes nothing. */
  lemma FetchedAppointmentsAreKept(rows: seq<seq<JsonNames.Field>>, appointmentId: int)
    requires forall j :: 0 <= j < |rows| ==> |rows[j]| == |AppointmentDtoNames|
    ensures var entries := seq(|rows|, j requires 0 <= j < |rows| => FetchedEntry(rows[j]));
            CancelAppointment(entries, appointmentId) == entries
  {
    var entries := seq(|rows|, j requires 0 <= j < |rows| => FetchedEntry(rows[j]));
    forall j | 0 <= j < |entries|
      ensures IdOf(entries[j]) != JsonNames.Num(appointmentId)
    {
      FetchedEntryShape(rows[j]);
    }
    CancelAppointmentStable(entries, appointmentId);
  }

  /** `extractData`: the `$values` of a reference-preserving wrapper, which
      is a list and so always truthy; any other body as it came. */
  function ExtractData<T>(data: Json<T>): (r: Json<T>)
    ensures data.Preserved? ==> r == List(data.values)
    ensures !data.Preserved? ==> r == data
    ensures !r.Preserved?
  {
    match data
    case Preserved(values) => List(values)
    case _ => data
  }

  /** Unwrapping an unwrapped body changes nothing. */
  lemma ExtractDataIdempotent<T>(data: Json<T>)
    ensures ExtractData(ExtractData(data)) == ExtractData(data)
  {
  }
}
