/** The admin dashboard (`Dashboard`): the three counts and the five latest
    bookings, each joined with its patient's and doctor's names. */
module Dashboard {
  import opened Common
  import opened Lists
  import AdminContext

  /** An appointment of the admin's list; its date is a whole number of a
      fixed unit, so that later dates are larger. */
  datatype Booking = Booking(appointmentId: int, patientId: int, doctorId: int, appointmentDate: int)

  datatype PatientCard = PatientCard(patientId: int, firstName: string, lastName: string)

  datatype DoctorCard = DoctorCard(doctorId: int, name: string, imageUrl: string)

  /** A row of the latest bookings. */
  datatype LatestRow = LatestRow(booking: Booking, patientName: string, doctorName: string, doctorImage: string)

  /** A count: the array's length, or 0 for a value that is not an array. */
  function Count<T>(list: Json<T>): (n: nat)
    ensures list.List? ==> n == |list.items|
    ensures !list.List? ==> n == 0
  {
    if list.List? then |list.items| else 0
  }

  /** The context hands the dashboard its lists unwrapped, so each count is
      the length of the backend's list; the wrapper itself, not being an
      array, would count 0. */
  lemma CountOfExtractedList<T>(xs: seq<T>)
    ensures Count(AdminContext.ExtractData(Preserved(xs))) == |xs|
    ensures Count(Preserved(xs)) == 0
  {
  }

  /** How many bookings the dashboard lists. */
  const LatestCount: nat := 5

  /** The comparator `new Date(b.appointmentDate) - new Date(a.appointmentDate)`:
      `a` may come first when it is no earlier than `b`. */
  predicate LaterFirst(a: Booking, b: Booking) {
    a.appointmentDate >= b.appointmentDate
  }

  lemma LaterFirstIsTotalPreorder()
    ensures TotalPreorder(LaterFirst)
  {
  }

  /** The patient's name for a booking: first and last name of the first
      patient with its id, or "Unknown". */
  function PatientNameFor(patients: seq<PatientCard>, patientId: int): (name: string)
    ensures (forall i :: 0 <= i < |patients| ==> patients[i].patientId != patientId) ==> name == "Unknown"
    ensures forall i :: 0 <= i < |patients| && patients[i].patientId == patientId
                        && (forall j :: 0 <= j < i ==> patients[j].patientId != patientId) ==>
              name == patients[i].firstName + " " + patients[i].lastName
  {
    match Find(patients, (p: PatientCard) => p.patientId == patientId)
    case None => "Unknown"
    case Some(p) => p.firstName + " " + p.lastName
  }

  /** The first doctor with the booking's doctor id, if any. */
  function DoctorFor(doctors: seq<DoctorCard>, doctorId: int): (d: Option<DoctorCard>)
    ensures d.None? <==> forall i :: 0 <= i < |doctors| ==> doctors[i].doctorId != doctorId
    ensures forall i :: 0 <= i < |doctors| && doctors[i].doctorId == doctorId
                        && (forall j :: 0 <= j < i ==> doctors[j].doctorId != doctorId) ==>
              d == Some(doctors[i])
  {
    Find(doctors, (d: DoctorCard) => d.doctorId == doctorId)
  }

  /** A booking joined with its names: the doctor's name and image, or
      "Unknown" and the empty string when the doctor is not listed. */
  function RowFor(b: Booking, patients: seq<PatientCard>, doctors: seq<DoctorCard>): (row: LatestRow)
    ensures row.booking == b && row.patientName == PatientNameFor(patients, b.patientId)
    ensures DoctorFor(doctors, b.doctorId).None? ==> row.doctorName == "Unknown" && row.doctorImage == ""
    ensures DoctorFor(doctors, b.doctorId).Some? ==>
              row.doctorName == DoctorFor(doctors, b.doctorId).value.name
              && row.doctorImage == DoctorFor(doctors, b.doctorId).value.imageUrl
  {
    var d := DoctorFor(doctors, b.doctorId);
    LatestRow(b, PatientNameFor(patients, b.patientId),
              if d.Some? then d.value.name else "Unknown",
              if d.Some? then d.value.imageUrl else "")
  }

  /** The bookings of a list of rows. */
  function BookingsOf(rows: seq<LatestRow>): (r: seq<Booking>)
    ensures |r| == |rows| && forall i :: 0 <= i < |r| ==> r[i] == rows[i].booking
  {
    seq(|rows|, i requires 0 <= i < |rows| => rows[i].booking)
  }

  /** The latest bookings: a copy of the list sorted by date, latest first,
      cut to five and joined with the names. The list itself is a value and
      is left as it was. The bookings shown are taken from the list, latest
      first, and none left out is later than one shown. */
  method LatestAppointments(bookings: seq<Booking>, patients: seq<PatientCard>, doctors: seq<DoctorCard>)
    returns (latest: seq<LatestRow>)
    ensures |latest| == if |bookings| < LatestCount then |bookings| else LatestCount
    ensures forall i :: 0 <= i < |latest| ==> latest[i] == RowFor(latest[i].booking, patients, doctors)
    ensures forall i, j :: 0 <= i < j < |latest| ==> latest[i].booking.appointmentDate >= latest[j].booking.appointmentDate
    ensures multiset(BookingsOf(latest)) <= multiset(bookings)
    ensures forall x, y :: x in BookingsOf(latest) && y in multiset(bookings) - multiset(BookingsOf(latest)) ==>
              x.appointmentDate >= y.appointmentDate
  {
    LaterFirstIsTotalPreorder();
    var sorted := SortCopy(bookings, LaterFirst);
    assert |sorted| == |bookings| by {
      assert |multiset(sorted)| == |multiset(bookings)|;
    }
    var top := Take(sorted, LatestCount);
    TakeOfSortedIsExtreme(sorted, bookings, LatestCount, LaterFirst);
    latest := seq(|top|, i requires 0 <= i < |top| => RowFor(top[i], patients, doctors));
    assert BookingsOf(latest) == top;
  }
}
