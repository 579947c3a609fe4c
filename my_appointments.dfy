/** The patient client's appointment page (`MyAppointments`): the list read
    from the backend, the map telling which appointments are paid for, the
    checks before a payment and the bookkeeping after a payment and after a
    cancellation. */
module MyAppointments {
  import opened Common
  import opened Lists
  import AppointmentApi

  /** An appointment as listed for the patient (`AppointmentGetDto`), by
      the fields the page uses. */
  datatype ListedAppointment = ListedAppointment(appointmentId: int, doctorId: int, treatmentRecordId: int)

  /** A record of the patient's visible list, by the fields the page uses. */
  datatype VisibleRecord = VisibleRecord(appointmentId: int, visibleToPatient: bool)

  /** A doctor's details as fetched for the page; `fees` is null when none is
      set. */
  datatype DoctorDetails = DoctorDetails(name: string, hospitalId: int, fees: Option<int>)

  /** The appointment list is the body's `$values`; a body without them,
      a bare array included, gives the empty list. */
  function ReadAppointments(data: Json<ListedAppointment>): (r: seq<ListedAppointment>)
    ensures data.Preserved? ==> r == data.values
    ensures !data.Preserved? ==> r == []
  {
    if data.Preserved? then data.values else []
  }

  /** What the page reads of an `AppointmentGetDto`. */
  function Listed(v: AppointmentApi.AppointmentView): ListedAppointment {
    ListedAppointment(v.id, v.appointment.doctorId, v.appointment.treatmentRecordId)
  }

  /** The body the backend writes for a list of appointments: reference
      preservation wraps it in `$values`. */
  function ListBody(views: seq<AppointmentApi.AppointmentView>): Json<ListedAppointment> {
    Preserved(seq(|views|, i requires 0 <= i < |views| => Listed(views[i])))
  }

  /** A successful reply of `GET api/appointment/patient/{id}`, listed in any
      order, is read whole: the page lists exactly the patient's
      appointments, each with its doctor and its treatment-record link. */
  lemma PatientListReadWhole(c: AppointmentApi.AppointmentController, patientId: int,
                             views: seq<AppointmentApi.AppointmentView>)
    requires c.db.Valid()
    requires c.GetAppointmentsByPatientId(patientId).Ok?
    requires var m := c.GetAppointmentsByPatientId(patientId).value;
             && (forall i :: 0 <= i < |views| ==> views[i].id in m && views[i] == m[views[i].id])
             && (forall k :: k in m ==> exists i :: 0 <= i < |views| && views[i].id == k)
    ensures var xs := ReadAppointments(ListBody(views));
            && |xs| == |views|
            && (forall a :: (exists i :: 0 <= i < |xs| && xs[i].appointmentId == a) <==>
                              a in c.db.appointments && c.db.appointments[a].patientId == patientId)
            && (forall i :: 0 <= i < |xs| ==>
                  && xs[i].appointmentId in c.db.appointments
                  && xs[i].doctorId == c.db.appointments[xs[i].appointmentId].doctorId
                  && xs[i].treatmentRecordId == c.db.appointments[xs[i].appointmentId].treatmentRecordId)
  {
    var m := c.GetAppointmentsByPatientId(patientId).value;
    var xs := ReadAppointments(ListBody(views));
    assert forall i :: 0 <= i < |xs| ==> xs[i] == Listed(views[i]);
    forall a
      ensures (exists i :: 0 <= i < |xs| && xs[i].appointmentId == a) <==>
                a in c.db.appointments && c.db.appointments[a].patientId == patientId
    {
      if a in c.db.appointments && c.db.appointments[a].patientId == patientId {
        assert a in m;
        var i :| 0 <= i < |views| && views[i].id == a;
        assert xs[i].appointmentId == a;
      }
    }
  }

  /** The visibility map of a list of records: each record sets its
      appointment's entry to its flag, so a later record of the same
      appointment overwrites an earlier one. */
  function VisibilityOf(records: seq<VisibleRecord>): map<int, bool>
  {
    if records == [] then map[]
    else
      var last := records[|records| - 1];
      VisibilityOf(records[..|records| - 1])[last.appointmentId := last.visibleToPatient]
  }

  /** The map's keys are the appointments some record names, and each entry
      holds the flag of the last record naming its appointment. */
  lemma {:induction false} VisibilityLastWriteWins(records: seq<VisibleRecord>)
    ensures forall k :: k in VisibilityOf(records) <==> exists i :: 0 <= i < |records| && records[i].appointmentId == k
    ensures forall i :: 0 <= i < |records| && (forall j :: i < j < |records| ==> records[j].appointmentId != records[i].appointmentId) ==>
              VisibilityOf(records)[records[i].appointmentId] == records[i].visibleToPatient
  {
    if records != [] {
      var n := |records| - 1;
      var front := records[..n];
      VisibilityLastWriteWins(front);
      forall k
        ensures k in VisibilityOf(records) <==> exists i :: 0 <= i < |records| && records[i].appointmentId == k
      {
        if k in VisibilityOf(records) && k != records[n].appointmentId {
          assert k in VisibilityOf(front);
          var i :| 0 <= i < |front| && front[i].appointmentId == k;
          assert records[i].appointmentId == k;
        }
        if exists i :: 0 <= i < |records| && records[i].appointmentId == k {
          var i :| 0 <= i < |records| && records[i].appointmentId == k;
          if i < n {
            assert front[i].appointmentId == k;
          }
        }
      }
      forall i | 0 <= i < |records| && (forall j :: i < j < |records| ==> records[j].appointmentId != records[i].appointmentId)
        ensures VisibilityOf(records)[records[i].appointmentId] == records[i].visibleToPatient
      {
        if i < n {
          assert front[i] == records[i];
          assert forall j :: i < j < |front| ==> front[j] == records[j];
        }
      }
    }
  }

  /** The records of the visible list all carry a true flag, so every entry
      of their map is true. */
  lemma VisibleRecordsAllPaid(records: seq<VisibleRecord>)
    requires forall i :: 0 <= i < |records| ==> records[i].visibleToPatient
    ensures forall k :: k in VisibilityOf(records) ==> VisibilityOf(records)[k]
  {
    VisibilityLastWriteWins(records);
    forall k | k in VisibilityOf(records)
      ensures VisibilityOf(records)[k]
    {
      var i := LastFor(records, k);
    }
  }

  /** The last record naming appointment `k`. */
  lemma LastFor(records: seq<VisibleRecord>, k: int) returns (i: int)
    requires exists i :: 0 <= i < |records| && records[i].appointmentId == k
    ensures 0 <= i < |records| && records[i].appointmentId == k
    ensures forall j :: i < j < |records| ==> records[j].appointmentId != k
  {
    i := |records| - 1;
    while records[i].appointmentId != k
      invariant 0 <= i < |records|
      invariant forall j :: i < j < |records| ==> records[j].appointmentId != k
      invariant exists j :: 0 <= j <= i && records[j].appointmentId == k
      decreases i
    {
      i := i - 1;
    }
  }

  /** Building the map record by record, as the page's `forEach` does. */
  method BuildVisibilityMap(data: Json<VisibleRecord>) returns (m: map<int, bool>)
    ensures m == VisibilityOf(if data.Preserved? then data.values else [])
  {
    var records := if data.Preserved? then data.values else [];
    m := map[];
    var i := 0;
    while i < |records|
      invariant 0 <= i <= |records|
      invariant m == VisibilityOf(records[..i])
    {
      assert records[..i + 1][..i] == records[..i];
      m := m[records[i].appointmentId := records[i].visibleToPatient];
      i := i + 1;
    }
    assert records[..|records|] == records;
  }

  /** `isPaid`: the appointment's entry is `true`; an appointment without an
      entry is not paid. */
  predicate IsPaid(visibility: map<int, bool>, appointmentId: int) {
    appointmentId in visibility && visibility[appointmentId]
  }

  /** What `handlePayOnline` decides before the payment window opens. */
  datatype PaymentDecision = MissingPatient | NoTreatmentRecord | Charge(paise: int)

  const DefaultFee := 1000

  /** The fee charged for an appointment: the doctor's fees when they are
      set and not zero, 1000 otherwise. */
  function FeeFor(doctors: map<int, DoctorDetails>, doctorId: int): (fee: int)
    ensures doctorId in doctors && doctors[doctorId].fees.Some? && doctors[doctorId].fees.value != 0 ==>
              fee == doctors[doctorId].fees.value
    ensures !(doctorId in doctors && doctors[doctorId].fees.Some? && doctors[doctorId].fees.value != 0) ==>
              fee == DefaultFee
  {
    if doctorId in doctors && doctors[doctorId].fees.Some? && doctors[doctorId].fees.value != 0
    then doctors[doctorId].fees.value else DefaultFee
  }

  /** `handlePayOnline`'s checks: no payment without the patient's data or
      without a treatment record; otherwise the fee is charged in paise. */
  function HandlePayOnline(hasPatientData: bool, appointment: ListedAppointment,
                           doctors: map<int, DoctorDetails>): (d: PaymentDecision)
    ensures !hasPatientData ==> d == MissingPatient
    ensures hasPatientData && appointment.treatmentRecordId == 0 ==> d == NoTreatmentRecord
    ensures d.Charge? <==> hasPatientData && appointment.treatmentRecordId != 0
    ensures d.Charge? ==> d.paise == 100 * FeeFor(doctors, appointment.doctorId)
  {
    if !hasPatientData then MissingPatient
    else if appointment.treatmentRecordId == 0 then NoTreatmentRecord
    else Charge(FeeFor(doctors, appointment.doctorId) * 100)
  }

  /** A doctor with positive fees is charged at least 100 paise; without
      fees the charge is 100000 paise. */
  lemma ChargeIsPositive(hasPatientData: bool, appointment: ListedAppointment, doctors: map<int, DoctorDetails>)
    requires forall d :: d in doctors && doctors[d].fees.Some? ==> doctors[d].fees.value >= 0
    ensures var dec := HandlePayOnline(hasPatientData, appointment, doctors);
            dec.Charge? ==> dec.paise >= 100
  {
  }

  /** After a payment, the visibility update's HTTP status decides the map:
      on 200 the appointment's entry becomes true, otherwise nothing moves. */
  function AfterPayment(visibility: map<int, bool>, appointmentId: int, updateStatus: int): (m: map<int, bool>)
    ensures updateStatus == 200 ==> m.Keys == visibility.Keys + {appointmentId}
    ensures updateStatus == 200 ==> IsPaid(m, appointmentId)
    ensures updateStatus != 200 ==> m == visibility
    ensures forall k :: k != appointmentId ==> (k in m <==> k in visibility) && (k in m ==> m[k] == visibility[k])
  {
    if updateStatus == 200 then visibility[appointmentId := true] else visibility
  }

  /** A successful payment marks exactly its appointment paid: every other
      appointment is paid after it exactly when it was before. */
  lemma PaymentMarksOnlyItsAppointment(visibility: map<int, bool>, appointmentId: int, other: int)
    requires other != appointmentId
    ensures IsPaid(AfterPayment(visibility, appointmentId, 200), appointmentId)
    ensures IsPaid(AfterPayment(visibility, appointmentId, 200), other) <==> IsPaid(visibility, other)
  {
  }

  /** How a cancellation request ends: no token, an exception, or a reply
      with an HTTP status. */
  datatype DeleteReply = NoToken | Threw | Status(code: int)

  /** `handleDelete`: the appointment leaves the local list only when the
      delete is answered with 200. */
  function HandleDelete(appointments: seq<ListedAppointment>, appointmentId: int, reply: DeleteReply): (r: seq<ListedAppointment>)
    ensures reply != Status(200) ==> r == appointments
    ensures reply == Status(200) ==>
              && (forall i :: 0 <= i < |r| ==> r[i].appointmentId != appointmentId)
              && (forall i :: 0 <= i < |appointments| && appointments[i].appointmentId != appointmentId ==> appointments[i] in r)
              && IsSubsequence(r, appointments)
              && (forall a :: multiset(r)[a] == if a.appointmentId != appointmentId then multiset(appointments)[a] else 0)
  {
    if reply == Status(200) then
      var p := (a: ListedAppointment) => a.appointmentId != appointmentId;
      FilterMultiset(appointments, p);
      Filter(appointments, p)
    else appointments
  }
}
