/** `AppointmentController`: creation, update, deletion (with the appointment's
    treatment record), status changes and the lookups by id, doctor and
    patient. Each action is one unit of work on the shared database: it
    either commits all its changes in one save or, when it answers with an
    error, leaves the tables as they were. */
module AppointmentApi {
  import opened Common
  import opened Models
  import opened Database

  /** `AppointmentGetDto`: the row, its key, and the names joined from the
      patient and doctor tables. */
  datatype AppointmentView = AppointmentView(
    id: int,
    appointment: Appointment,
    patientName: string,
    doctorName: string)

  /** `FirstOrDefault(tr => tr.AppointmentID == id)` and its removal: the
      record of appointment `id`, if there is one, leaves the table. */
  method RemoveRecordOfAppointment(records0: map<int, TreatmentRecord>, id: int) returns (records: map<int, TreatmentRecord>)
    requires OneRecordPerAppointment(records0)
    ensures records == RecordsWithout(records0, {id})
  {
    records := records0;
    if exists t :: t in records && records[t].appointmentId == id {
      var t :| t in records && records[t].appointmentId == id;
      RemoveRecordOf(records, id, t);
      records := map k | k in records && k != t :: records[k];
    } else {
      assert records == RecordsWithout(records0, {id});
    }
  }

  class AppointmentController {
    const db: Database

    constructor (db: Database)
      ensures this.db == db
    {
      this.db := db;
    }

    /** The reply body for appointment `id`; the foreign keys guarantee that
        its patient and doctor rows exist. */
    function ViewOf(id: int): AppointmentView
      reads db
      requires db.Valid() && id in db.appointments
    {
      var a := db.appointments[id];
      AppointmentView(id, a, FullName(db.patients[a.patientId]), db.doctors[a.doctorId].name)
    }

    /** GET api/appointment/{id}. */
    function GetAppointmentById(id: int): (r: Reply<AppointmentView>)
      reads db
      requires db.Valid()
      ensures r.NotFound? <==> id !in db.appointments
      ensures r.Ok? ==> id in db.appointments && r.value.id == id && r.value.appointment == db.appointments[id]
      ensures r.Ok? ==> var a := db.appointments[id];
                        r.value.patientName == FullName(db.patients[a.patientId])
                        && r.value.doctorName == db.doctors[a.doctorId].name
      ensures r.Ok? || r.NotFound?
    {
      if id in db.appointments then Ok(ViewOf(id)) else NotFound
    }

    /** GET api/appointment/doctor/{doctorId}: every appointment of the doctor,
        or NotFound when there is none. */
    function GetAppointmentsByDoctorId(doctorId: int): (r: Reply<map<int, AppointmentView>>)
      reads db
      requires db.Valid()
      ensures r.Ok? || r.NotFound?
      ensures r.NotFound? <==> forall a :: a in db.appointments ==> db.appointments[a].doctorId != doctorId
      ensures r.Ok? ==> forall a :: a in r.value <==> a in db.appointments && db.appointments[a].doctorId == doctorId
      ensures r.Ok? ==> forall a :: a in r.value ==> r.value[a].id == a && r.value[a].appointment == db.appointments[a]
    {
      if forall a | a in db.appointments :: db.appointments[a].doctorId != doctorId then NotFound
      else Ok(map a | a in db.appointments && db.appointments[a].doctorId == doctorId :: ViewOf(a))
    }

    /** GET api/appointment/patient/{patientId}: every appointment of the
        patient, or NotFound when there is none. */
    function GetAppointmentsByPatientId(patientId: int): (r: Reply<map<int, AppointmentView>>)
      reads db
      requires db.Valid()
      ensures r.Ok? || r.NotFound?
      ensures r.NotFound? <==> forall a :: a in db.appointments ==> db.appointments[a].patientId != patientId
      ensures r.Ok? ==> forall a :: a in r.value <==> a in db.appointments && db.appointments[a].patientId == patientId
      ensures r.Ok? ==> forall a :: a in r.value ==> r.value[a].id == a && r.value[a].appointment == db.appointments[a]
    {
      if forall a | a in db.appointments :: db.appointments[a].patientId != patientId then NotFound
      else Ok(map a | a in db.appointments && db.appointments[a].patientId == patientId :: ViewOf(a))
    }

    /** POST api/appointment. An invalid body is refused before anything is
        stored; a body naming a patient or doctor that does not exist fails at
        the save; otherwise the new row gets the next identity value, the
        request's fields and status, and no treatment record yet. */
    method CreateAppointment(req: AppointmentRequest, now: int) returns (r: Reply<(int, Appointment)>)
      requires db.Valid()
      modifies db
      ensures db.Valid()
      ensures !ValidAppointmentRequest(req) ==> r == BadRequest && unchanged(db)
      ensures ValidAppointmentRequest(req) && (req.patientId !in old(db.patients) || req.doctorId !in old(db.doctors)) ==>
                r == ServerError && unchanged(db)
      ensures ValidAppointmentRequest(req) && req.patientId in old(db.patients) && req.doctorId in old(db.doctors) ==>
                r.Ok?
      ensures r.Ok? ==>
                && ValidAppointmentRequest(req) && req.patientId in old(db.patients) && req.doctorId in old(db.doctors)
                && var (id, a) := r.value;
                && id == old(db.nextAppointmentId) && id !in old(db.appointments)
                && a == Appointment(req.patientId, req.doctorId, req.date, req.time, req.reason,
                                    RequestedStatus(req), 0, now, now)
                && db.appointments == old(db.appointments)[id := a]
                && db.nextAppointmentId == id + 1
                && db.records == old(db.records) && db.patients == old(db.patients) && db.doctors == old(db.doctors)
                && db.hospitals == old(db.hospitals) && db.departments == old(db.departments)
                && db.nextRecordId == old(db.nextRecordId)
      ensures r.Ok? || r.BadRequest? || r.ServerError?
    {
      if !ValidAppointmentRequest(req) {
        return BadRequest;
      }
      if req.patientId !in db.patients || req.doctorId !in db.doctors {
        return ServerError;
      }
      var a := Appointment(req.patientId, req.doctorId, req.date, req.time, req.reason,
                           RequestedStatus(req), 0, now, now);
      var id := db.nextAppointmentId;
      db.appointments := db.appointments[id := a];
      db.nextAppointmentId := id + 1;
      r := Ok((id, a));
    }

    /** PUT api/appointment/{id}. The body is validated before the lookup;
        the update overwrites patient, doctor, date, time, reason and status
        and stamps the update time, but keeps the treatment-record link and
        the creation time. */
    method UpdateAppointment(id: int, req: AppointmentRequest, now: int) returns (r: Reply<()>)
      requires db.Valid()
      modifies db
      ensures db.Valid()
      ensures !r.Ok? ==> unchanged(db)
      ensures !ValidAppointmentRequest(req) ==> r == BadRequest
      ensures ValidAppointmentRequest(req) && id !in old(db.appointments) ==> r == NotFound
      ensures ValidAppointmentRequest(req) && id in old(db.appointments) ==>
                (r == ServerError <==> (req.patientId !in old(db.patients) || req.doctorId !in old(db.doctors)))
      ensures ValidAppointmentRequest(req) && id in old(db.appointments)
              && req.patientId in old(db.patients) && req.doctorId in old(db.doctors) ==>
                r.Ok?
      ensures r.Ok? ==>
                && id in old(db.appointments)
                && var was := old(db.appointments)[id];
                && db.appointments == old(db.appointments)[id := Appointment(
                     req.patientId, req.doctorId, req.date, req.time, req.reason, RequestedStatus(req),
                     was.treatmentRecordId, was.createdAt, now)]
                && db.records == old(db.records) && db.patients == old(db.patients) && db.doctors == old(db.doctors)
                && db.hospitals == old(db.hospitals) && db.departments == old(db.departments)
                && db.nextAppointmentId == old(db.nextAppointmentId) && db.nextRecordId == old(db.nextRecordId)
      ensures r.Ok? || r.BadRequest? || r.NotFound? || r.ServerError?
    {
      if !ValidAppointmentRequest(req) {
        return BadRequest;
      }
      if id !in db.appointments {
        return NotFound;
      }
      if req.patientId !in db.patients || req.doctorId !in db.doctors {
        return ServerError;
      }
      var was := db.appointments[id];
      var a := was.(patientId := req.patientId, doctorId := req.doctorId, date := req.date, time := req.time,
                    reason := req.reason, status := RequestedStatus(req), updatedAt := now);
      db.appointments := db.appointments[id := a];
      r := Ok(());
    }

    /** DELETE api/appointment/{id}: removes the appointment and the record
        whose `AppointmentID` is `id`, if there is one, in one save. */
    method DeleteAppointment(id: int) returns (r: Reply<()>)
      requires db.Valid()
      modifies db
      ensures db.Valid()
      ensures id !in old(db.appointments) ==> r == NotFound && unchanged(db)
      ensures id in old(db.appointments) ==>
                && r == Ok(())
                && db.appointments == AppointmentsWithout(old(db.appointments), {id})
                && db.records == RecordsWithout(old(db.records), {id})
                && db.patients == old(db.patients) && db.doctors == old(db.doctors)
                && db.hospitals == old(db.hospitals) && db.departments == old(db.departments)
                && db.nextAppointmentId == old(db.nextAppointmentId) && db.nextRecordId == old(db.nextRecordId)
    {
      if id !in db.appointments {
        return NotFound;
      }
      var records := RemoveRecordOfAppointment(db.records, id);
      DeleteAppointmentKeepsIntegrity(db.appointments, db.records, db.doctors, db.patients, db.hospitals,
                                      db.departments, db.nextAppointmentId, db.nextRecordId, id);
      db.records := records;
      db.appointments := AppointmentsWithout(db.appointments, {id});
      r := Ok(());
    }

    /** PUT api/appointment/{id}/status: a value outside the enumeration is
        refused before the lookup; any defined value, Scheduled included, is
        then stored on the appointment with a fresh update time. */
    method UpdateAppointmentStatus(id: int, newStatus: int, now: int) returns (r: Reply<()>)
      requires db.Valid()
      modifies db
      ensures db.Valid()
      ensures !IsDefinedStatus(newStatus) ==> r == BadRequest && unchanged(db)
      ensures IsDefinedStatus(newStatus) && id !in old(db.appointments) ==> r == NotFound && unchanged(db)
      ensures IsDefinedStatus(newStatus) && id in old(db.appointments) ==>
                && r == Ok(())
                && db.appointments == old(db.appointments)[id := old(db.appointments)[id].(status := newStatus, updatedAt := now)]
                && db.records == old(db.records) && db.patients == old(db.patients) && db.doctors == old(db.doctors)
                && db.hospitals == old(db.hospitals) && db.departments == old(db.departments)
                && db.nextAppointmentId == old(db.nextAppointmentId) && db.nextRecordId == old(db.nextRecordId)
    {
      if !IsDefinedStatus(newStatus) {
        return BadRequest;
      }
      if id !in db.appointments {
        return NotFound;
      }
      db.appointments := db.appointments[id := db.appointments[id].(status := newStatus, updatedAt := now)];
      r := Ok(());
    }
  }
}
