/** `TreatmentRecordsController`: a doctor files the one treatment record of an
    appointment, the record is looked up by its id or its appointment, its
    visibility to the patient is switched after payment, and a patient lists
    the records visible to them. */
module TreatmentRecordsApi {
  import opened Common
  import opened Models
  import opened Database

  /** `TreatmentRecordGetDto`. Its `AppointmentID` is only filled in by the
      patient's list of visible records; the two single-record lookups leave
      it at its default, 0. */
  datatype RecordView = RecordView(
    id: int,
    patientName: string,
    doctorName: string,
    appointmentId: int,
    treatmentDate: int,
    description: string,
    visibleToPatient: bool,
    createdAt: int,
    updatedAt: int)

  /** `records` with record `id`'s visibility set to `flag` at time `now`. */
  function WithVisibility(records: map<int, TreatmentRecord>, id: int, flag: bool, now: int): (m: map<int, TreatmentRecord>)
    requires id in records
    ensures m.Keys == records.Keys
    ensures m[id].visibleToPatient == flag && m[id].updatedAt == now
    ensures m[id] == records[id].(visibleToPatient := flag, updatedAt := now)
    ensures forall r :: r in records && r != id ==> m[r] == records[r]
  {
    records[id := records[id].(visibleToPatient := flag, updatedAt := now)]
  }

  /** Setting the same visibility twice leaves the table as setting it once,
      save for the later time stamp. */
  lemma VisibilityIdempotent(records: map<int, TreatmentRecord>, id: int, flag: bool, t1: int, t2: int)
    requires id in records
    ensures WithVisibility(WithVisibility(records, id, flag, t1), id, flag, t2) == WithVisibility(records, id, flag, t2)
  {
  }

  /** Switching the visibility changes nothing the patient's visible list
      depends on except that record's own flag. */
  lemma VisibilityTouchesOneRecord(records: map<int, TreatmentRecord>, id: int, flag: bool, now: int, p: int)
    requires id in records
    ensures forall r :: r in records ==>
              (r in WithVisibility(records, id, flag, now)
               && (WithVisibility(records, id, flag, now)[r].patientId == p && WithVisibility(records, id, flag, now)[r].visibleToPatient
                   <==> records[r].patientId == p && (if r == id then flag else records[r].visibleToPatient)))
  {
  }

  class TreatmentRecordsController {
    const db: Database

    constructor (db: Database)
      ensures this.db == db
    {
      this.db := db;
    }

    /** The reply body for record `id`, with `appointmentId` in its
        `AppointmentID` field; the foreign keys guarantee the names exist. */
    function ViewOf(id: int, appointmentId: int): RecordView
      reads db
      requires db.Valid() && id in db.records
    {
      var t := db.records[id];
      RecordView(id, FullName(db.patients[t.patientId]), db.doctors[t.doctorId].name, appointmentId,
                 t.treatmentDate, t.description, t.visibleToPatient, t.createdAt, t.updatedAt)
    }

    /** What a `TreatmentRecordGetDto` for record `id` carries: its key, the
        patient's full name and the doctor's name joined through the record's
        foreign keys, `appointmentId` as its `AppointmentID`, and the record's
        date, description, flag and time stamps. */
    predicate Describes(v: RecordView, id: int, appointmentId: int)
      reads db
      requires db.Valid() && id in db.records
    {
      var t := db.records[id];
      && v.id == id
      && v.patientName == FullName(db.patients[t.patientId])
      && v.doctorName == db.doctors[t.doctorId].name
      && v.appointmentId == appointmentId
      && v.treatmentDate == t.treatmentDate && v.description == t.description
      && v.visibleToPatient == t.visibleToPatient
      && v.createdAt == t.createdAt && v.updatedAt == t.updatedAt
    }

    /** POST api/treatmentrecords. The body is bound with its defaults and
        validated; the insert fails at the save when the patient, the doctor or
        the appointment does not exist or when the appointment already has a
        record (the unique index). Otherwise the record is stored under the
        next identity value and, in a second save, the appointment's
        `TreatmentRecordID` is set to it. */
    method CreateTreatmentRecord(body: RecordBody, now: int) returns (r: Reply<(int, TreatmentRecord)>)
      requires db.Valid()
      modifies db
      ensures db.Valid()
      ensures !r.Ok? ==> unchanged(db)
      ensures !ValidRecordRequest(BindRecord(body), now) ==> r == BadRequest
      ensures ValidRecordRequest(BindRecord(body), now) ==>
                (r == ServerError <==>
                   (|| body.patientId !in old(db.patients) || body.doctorId !in old(db.doctors)
                    || body.appointmentId !in old(db.appointments)
                    || RecordsOf(old(db.records), body.appointmentId) != {}))
      ensures ValidRecordRequest(BindRecord(body), now)
              && body.patientId in old(db.patients) && body.doctorId in old(db.doctors)
              && body.appointmentId in old(db.appointments) && RecordsOf(old(db.records), body.appointmentId) == {} ==>
                r.Ok?
      ensures r.Ok? ==>
                && ValidRecordRequest(BindRecord(body), now)
                && var (id, t) := r.value;
                && var req := BindRecord(body);
                && id == old(db.nextRecordId) && id !in old(db.records)
                && t == TreatmentRecord(req.patientId, req.doctorId, req.appointmentId, req.treatmentDate,
                                        req.description, req.visibleToPatient, now, now)
                && db.records == old(db.records)[id := t]
                && RecordsOf(db.records, body.appointmentId) == {id}
                && body.appointmentId in old(db.appointments)
                && db.appointments == old(db.appointments)[body.appointmentId :=
                                        old(db.appointments)[body.appointmentId].(treatmentRecordId := id)]
                && db.nextRecordId == id + 1 && db.nextAppointmentId == old(db.nextAppointmentId)
                && db.patients == old(db.patients) && db.doctors == old(db.doctors)
                && db.hospitals == old(db.hospitals) && db.departments == old(db.departments)
      ensures r.Ok? || r.BadRequest? || r.ServerError?
    {
      var req := BindRecord(body);
      if !ValidRecordRequest(req, now) {
        return BadRequest;
      }
      if req.patientId !in db.patients || req.doctorId !in db.doctors || req.appointmentId !in db.appointments {
        return ServerError;
      }
      // the unique index on AppointmentID refuses a second record
      if RecordsOf(db.records, req.appointmentId) != {} {
        return ServerError;
      }
      var t := TreatmentRecord(req.patientId, req.doctorId, req.appointmentId, req.treatmentDate,
                               req.description, req.visibleToPatient, now, now);
      var id := db.nextRecordId;
      AddRecordKeepsIntegrity(db.appointments, db.records, db.doctors, db.patients, db.hospitals, db.departments,
                              db.nextAppointmentId, db.nextRecordId, t);
      db.records := db.records[id := t];
      db.nextRecordId := id + 1;
      // the second save: the appointment learns its record
      if req.appointmentId in db.appointments {
        var a := db.appointments[req.appointmentId];
        db.appointments := db.appointments[req.appointmentId := a.(treatmentRecordId := id)];
      }
      r := Ok((id, t));
    }

    /** GET api/treatmentrecords/{id}. */
    function GetTreatmentRecord(id: int): (r: Reply<RecordView>)
      reads db
      requires db.Valid()
      ensures r.Ok? || r.NotFound?
      ensures r.NotFound? <==> id !in db.records
      ensures r.Ok? ==> id in db.records && Describes(r.value, id, 0)
    {
      if id in db.records then Ok(ViewOf(id, 0)) else NotFound
    }

    /** GET api/treatmentrecords/appointment/{appointmentId}: the record whose
        `AppointmentID` matches, which the unique index makes the only one. */
    function GetTreatmentRecordByAppointmentId(appointmentId: int): (r: Reply<RecordView>)
      reads db
      requires db.Valid()
      ensures r.Ok? || r.NotFound?
      ensures r.NotFound? <==> RecordsOf(db.records, appointmentId) == {}
      ensures r.Ok? ==> RecordsOf(db.records, appointmentId) == {r.value.id}
                        && r.value.id in db.records && Describes(r.value, r.value.id, 0)
    {
      if exists k :: k in db.records && db.records[k].appointmentId == appointmentId then
        var k :| k in db.records && db.records[k].appointmentId == appointmentId;
        RecordsOfSingle(db.records, appointmentId, k);
        Ok(ViewOf(k, 0))
      else
        assert RecordsOf(db.records, appointmentId) == {};
        NotFound
    }

    /** PUT api/treatmentrecords/{id}/visibility. */
    method UpdateVisibility(id: int, flag: bool, now: int) returns (r: Reply<()>)
      requires db.Valid()
      modifies db
      ensures db.Valid()
      ensures id !in old(db.records) ==> r == NotFound && unchanged(db)
      ensures id in old(db.records) ==>
                && r == Ok(())
                && db.records == WithVisibility(old(db.records), id, flag, now)
                && db.appointments == old(db.appointments) && db.patients == old(db.patients)
                && db.doctors == old(db.doctors)
                && db.hospitals == old(db.hospitals) && db.departments == old(db.departments)
                && db.nextAppointmentId == old(db.nextAppointmentId) && db.nextRecordId == old(db.nextRecordId)
    {
      if id !in db.records {
        return NotFound;
      }
      db.records := db.records[id := db.records[id].(visibleToPatient := flag, updatedAt := now)];
      r := Ok(());
    }

    /** GET api/treatmentrecords/patient/{patientId}/visible: the records of
        the patient that are visible to them, or NotFound when there is none. */
    function GetVisibleTreatmentRecordsForPatient(patientId: int): (r: Reply<map<int, RecordView>>)
      reads db
      requires db.Valid()
      ensures r.Ok? || r.NotFound?
      ensures r.NotFound? <==> forall k :: k in db.records ==> !(db.records[k].patientId == patientId && db.records[k].visibleToPatient)
      ensures r.Ok? ==> forall k :: k in r.value <==> k in db.records && db.records[k].patientId == patientId && db.records[k].visibleToPatient
      ensures r.Ok? ==> forall k :: k in r.value ==>
                          k in db.records && Describes(r.value[k], k, db.records[k].appointmentId)
    {
      if forall k | k in db.records :: !(db.records[k].patientId == patientId && db.records[k].visibleToPatient) then NotFound
      else Ok(map k | k in db.records && db.records[k].patientId == patientId && db.records[k].visibleToPatient
                :: ViewOf(k, db.records[k].appointmentId))
    }
  }
}
