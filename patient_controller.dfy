/** `PatientController`: the list of all patients, a patient's partial update
    of their own profile, and the deletion of a patient with their
    appointments and treatment records. */
module PatientApi {
  import opened Common
  import opened Models
  import opened Database

  /** `PatientGetDto`. Its `DateOfBirth` is not nullable; its image is the
      row's bytes (the reply writes them in Base64). */
  datatype PatientView = PatientView(
    id: int,
    firstName: string,
    lastName: string,
    dateOfBirth: int,
    phone: Option<string>,
    email: Option<string>,
    gender: string,
    address: Option<string>,
    createdAt: int,
    updatedAt: int,
    image: Option<seq<bv8>>)

  /** What the list shows for patient `id`: every column of the row, the
      date of birth cast to a non-nullable date. */
  predicate Shows(v: PatientView, id: int, q: Patient) {
    && v.id == id && v.firstName == q.firstName && v.lastName == q.lastName
    && Some(v.dateOfBirth) == q.dateOfBirth
    && v.phone == q.phone && v.email == q.email && v.gender == q.gender && v.address == q.address
    && v.createdAt == q.createdAt && v.updatedAt == q.updatedAt && v.image == q.image
  }

  /** The value a string field takes: the update's when it is neither missing
      nor empty (`string.IsNullOrEmpty`), the current one otherwise. */
  function Overwrite(current: string, update: Option<string>): (r: string)
    ensures IsNullOrEmpty(update) ==> r == current
    ensures !IsNullOrEmpty(update) ==> r == update.value
  {
    if IsNullOrEmpty(update) then current else update.value
  }

  /** The same for a nullable string column. */
  function OverwriteOptional(current: Option<string>, update: Option<string>): (r: Option<string>)
    ensures IsNullOrEmpty(update) ==> r == current
    ensures !IsNullOrEmpty(update) ==> r == update
  {
    if IsNullOrEmpty(update) then current else update
  }

  /** The patient row after a PATCH at time `now`: each string field is
      overwritten only by a non-empty value, the date of birth by any value
      that is present, and the update time is always refreshed. */
  function UpdatedPatient(p: Patient, u: PatientUpdate, now: int): (p': Patient)
    ensures p'.userId == p.userId && p'.updatedAt == now
    ensures p'.firstName == Overwrite(p.firstName, u.firstName) && p'.lastName == Overwrite(p.lastName, u.lastName)
    ensures p'.dateOfBirth == if u.dateOfBirth.Some? then u.dateOfBirth else p.dateOfBirth
    ensures p'.phone == OverwriteOptional(p.phone, u.phone) && p'.email == OverwriteOptional(p.email, u.email)
    ensures p'.gender == Overwrite(p.gender, u.gender) && p'.address == OverwriteOptional(p.address, u.address)
  {
    p.(firstName := Overwrite(p.firstName, u.firstName), lastName := Overwrite(p.lastName, u.lastName),
       dateOfBirth := if u.dateOfBirth.Some? then u.dateOfBirth else p.dateOfBirth,
       phone := OverwriteOptional(p.phone, u.phone), email := OverwriteOptional(p.email, u.email),
       gender := Overwrite(p.gender, u.gender), address := OverwriteOptional(p.address, u.address),
       updatedAt := now)
  }

  /** A body that provides nothing still refreshes the update time, and
      changes nothing else. */
  lemma EmptyUpdateTouchesOnlyTime(p: Patient, now: int)
    ensures UpdatedPatient(p, PatientUpdate(None, None, None, None, None, None, None), now) == p.(updatedAt := now)
    ensures UpdatedPatient(p, PatientUpdate(Some([]), Some([]), None, Some([]), Some([]), Some([]), Some([])), now)
            == p.(updatedAt := now)
  {
  }

  /** Sending the same PATCH twice gives the row the first one gave, with
      the later time stamp. */
  lemma UpdatedPatientIdempotent(p: Patient, u: PatientUpdate, t1: int, t2: int)
    ensures UpdatedPatient(UpdatedPatient(p, u, t1), u, t2) == UpdatedPatient(p, u, t2)
  {
  }

  /** The field-by-field copy of a PATCH body onto the tracked row. */
  method ApplyPatch(p0: Patient, u: PatientUpdate, now: int) returns (p: Patient)
    ensures p == UpdatedPatient(p0, u, now)
  {
    p := p0;
    if !IsNullOrEmpty(u.firstName) {
      p := p.(firstName := u.firstName.value);
    }
    if !IsNullOrEmpty(u.lastName) {
      p := p.(lastName := u.lastName.value);
    }
    if u.dateOfBirth.Some? {
      p := p.(dateOfBirth := u.dateOfBirth);
    }
    if !IsNullOrEmpty(u.phone) {
      p := p.(phone := u.phone);
    }
    if !IsNullOrEmpty(u.email) {
      p := p.(email := u.email);
    }
    if !IsNullOrEmpty(u.gender) {
      p := p.(gender := u.gender.value);
    }
    if !IsNullOrEmpty(u.address) {
      p := p.(address := u.address);
    }
    p := p.(updatedAt := now);
  }

  class PatientController {
    const db: Database

    constructor (db: Database)
      ensures this.db == db
    {
      this.db := db;
    }

    /** GET api/patient: NotFound for an empty table; otherwise every patient,
        unless one has no date of birth, whose cast to a non-nullable date
        throws. */
    function GetAllPatients(): (r: Reply<map<int, PatientView>>)
      reads db
      ensures r.Ok? || r.NotFound? || r.ServerError?
      ensures r.NotFound? <==> db.patients == map[]
      ensures r.ServerError? <==> db.patients != map[] && exists p :: p in db.patients && db.patients[p].dateOfBirth.None?
      ensures r.Ok? ==> r.value.Keys == db.patients.Keys
      ensures r.Ok? ==> forall p :: p in r.value ==> Shows(r.value[p], p, db.patients[p])
    {
      if db.patients == map[] then NotFound
      else if exists p :: p in db.patients && db.patients[p].dateOfBirth.None? then ServerError
      else
        Ok(map p | p in db.patients :: var q := db.patients[p];
             PatientView(p, q.firstName, q.lastName, q.dateOfBirth.value, q.phone, q.email, q.gender, q.address,
                         q.createdAt, q.updatedAt, q.image))
    }

    /** PATCH api/patient/{id}. */
    method UpdatePatient(id: int, u: PatientUpdate, now: int) returns (r: Reply<()>)
      requires db.Valid()
      modifies db
      ensures db.Valid()
      ensures id !in old(db.patients) ==> r == NotFound && unchanged(db)
      ensures id in old(db.patients) ==>
                && r == Ok(())
                && db.patients == old(db.patients)[id := UpdatedPatient(old(db.patients)[id], u, now)]
                && db.appointments == old(db.appointments) && db.records == old(db.records)
                && db.doctors == old(db.doctors)
                && db.hospitals == old(db.hospitals) && db.departments == old(db.departments)
                && db.nextAppointmentId == old(db.nextAppointmentId) && db.nextRecordId == old(db.nextRecordId)
    {
      if id !in db.patients {
        return NotFound;
      }
      var p := ApplyPatch(db.patients[id], u, now);
      ReplacePatientKeepsIntegrity(db.appointments, db.records, db.doctors, db.patients, db.hospitals, db.departments,
                                   db.nextAppointmentId, db.nextRecordId, id, p);
      db.patients := db.patients[id := p];
      r := Ok(());
    }

    /** DELETE api/patient/{id}: the same shape as DeleteDoctor, for the
        patient's appointments and records. */
    method DeletePatient(id: int, cleanup: IdentityCleanup) returns (r: Reply<()>)
      requires db.Valid()
      modifies db
      ensures db.Valid()
      ensures !r.Ok? ==> unchanged(db)
      ensures id !in old(db.patients) ==> r == NotFound
      ensures id in old(db.patients) ==> (r == BadRequest <==> !CleanupSucceeds(old(db.patients)[id].email, cleanup))
      ensures id in old(db.patients) && CleanupSucceeds(old(db.patients)[id].email, cleanup) ==> r.Ok?
      ensures r.Ok? ==>
                && id in old(db.patients)
                && var gone := AppointmentsOfPatient(old(db.appointments), id);
                && db.appointments == AppointmentsWithout(old(db.appointments), gone)
                && db.records == WithoutPatientRecords(RecordsWithout(old(db.records), gone), id)
                && db.patients == old(db.patients) - {id}
                && db.doctors == old(db.doctors)
                && db.hospitals == old(db.hospitals) && db.departments == old(db.departments)
                && db.nextAppointmentId == old(db.nextAppointmentId) && db.nextRecordId == old(db.nextRecordId)
      ensures r.Ok? || r.NotFound? || r.BadRequest?
    {
      if id !in db.patients {
        return NotFound;
      }
      var gone := AppointmentsOfPatient(db.appointments, id);
      var appointments, records := RemoveAppointments(db.appointments, db.records, gone);
      if !CleanupSucceeds(db.patients[id].email, cleanup) {
        return BadRequest;
      }
      DeletePatientKeepsIntegrity(db.appointments, db.records, db.doctors, db.patients, db.hospitals, db.departments,
                                  db.nextAppointmentId, db.nextRecordId, id);
      db.appointments := appointments;
      db.records := WithoutPatientRecords(records, id);
      db.patients := db.patients - {id};
      r := Ok(());
    }
  }
}
