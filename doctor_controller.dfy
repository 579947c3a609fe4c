/** `DoctorController`: a doctor's own profile update and an administrator's
    deletion of a doctor with everything that hangs off it. */
module DoctorApi {
  import opened Common
  import opened Models
  import opened Database

  /** The hospital an update leaves the doctor in: a `HospitalID` of 0 means
      the field was left out and keeps the current one. */
  function ResolvedHospital(d: Doctor, u: DoctorUpdate): (h: int)
    ensures u.hospitalId == 0 ==> h == d.hospitalId
    ensures u.hospitalId != 0 ==> h == u.hospitalId
  {
    if u.hospitalId == 0 then d.hospitalId else u.hospitalId
  }

  /** The department an update leaves the doctor in, with the same fallback. */
  function ResolvedDepartment(d: Doctor, u: DoctorUpdate): (p: int)
    ensures u.departmentId == 0 ==> p == d.departmentId
    ensures u.departmentId != 0 ==> p == u.departmentId
  {
    if u.departmentId == 0 then d.departmentId else u.departmentId
  }

  /** The doctor row after a validated update at time `now`: hospital and
      department with the zero fallback; name, specialization, phone, degree,
      experience and fees taken from the form even when the form leaves them
      out; the image replaced only by a non-empty upload; the login, the
      email and the availability flag never touched. */
  function UpdatedDoctor(d: Doctor, u: DoctorUpdate, now: int): (d': Doctor)
    requires u.name.Some?
    ensures d'.userId == d.userId && d'.email == d.email && d'.isAvailable == d.isAvailable
    ensures d'.hospitalId == ResolvedHospital(d, u) && d'.departmentId == ResolvedDepartment(d, u)
    ensures d'.name == u.name.value && d'.specialization == u.specialization && d'.phone == u.phone
    ensures d'.degree == u.degree && d'.experience == u.experience && d'.fees == u.fees
    ensures d'.image == if u.imageFile.Some? && |u.imageFile.value| > 0 then u.imageFile else d.image
    ensures d'.updatedAt == now
  {
    d.(hospitalId := ResolvedHospital(d, u), departmentId := ResolvedDepartment(d, u),
       name := u.name.value, specialization := u.specialization, phone := u.phone,
       degree := u.degree, experience := u.experience, fees := u.fees, updatedAt := now,
       image := if u.imageFile.Some? && |u.imageFile.value| > 0 then u.imageFile else d.image)
  }

  /** Submitting the same form twice gives the row the first submission gave,
      with the later time stamp. */
  lemma UpdatedDoctorIdempotent(d: Doctor, u: DoctorUpdate, t1: int, t2: int)
    requires u.name.Some?
    ensures UpdatedDoctor(UpdatedDoctor(d, u, t1), u, t2) == UpdatedDoctor(d, u, t2)
  {
  }

  class DoctorController {
    const db: Database

    constructor (db: Database)
      ensures this.db == db
    {
      this.db := db;
    }

    /** PUT api/doctor/{id}. The form is validated before the action runs;
        then the doctor is looked up, updated, and saved, the save failing when
        the resolved hospital or department does not exist. */
    method UpdateDoctor(id: int, u: DoctorUpdate, now: int) returns (r: Reply<Doctor>)
      requires db.Valid()
      modifies db
      ensures db.Valid()
      ensures !r.Ok? ==> unchanged(db)
      ensures !ValidDoctorUpdate(u) ==> r == BadRequest
      ensures ValidDoctorUpdate(u) && id !in old(db.doctors) ==> r == NotFound
      ensures ValidDoctorUpdate(u) && id in old(db.doctors) ==>
                (r == ServerError <==> (|| ResolvedHospital(old(db.doctors)[id], u) !in old(db.hospitals)
                                     || ResolvedDepartment(old(db.doctors)[id], u) !in old(db.departments)))
      ensures ValidDoctorUpdate(u) && id in old(db.doctors)
              && ResolvedHospital(old(db.doctors)[id], u) in old(db.hospitals)
              && ResolvedDepartment(old(db.doctors)[id], u) in old(db.departments) ==>
                r.Ok?
      ensures r.Ok? ==>
                && ValidDoctorUpdate(u) && id in old(db.doctors)
                && r.value == UpdatedDoctor(old(db.doctors)[id], u, now)
                && db.doctors == old(db.doctors)[id := r.value]
                && db.appointments == old(db.appointments) && db.records == old(db.records)
                && db.patients == old(db.patients)
                && db.hospitals == old(db.hospitals) && db.departments == old(db.departments)
                && db.nextAppointmentId == old(db.nextAppointmentId) && db.nextRecordId == old(db.nextRecordId)
      ensures r.Ok? || r.BadRequest? || r.NotFound? || r.ServerError?
    {
      if !ValidDoctorUpdate(u) {
        return BadRequest;
      }
      if id !in db.doctors {
        return NotFound;
      }
      var d := db.doctors[id];
      var hospitalId := u.hospitalId;
      if hospitalId == 0 {
        hospitalId := d.hospitalId;
      }
      var departmentId := u.departmentId;
      if departmentId == 0 {
        departmentId := d.departmentId;
      }
      d := d.(hospitalId := hospitalId, departmentId := departmentId, name := u.name.value,
              specialization := u.specialization, phone := u.phone, degree := u.degree,
              experience := u.experience, fees := u.fees, updatedAt := now);
      if u.imageFile.Some? && |u.imageFile.value| > 0 {
        d := d.(image := u.imageFile);
      }
      if hospitalId !in db.hospitals || departmentId !in db.departments {
        return ServerError;
      }
      db.doctors := db.doctors[id := d];
      r := Ok(d);
    }

    /** DELETE api/doctor/{id}. Each appointment of the doctor is removed with
        its record; then the doctor's login is cleaned up, and a failure there
        answers BadRequest before anything is saved; otherwise the doctor is
        removed and the single save commits it all, the database's cascade
        also removing the records filed under the doctor's id. */
    method DeleteDoctor(id: int, cleanup: IdentityCleanup) returns (r: Reply<()>)
      requires db.Valid()
      modifies db
      ensures db.Valid()
      ensures !r.Ok? ==> unchanged(db)
      ensures id !in old(db.doctors) ==> r == NotFound
      ensures id in old(db.doctors) ==> (r == BadRequest <==> !CleanupSucceeds(old(db.doctors)[id].email, cleanup))
      ensures id in old(db.doctors) && CleanupSucceeds(old(db.doctors)[id].email, cleanup) ==> r.Ok?
      ensures r.Ok? ==>
                && id in old(db.doctors)
                && var gone := AppointmentsOfDoctor(old(db.appointments), id);
                && db.appointments == AppointmentsWithout(old(db.appointments), gone)
                && db.records == WithoutDoctorRecords(RecordsWithout(old(db.records), gone), id)
                && db.doctors == old(db.doctors) - {id}
                && db.patients == old(db.patients)
                && db.hospitals == old(db.hospitals) && db.departments == old(db.departments)
                && db.nextAppointmentId == old(db.nextAppointmentId) && db.nextRecordId == old(db.nextRecordId)
      ensures r.Ok? || r.NotFound? || r.BadRequest?
    {
      if id !in db.doctors {
        return NotFound;
      }
      var gone := AppointmentsOfDoctor(db.appointments, id);
      var appointments, records := RemoveAppointments(db.appointments, db.records, gone);
      if !CleanupSucceeds(db.doctors[id].email, cleanup) {
        return BadRequest;
      }
      DeleteDoctorKeepsIntegrity(db.appointments, db.records, db.doctors, db.patients, db.hospitals, db.departments,
                                 db.nextAppointmentId, db.nextRecordId, id);
      db.appointments := appointments;
      db.records := WithoutDoctorRecords(records, id);
      db.doctors := db.doctors - {id};
      r := Ok(());
    }
  }
}
