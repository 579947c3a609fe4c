/** The tables of `IdentityDatabaseContext` that the controllers read and
    write, and the integrity the database enforces on them: identity keys,
    the foreign keys of appointments, treatment records and doctors, the unique index
    on `TreatmentRecords.AppointmentID`, and the two-way link between an
    appointment and its treatment record that the controllers maintain. */
module Database {
  import opened Common
  import opened Models
  import opened Lists

  /** Every key of `m` is an identity value already handed out: positive and
      below the table's next identity value. */
  predicate KeysBelow<T>(m: map<int, T>, next: int) {
    forall k :: k in m ==> 0 < k < next
  }

  /** Foreign keys of `Appointments`: its patient and its doctor exist. */
  predicate AppointmentKeysExist(appointments: map<int, Appointment>, patients: map<int, Patient>, doctors: map<int, Doctor>) {
    forall a :: a in appointments ==> appointments[a].patientId in patients && appointments[a].doctorId in doctors
  }

  /** Foreign key of `TreatmentRecords.AppointmentID`. */
  predicate RecordKeysExist(records: map<int, TreatmentRecord>, appointments: map<int, Appointment>) {
    forall r :: r in records ==> records[r].appointmentId in appointments
  }

  /** The unique index on `TreatmentRecords.AppointmentID`. */
  predicate OneRecordPerAppointment(records: map<int, TreatmentRecord>) {
    forall r1, r2 :: r1 in records && r2 in records && records[r1].appointmentId == records[r2].appointmentId ==> r1 == r2
  }

  /** Foreign keys of `TreatmentRecords.PatientID` and `.DoctorID`; the
      database deletes a record together with its patient or its doctor. */
  predicate RecordPartiesExist(records: map<int, TreatmentRecord>, patients: map<int, Patient>, doctors: map<int, Doctor>) {
    forall r :: r in records ==> records[r].patientId in patients && records[r].doctorId in doctors
  }

  /** Foreign keys of `Doctors`: its hospital and its department exist. */
  predicate DoctorKeysExist(doctors: map<int, Doctor>, hospitals: set<int>, departments: set<int>) {
    forall d :: d in doctors ==> doctors[d].hospitalId in hospitals && doctors[d].departmentId in departments
  }

  /** An appointment's `TreatmentRecordID` is 0 or a record identity value
      already handed out. */
  predicate RecordIdsBelow(appointments: map<int, Appointment>, nextRecordId: int) {
    forall a :: a in appointments ==> 0 <= appointments[a].treatmentRecordId < nextRecordId
  }

  /** The link between an appointment and its treatment record: a
      `TreatmentRecordID` naming a stored record names one whose
      `AppointmentID` points back, and every record's appointment names that
      record. `TreatmentRecordID` is a plain column, so a record removed by the
      database's cascade from its doctor or patient can leave a stale id
      behind; the link does not exclude one. */
  predicate Linked(appointments: map<int, Appointment>, records: map<int, TreatmentRecord>) {
    && (forall a :: a in appointments && appointments[a].treatmentRecordId in records ==>
          records[appointments[a].treatmentRecordId].appointmentId == a)
    && (forall r :: r in records && records[r].appointmentId in appointments ==>
          appointments[records[r].appointmentId].treatmentRecordId == r)
  }

  /** The records whose appointment is `a`. */
  function RecordsOf(records: map<int, TreatmentRecord>, a: int): set<int> {
    set r | r in records && records[r].appointmentId == a
  }

  /** With the link in place, an appointment's `TreatmentRecordID` names a
      stored record exactly when some record points back at it, and then that
      record is the only one. */
  lemma {:induction false} LinkedIff(appointments: map<int, Appointment>, records: map<int, TreatmentRecord>, a: int)
    requires Linked(appointments, records)
    requires a in appointments
    ensures appointments[a].treatmentRecordId in records <==> RecordsOf(records, a) != {}
    ensures appointments[a].treatmentRecordId in records ==> RecordsOf(records, a) == {appointments[a].treatmentRecordId}
  {
    var t := appointments[a].treatmentRecordId;
    if t in records {
      assert t in RecordsOf(records, a);
      forall r | r in RecordsOf(records, a) ensures r == t {
        assert appointments[records[r].appointmentId].treatmentRecordId == r;
      }
    } else {
      forall r | r in records ensures records[r].appointmentId != a {
        if records[r].appointmentId == a {
          assert false;
        }
      }
    }
  }

  /** Under the unique index, a record of appointment `a` is its only one. */
  lemma RecordsOfSingle(records: map<int, TreatmentRecord>, a: int, k: int)
    requires OneRecordPerAppointment(records)
    requires k in records && records[k].appointmentId == a
    ensures RecordsOf(records, a) == {k}
  {
    forall j | j in RecordsOf(records, a) ensures j == k {
    }
  }

  /** Storing a new record under the next identity value for an appointment
      that has none, and pointing the appointment at it, keeps the link, the
      record foreign keys, the unique index and the identity bounds. */
  lemma {:induction false} LinkNewRecord(appointments: map<int, Appointment>, records: map<int, TreatmentRecord>,
                                         patients: map<int, Patient>, doctors: map<int, Doctor>,
                                         id: int, t: TreatmentRecord)
    requires Linked(appointments, records) && OneRecordPerAppointment(records)
    requires RecordKeysExist(records, appointments) && RecordPartiesExist(records, patients, doctors)
    requires KeysBelow(records, id) && RecordIdsBelow(appointments, id)
    requires t.appointmentId in appointments && t.patientId in patients && t.doctorId in doctors
    requires RecordsOf(records, t.appointmentId) == {}
    ensures var records' := records[id := t];
            var appointments' := appointments[t.appointmentId := appointments[t.appointmentId].(treatmentRecordId := id)];
            && Linked(appointments', records') && OneRecordPerAppointment(records')
            && RecordKeysExist(records', appointments') && RecordPartiesExist(records', patients, doctors)
            && KeysBelow(records', id + 1) && RecordIdsBelow(appointments', id + 1)
            && RecordsOf(records', t.appointmentId) == {id}
  {
    var records' := records[id := t];
    var a := t.appointmentId;
    var appointments' := appointments[a := appointments[a].(treatmentRecordId := id)];
    forall r | r in records ensures records[r].appointmentId != a {
      assert r !in RecordsOf(records, a);
    }
    assert id !in records;
    forall r1, r2 | r1 in records' && r2 in records' && records'[r1].appointmentId == records'[r2].appointmentId
      ensures r1 == r2
    {
    }
    forall b | b in appointments' && appointments'[b].treatmentRecordId in records'
      ensures records'[appointments'[b].treatmentRecordId].appointmentId == b
    {
      if b != a {
        assert appointments'[b].treatmentRecordId == appointments[b].treatmentRecordId < id;
      }
    }
    RecordsOfSingle(records', a, id);
  }

  /** Filing a new record under the next identity value for an existing
      appointment that has none, and pointing the appointment at it, keeps
      the integrity of the tables. */
  lemma AddRecordKeepsIntegrity(appointments: map<int, Appointment>, records: map<int, TreatmentRecord>,
                                doctors: map<int, Doctor>, patients: map<int, Patient>,
                                hospitals: set<int>, departments: set<int>,
                                nextAppointmentId: int, nextRecordId: int, t: TreatmentRecord)
    requires Integrity(appointments, records, doctors, patients, hospitals, departments, nextAppointmentId, nextRecordId)
    requires t.appointmentId in appointments && t.patientId in patients && t.doctorId in doctors
    requires RecordsOf(records, t.appointmentId) == {}
    ensures var records' := records[nextRecordId := t];
            var appointments' := appointments[t.appointmentId := appointments[t.appointmentId].(treatmentRecordId := nextRecordId)];
            && Integrity(appointments', records', doctors, patients, hospitals, departments, nextAppointmentId, nextRecordId + 1)
            && RecordsOf(records', t.appointmentId) == {nextRecordId}
  {
    LinkNewRecord(appointments, records, patients, doctors, nextRecordId, t);
  }

  /** Changing the columns of a patient's row keeps the integrity: the
      foreign keys only name the row. */
  lemma ReplacePatientKeepsIntegrity(appointments: map<int, Appointment>, records: map<int, TreatmentRecord>,
                                     doctors: map<int, Doctor>, patients: map<int, Patient>,
                                     hospitals: set<int>, departments: set<int>,
                                     nextAppointmentId: int, nextRecordId: int, id: int, p: Patient)
    requires Integrity(appointments, records, doctors, patients, hospitals, departments, nextAppointmentId, nextRecordId)
    requires id in patients
    ensures Integrity(appointments, records, doctors, patients[id := p], hospitals, departments, nextAppointmentId, nextRecordId)
  {
  }

  /** `m'` is `m` with some entries removed and none changed. */
  predicate SubMap<K, V(==)>(m': map<K, V>, m: map<K, V>) {
    forall k :: k in m' ==> k in m && m'[k] == m[k]
  }

  /** The appointments left once those in `gone` are removed. */
  function AppointmentsWithout(appointments: map<int, Appointment>, gone: set<int>): (m: map<int, Appointment>)
    ensures forall a :: a in m <==> a in appointments && a !in gone
    ensures SubMap(m, appointments)
  {
    map a | a in appointments && a !in gone :: appointments[a]
  }

  /** The records left once those of the appointments in `gone` are removed. */
  function RecordsWithout(records: map<int, TreatmentRecord>, gone: set<int>): (m: map<int, TreatmentRecord>)
    ensures forall r :: r in m <==> r in records && records[r].appointmentId !in gone
    ensures SubMap(m, records)
  {
    map r | r in records && records[r].appointmentId !in gone :: records[r]
  }

  /** The records left once the database's cascade from a deleted doctor has
      removed that doctor's records. */
  function WithoutDoctorRecords(records: map<int, TreatmentRecord>, doctorId: int): (m: map<int, TreatmentRecord>)
    ensures forall r :: r in m <==> r in records && records[r].doctorId != doctorId
    ensures SubMap(m, records)
  {
    map r | r in records && records[r].doctorId != doctorId :: records[r]
  }

  /** The records left once the database's cascade from a deleted patient has
      removed that patient's records. */
  function WithoutPatientRecords(records: map<int, TreatmentRecord>, patientId: int): (m: map<int, TreatmentRecord>)
    ensures forall r :: r in m <==> r in records && records[r].patientId != patientId
    ensures SubMap(m, records)
  {
    map r | r in records && records[r].patientId != patientId :: records[r]
  }

  /** Removing rows, and changing none, keeps the link and the unique index:
      whatever is removed, what is left still points the right way. */
  lemma RemovalKeepsLink(appointments: map<int, Appointment>, records: map<int, TreatmentRecord>,
                         appointments': map<int, Appointment>, records': map<int, TreatmentRecord>)
    requires Linked(appointments, records) && OneRecordPerAppointment(records)
    requires SubMap(appointments', appointments) && SubMap(records', records)
    ensures Linked(appointments', records') && OneRecordPerAppointment(records')
  {
  }

  /** Removing a set of appointments together with their records keeps the
      link, the record foreign key and the unique index. */
  lemma CascadeKeepsIntegrity(appointments: map<int, Appointment>, records: map<int, TreatmentRecord>, gone: set<int>)
    requires Linked(appointments, records)
    requires RecordKeysExist(records, appointments)
    requires OneRecordPerAppointment(records)
    ensures Linked(AppointmentsWithout(appointments, gone), RecordsWithout(records, gone))
    ensures RecordKeysExist(RecordsWithout(records, gone), AppointmentsWithout(appointments, gone))
    ensures OneRecordPerAppointment(RecordsWithout(records, gone))
  {
    RemovalKeepsLink(appointments, records, AppointmentsWithout(appointments, gone), RecordsWithout(records, gone));
  }

  /** The appointments of doctor `id`. */
  function AppointmentsOfDoctor(appointments: map<int, Appointment>, id: int): (s: set<int>)
    ensures forall a :: a in s <==> a in appointments && appointments[a].doctorId == id
  {
    set a | a in appointments && appointments[a].doctorId == id
  }

  /** The appointments of patient `id`. */
  function AppointmentsOfPatient(appointments: map<int, Appointment>, id: int): (s: set<int>)
    ensures forall a :: a in s <==> a in appointments && appointments[a].patientId == id
  {
    set a | a in appointments && appointments[a].patientId == id
  }

  /** Everything the database guarantees about its tables at a save point. */
  predicate Integrity(appointments: map<int, Appointment>, records: map<int, TreatmentRecord>,
                      doctors: map<int, Doctor>, patients: map<int, Patient>,
                      hospitals: set<int>, departments: set<int>,
                      nextAppointmentId: int, nextRecordId: int)
  {
    && 0 < nextAppointmentId && 0 < nextRecordId
    && KeysBelow(appointments, nextAppointmentId)
    && KeysBelow(records, nextRecordId)
    && AppointmentKeysExist(appointments, patients, doctors)
    && RecordKeysExist(records, appointments)
    && RecordPartiesExist(records, patients, doctors)
    && OneRecordPerAppointment(records)
    && RecordIdsBelow(appointments, nextRecordId)
    && Linked(appointments, records)
    && DoctorKeysExist(doctors, hospitals, departments)
  }

  /** Deleting doctor `id` as DeleteDoctor does (its appointments with their
      records, then the doctor, whose remaining records the cascade removes)
      keeps the integrity of the tables. */
  lemma DeleteDoctorKeepsIntegrity(appointments: map<int, Appointment>, records: map<int, TreatmentRecord>,
                                   doctors: map<int, Doctor>, patients: map<int, Patient>,
                                   hospitals: set<int>, departments: set<int>,
                                   nextAppointmentId: int, nextRecordId: int, id: int)
    requires Integrity(appointments, records, doctors, patients, hospitals, departments, nextAppointmentId, nextRecordId)
    ensures var gone := AppointmentsOfDoctor(appointments, id);
            Integrity(AppointmentsWithout(appointments, gone), WithoutDoctorRecords(RecordsWithout(records, gone), id),
                      doctors - {id}, patients, hospitals, departments, nextAppointmentId, nextRecordId)
  {
    var gone := AppointmentsOfDoctor(appointments, id);
    var records' := RecordsWithout(records, gone);
    RemovalKeepsLink(appointments, records, AppointmentsWithout(appointments, gone), WithoutDoctorRecords(records', id));
  }

  /** Deleting appointment `id` with its record, as DeleteAppointment does,
      keeps the integrity of the tables. */
  lemma DeleteAppointmentKeepsIntegrity(appointments: map<int, Appointment>, records: map<int, TreatmentRecord>,
                                        doctors: map<int, Doctor>, patients: map<int, Patient>,
                                        hospitals: set<int>, departments: set<int>,
                                        nextAppointmentId: int, nextRecordId: int, id: int)
    requires Integrity(appointments, records, doctors, patients, hospitals, departments, nextAppointmentId, nextRecordId)
    ensures Integrity(AppointmentsWithout(appointments, {id}), RecordsWithout(records, {id}),
                      doctors, patients, hospitals, departments, nextAppointmentId, nextRecordId)
  {
    CascadeKeepsIntegrity(appointments, records, {id});
  }

  /** The record of appointment `id`, when there is one, is the only record
      the removal of that appointment takes with it. */
  lemma RemoveRecordOf(records: map<int, TreatmentRecord>, id: int, t: int)
    requires OneRecordPerAppointment(records)
    requires t in records && records[t].appointmentId == id
    ensures (map k | k in records && k != t :: records[k]) == RecordsWithout(records, {id})
  {
  }

  /** Deleting patient `id` as DeletePatient does keeps the integrity too. */
  lemma DeletePatientKeepsIntegrity(appointments: map<int, Appointment>, records: map<int, TreatmentRecord>,
                                    doctors: map<int, Doctor>, patients: map<int, Patient>,
                                    hospitals: set<int>, departments: set<int>,
                                    nextAppointmentId: int, nextRecordId: int, id: int)
    requires Integrity(appointments, records, doctors, patients, hospitals, departments, nextAppointmentId, nextRecordId)
    ensures var gone := AppointmentsOfPatient(appointments, id);
            Integrity(AppointmentsWithout(appointments, gone), WithoutPatientRecords(RecordsWithout(records, gone), id),
                      doctors, patients - {id}, hospitals, departments, nextAppointmentId, nextRecordId)
  {
    var gone := AppointmentsOfPatient(appointments, id);
    var records' := RecordsWithout(records, gone);
    RemovalKeepsLink(appointments, records, AppointmentsWithout(appointments, gone), WithoutPatientRecords(records', id));
  }

  /** One step of the deletion loops: with the appointments in `done`
      already removed with their records, removing appointment `a` and its
      record gives the tables with `done + {a}` removed. */
  lemma RemoveOneMore(appointments: map<int, Appointment>, records: map<int, TreatmentRecord>, done: set<int>, a: int)
    ensures AppointmentsWithout(AppointmentsWithout(appointments, done), {a}) == AppointmentsWithout(appointments, done + {a})
    ensures RecordsWithout(RecordsWithout(records, done), {a}) == RecordsWithout(records, done + {a})
  {
  }

  /** The removal loop of DeleteDoctor and DeletePatient: for each
      appointment in `gone`, its treatment record, if it has one, is removed,
      then the appointment itself. The order in which the appointments are
      visited does not matter to the result. */
  method RemoveAppointments(appointments0: map<int, Appointment>, records0: map<int, TreatmentRecord>, gone: set<int>)
    returns (appointments: map<int, Appointment>, records: map<int, TreatmentRecord>)
    ensures appointments == AppointmentsWithout(appointments0, gone)
    ensures records == RecordsWithout(records0, gone)
  {
    var pending := gone;
    appointments, records := appointments0, records0;
    while pending != {}
      invariant pending <= gone
      invariant appointments == AppointmentsWithout(appointments0, gone - pending)
      invariant records == RecordsWithout(records0, gone - pending)
      decreases pending
    {
      var a := Pick(pending);
      RemoveOneMore(appointments0, records0, gone - pending, a);
      assert (gone - pending) + {a} == gone - (pending - {a});
      records := RecordsWithout(records, {a});
      appointments := AppointmentsWithout(appointments, {a});
      pending := pending - {a};
    }
  }

  class Database {
    var appointments: map<int, Appointment>
    var records: map<int, TreatmentRecord>
    var doctors: map<int, Doctor>
    var patients: map<int, Patient>
    var hospitals: set<int>
    var departments: set<int>
    /** The identity values the next inserted rows receive. */
    var nextAppointmentId: int
    var nextRecordId: int

    ghost predicate Valid()
      reads this
    {
      Integrity(appointments, records, doctors, patients, hospitals, departments, nextAppointmentId, nextRecordId)
    }

    /** An empty database whose hospitals and departments are given. */
    constructor (hospitals: set<int>, departments: set<int>)
      ensures Valid()
      ensures appointments == map[] && records == map[] && doctors == map[] && patients == map[]
      ensures this.hospitals == hospitals && this.departments == departments
    {
      appointments, records, doctors, patients := map[], map[], map[], map[];
      this.hospitals, this.departments := hospitals, departments;
      nextAppointmentId, nextRecordId := 1, 1;
    }
  }
}
