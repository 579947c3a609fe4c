/** The backend's entities, request bodies and the validation rules that the
    framework applies to a request body before a controller action runs
    (`[Required]`, `[StringLength]`, `[EmailAddress]`, `[Range]` and the custom
    treatment-date rule). Dates and times are whole numbers of a fixed unit
    counted from `DateTime.MinValue`; ids are the database's integer keys. */
module Models {
  import opened Common
  import opened Text

  /** `AppointmentStatus`, stored as its integer value. */
  const Scheduled := 0
  const Completed := 1
  const Cancelled := 2

  /** `Enum.IsDefined(typeof(AppointmentStatus), s)`. */
  predicate IsDefinedStatus(s: int) {
    s == Scheduled || s == Completed || s == Cancelled
  }

  /** The value a `DateTime` field takes when the request body leaves it out. */
  const MinDateTime := 0

  /** A row of the `Appointments` table; its key is the map key it is stored
      under. `treatmentRecordId` is 0 until a doctor files the treatment record. */
  datatype Appointment = Appointment(
    patientId: int,
    doctorId: int,
    date: int,
    time: int,
    reason: Option<string>,
    status: int,
    treatmentRecordId: int,
    createdAt: int,
    updatedAt: int)

  /** The JSON body of a create or update, as bound to `AppointmentPostDto`.
      An omitted status binds to its default, Scheduled. The body's own
      `TreatmentRecordID` is bound and never used, so it is not kept. */
  datatype AppointmentRequest = AppointmentRequest(
    patientId: int,
    doctorId: int,
    date: int,
    time: int,
    reason: Option<string>,
    status: Option<int>)

  /** The status a request binds to. */
  function RequestedStatus(req: AppointmentRequest): (s: int)
    ensures req.status.Some? ==> s == req.status.value
    ensures req.status.None? ==> s == Scheduled
  {
    match req.status
    case None => Scheduled
    case Some(v) => v
  }

  /** `[StringLength(max)]`: a missing string passes, a present one must not
      be longer than `max`. */
  predicate StringLengthOk(s: Option<string>, max: nat) {
    s.None? || |s.value| <= max
  }

  /** `[Required]` on a string: present and not only white space. */
  predicate RequiredOk(s: Option<string>) {
    s.Some? && !AllDotNetWhite(s.value)
  }

  /** `[EmailAddress]`: a missing value passes; a present one must hold exactly
      one `@`, neither first nor last. */
  predicate EmailAddressOk(s: Option<string>) {
    s.None? || exists i | 0 <= i < |s.value| :: AtSignOnlyAt(s.value, i)
  }

  /** The one `@` of `s` is at index `i`, an inner position. */
  predicate AtSignOnlyAt(s: string, i: int) {
    0 < i < |s| - 1 && s[i] == '@' && forall k :: 0 <= k < |s| && k != i ==> s[k] != '@'
  }

  /** The model-state check of `AppointmentPostDto`: only the reason's length
      can fail, since its other annotations sit on value-typed fields. */
  predicate ValidAppointmentRequest(req: AppointmentRequest) {
    StringLengthOk(req.reason, 255)
  }

  /** A row of the `TreatmentRecords` table. */
  datatype TreatmentRecord = TreatmentRecord(
    patientId: int,
    doctorId: int,
    appointmentId: int,
    treatmentDate: int,
    description: string,
    visibleToPatient: bool,
    createdAt: int,
    updatedAt: int)

  /** The JSON body of a record creation, before the defaults of
      `TreatmentRecordPostDto` are filled in: a field that is None was left out. */
  datatype RecordBody = RecordBody(
    patientId: int,
    doctorId: int,
    appointmentId: int,
    treatmentDate: Option<int>,
    description: Option<string>,
    visibleToPatient: Option<bool>)

  /** `TreatmentRecordPostDto` after binding. */
  datatype RecordRequest = RecordRequest(
    patientId: int,
    doctorId: int,
    appointmentId: int,
    treatmentDate: int,
    description: string,
    visibleToPatient: bool)

  /** Binding fills the defaults: an omitted date is `DateTime.MinValue`, an
      omitted description is empty and an omitted flag is false, so a record
      is hidden from its patient unless the body asks otherwise. */
  function BindRecord(body: RecordBody): (req: RecordRequest)
    ensures req.patientId == body.patientId && req.doctorId == body.doctorId
    ensures req.appointmentId == body.appointmentId
    ensures req.treatmentDate == if body.treatmentDate.Some? then body.treatmentDate.value else MinDateTime
    ensures req.description == if body.description.Some? then body.description.value else []
    ensures req.visibleToPatient <==> (body.visibleToPatient.Some? && body.visibleToPatient.value)
  {
    RecordRequest(
      body.patientId, body.doctorId, body.appointmentId,
      match body.treatmentDate case Some(t) => t case None => MinDateTime,
      match body.description case Some(d) => d case None => [],
      match body.visibleToPatient case Some(v) => v case None => false)
  }

  /** The value a validation attribute is handed: a `DateTime`, or anything else. */
  datatype Value = DateTimeValue(t: int) | OtherValue

  /** `CustomDateValidation.IsValid`: a date later than now fails; a date at or
      before now passes, and so does a value that is not a date at all. */
  function IsValidTreatmentDate(v: Value, now: int): (ok: bool)
    ensures v.DateTimeValue? && v.t > now ==> !ok
    ensures v.DateTimeValue? && v.t <= now ==> ok
    ensures v.OtherValue? ==> ok
  {
    match v
    case DateTimeValue(t) => !(t > now)
    case OtherValue => true
  }

  /** The model-state check of `TreatmentRecordPostDto` at time `now`. The
      description is a non-nullable string, which the framework treats as
      `[Required]`: an omitted or empty description binds to "" and fails,
      and so does one of white space only. */
  predicate ValidRecordRequest(req: RecordRequest, now: int) {
    && IsValidTreatmentDate(DateTimeValue(req.treatmentDate), now)
    && RequiredOk(Some(req.description)) && |req.description| <= 500
  }

  /** A record body that leaves out its date is dated `DateTime.MinValue`,
      which is never in the future: the date check lets it through when the
      description is acceptable. */
  lemma OmittedDatePasses(body: RecordBody, now: int)
    requires body.treatmentDate.None? && now >= MinDateTime
    requires body.description.Some? && !AllDotNetWhite(body.description.value)
    requires |body.description.value| <= 500
    ensures ValidRecordRequest(BindRecord(body), now)
    ensures !BindRecord(body).visibleToPatient || body.visibleToPatient == Some(true)
  {
  }

  /** An omitted description, or one of white space only, is refused whatever
      the date. */
  lemma MissingDescriptionRefused(body: RecordBody, now: int)
    requires body.description.None? || AllDotNetWhite(body.description.value)
    ensures !ValidRecordRequest(BindRecord(body), now)
  {
  }

  /** A row of the `Doctors` table. */
  datatype Doctor = Doctor(
    userId: string,
    hospitalId: int,
    departmentId: int,
    name: string,
    specialization: Option<string>,
    phone: Option<string>,
    email: Option<string>,
    degree: Option<string>,
    experience: Option<string>,
    image: Option<seq<bv8>>,
    isAvailable: bool,
    fees: Option<int>,
    updatedAt: int)

  /** The form body of a doctor update, bound to `DoctorUpdateDto`. A missing
      id binds to 0; `imageFile` is the uploaded file's bytes, if a file came. */
  datatype DoctorUpdate = DoctorUpdate(
    hospitalId: int,
    departmentId: int,
    name: Option<string>,
    specialization: Option<string>,
    phone: Option<string>,
    email: Option<string>,
    degree: Option<string>,
    experience: Option<string>,
    isAvailable: bool,
    imageFile: Option<seq<bv8>>,
    fees: Option<int>)

  /** The model-state check of `DoctorUpdateDto`. */
  predicate ValidDoctorUpdate(u: DoctorUpdate) {
    && RequiredOk(u.name) && StringLengthOk(u.name, 100)
    && StringLengthOk(u.specialization, 100)
    && StringLengthOk(u.phone, 15)
    && StringLengthOk(u.email, 100) && EmailAddressOk(u.email)
    && StringLengthOk(u.degree, 200)
    && StringLengthOk(u.experience, 50)
    && (u.fees.None? || u.fees.value >= 0)
  }

  /** A row of the `Patients` table. */
  datatype Patient = Patient(
    userId: string,
    firstName: string,
    lastName: string,
    dateOfBirth: Option<int>,
    phone: Option<string>,
    email: Option<string>,
    gender: string,
    address: Option<string>,
    image: Option<seq<bv8>>,
    createdAt: int,
    updatedAt: int)

  /** The `PatientName` the controllers put in their replies: first name, a
      space, last name. */
  function FullName(p: Patient): string {
    p.firstName + " " + p.lastName
  }

  /** The JSON body of a patient update, bound to `PatientUpdateDto`: every
      field may be missing, and none carries a validation attribute. */
  datatype PatientUpdate = PatientUpdate(
    firstName: Option<string>,
    lastName: Option<string>,
    dateOfBirth: Option<int>,
    phone: Option<string>,
    email: Option<string>,
    gender: Option<string>,
    address: Option<string>)

  /** `string.IsNullOrEmpty`. */
  predicate IsNullOrEmpty(s: Option<string>) {
    s.None? || s.value == []
  }

  /** The outcome of the identity clean-up in DeleteDoctor and DeletePatient,
      decided by the identity framework: whether a login exists for the
      row's email, how many roles it holds, and whether removing those roles
      and then the login succeed. */
  datatype IdentityCleanup = IdentityCleanup(
    userFound: bool,
    roleCount: nat,
    removeRolesSucceeded: bool,
    deleteSucceeded: bool)

  /** Whether the clean-up lets the deletion go on: there is nothing to clean
      up without an email or a login; otherwise the role removal (when there
      are roles) and the login deletion must both succeed. */
  function CleanupSucceeds(email: Option<string>, c: IdentityCleanup): (ok: bool)
    ensures IsNullOrEmpty(email) ==> ok
    ensures !IsNullOrEmpty(email) && !c.userFound ==> ok
    ensures !IsNullOrEmpty(email) && c.userFound ==>
              (ok <==> ((c.roleCount == 0 || c.removeRolesSucceeded) && c.deleteSucceeded))
  {
    if IsNullOrEmpty(email) || !c.userFound then true
    else if c.roleCount > 0 && !c.removeRolesSucceeded then false
    else c.deleteSucceeded
  }
}
