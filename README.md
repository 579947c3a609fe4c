# CureAll booking core in Dafny

CureAll is a multi-hospital booking system: an ASP.NET Core backend over an
Entity Framework database, an admin client for administrators and doctors,
and a patient client. Patients book half-hour slots with a doctor. A doctor
files one treatment record per appointment. The patient pays online to see
the record. Administrators list, filter, sort and delete doctors,
departments and appointments.

This project models the core of that system and proves properties about it.

- **Backend.** The tables are one `Database` class, holding a map per table
  and the next identity values. Its `Valid()` invariant collects what the
  database enforces:
  - identity keys;
  - the foreign keys of appointments, records and doctors;
  - the unique index on `TreatmentRecords.AppointmentID`;
  - the two-way link between an appointment and its record.

  Each controller is a class over that database. Each action is a method
  that either commits all its changes or answers with an error and leaves
  the tables as they were. Every action preserves `Valid()`. Request
  validation is modelled as predicates over the bound request body.
- **AuthService.** The identity stores are fields of a class. The claim
  list of the access token is computed exactly.
- **JSON.** `JsonNames` models the serializer's camel-case naming policy.
  It is how the model connects the backend's replies to the names the
  clients read.
- **Clients.** Each page or context helper is a module. Pure list and
  decision logic becomes functions. Loops and state updates become methods
  with loop invariants, or classes whose fields are the page's React state.
  Sorting is an insertion sort on a copy, proved to give a sorted
  permutation.

Inputs that come from outside the model are parameters:
- the current time;
- the HTTP outcome of a call;
- the identity framework's verdicts;
- the browser's locale rendering of a time.

Dates are whole numbers of a fixed unit. Fees are integers.

## Model

| member | source | states |
|---|---|---|
| Models.IsDefinedStatus | backend/MultiHospital/Controllers/AppointmentController.cs:184 | defines `Enum.IsDefined` on the status enumeration: Scheduled, Completed or Cancelled |
| Models.StringLengthOk | backend/MultiHospital/DTO/DoctorUpdateDto.cs:14-30 | defines `[StringLength(max)]`: a missing string passes, a present one at most max characters |
| Models.RequiredOk | backend/MultiHospital/DTO/DoctorUpdateDto.cs:13-15 | defines `[Required]` on a string: present and not only .NET white space |
| Models.EmailAddressOk | backend/MultiHospital/DTO/DoctorUpdateDto.cs:24 | defines `[EmailAddress]`: a missing value passes, a present one has exactly one `@`, neither first nor last |
| Models.ValidAppointmentRequest | backend/MultiHospital/Controllers/AppointmentController.cs:94-97 | defines the model-state check of an appointment body: only the reason's 255-character limit can fail |
| Models.ValidRecordRequest | backend/MultiHospital/DTO/TreatmentRecordPostDto.cs:17-23 | defines the model-state check of a record body: the date not after now, and the description, a non-nullable string and so implicitly `[Required]`, not only .NET white space and at most 500 characters |
| Models.ValidDoctorUpdate | backend/MultiHospital/DTO/DoctorUpdateDto.cs:7-40 | defines the model-state check of a doctor form: a required name of at most 100 characters, the length limits of the other strings, the e-mail format and non-negative fees |
| Models.RequestedStatus | backend/MultiHospital/Controllers/AppointmentController.cs:110 | the status stored is the request's; an omitted one binds to the DTO default, Scheduled |
| Models.BindRecord | backend/MultiHospital/DTO/TreatmentRecordPostDto.cs:17-25 | an omitted date binds to the minimum date, an omitted description to "", an omitted visibility flag to false; ids are copied |
| Models.IsValidTreatmentDate | backend/MultiHospital/Models/TreatmentRecord.cs:44-54 | a date later than now fails; a date at or before now passes; a value that is not a date passes |
| Models.OmittedDatePasses | backend/MultiHospital/DTO/TreatmentRecordPostDto.cs:17-25 | a body without a date but with an acceptable description passes validation, and its record is hidden unless the body asks otherwise |
| Models.MissingDescriptionRefused | backend/MultiHospital/DTO/TreatmentRecordPostDto.cs:22-23 | a body that leaves out the description, or sends one of white space only, fails validation whatever its date |
| Models.CleanupSucceeds | backend/MultiHospital/Controllers/DoctorController.cs:251-271 | no email or no login means nothing to clean up; otherwise deletion goes on exactly when role removal (if any roles) and login deletion both succeed |
| Database.Integrity | backend/MultiHospital/Context/IdentityDatabaseContext.cs:24-68 | defines what the database keeps at a save point: identity bounds, the foreign keys, the unique index on AppointmentID and the appointment-record link |
| Database.LinkedIff | backend/MultiHospital/Migrations/20250209094401_UpdatedDoctorAndPatientRelationWithAppointments.cs:39-43 | with the link in place, an appointment's TreatmentRecordID names a stored record exactly when some record points back, and then that record is the only one |
| Database.RecordsOfSingle | backend/MultiHospital/Migrations/20250209094401_UpdatedDoctorAndPatientRelationWithAppointments.cs:39-43 | under the unique index, a record of an appointment is its only record |
| Database.LinkNewRecord | backend/MultiHospital/Controllers/TreadmentRecordsController.cs:49-59 | storing a record for an appointment that has none, under the next identity value, and pointing the appointment at it, keeps link, index, foreign keys and identity bounds |
| Database.AddRecordKeepsIntegrity | backend/MultiHospital/Controllers/TreadmentRecordsController.cs:49-59 | the same step keeps the whole integrity predicate and leaves the new record the appointment's only one |
| Database.ReplacePatientKeepsIntegrity | backend/MultiHospital/Controllers/PatientController.cs:173-195 | changing a patient's columns keeps integrity |
| Database.AppointmentsWithout | backend/MultiHospital/Controllers/DoctorController.cs:247 | exactly the appointments outside the removed set remain, unchanged |
| Database.RecordsWithout | backend/MultiHospital/Controllers/DoctorController.cs:241-246 | exactly the records whose appointment is outside the removed set remain, unchanged |
| Database.WithoutDoctorRecords | backend/MultiHospital/Migrations/20250129081629_AddTreatmentTableAndStaffTableAndBillingTable.cs:50-54 | the database cascade from a deleted doctor leaves exactly the records of other doctors |
| Database.WithoutPatientRecords | backend/MultiHospital/Migrations/20250129081629_AddTreatmentTableAndStaffTableAndBillingTable.cs:56-60 | the cascade from a deleted patient leaves exactly the records of other patients |
| Database.RemovalKeepsLink | backend/MultiHospital/Context/IdentityDatabaseContext.cs:64-68 | removing rows and changing none keeps the link and the unique index |
| Database.CascadeKeepsIntegrity | backend/MultiHospital/Controllers/AppointmentController.cs:161-174 | removing appointments with their records keeps link, record foreign key and unique index |
| Database.AppointmentsOfDoctor | backend/MultiHospital/Controllers/DoctorController.cs:236-238 | exactly the appointments whose DoctorID is the doctor |
| Database.AppointmentsOfPatient | backend/MultiHospital/Controllers/PatientController.cs:214-216 | exactly the appointments whose PatientID is the patient |
| Database.DeleteDoctorKeepsIntegrity | backend/MultiHospital/Controllers/DoctorController.cs:236-274 | deleting a doctor's appointments with their records, then the doctor and, by cascade, its remaining records, keeps integrity |
| Database.DeleteAppointmentKeepsIntegrity | backend/MultiHospital/Controllers/AppointmentController.cs:161-174 | deleting an appointment with its record keeps integrity |
| Database.RemoveRecordOf | backend/MultiHospital/Controllers/AppointmentController.cs:161-171 | removing the one record of an appointment is the same as removing every record of that appointment |
| Database.DeletePatientKeepsIntegrity | backend/MultiHospital/Controllers/PatientController.cs:214-252 | deleting a patient's appointments with their records, then the patient and its remaining records, keeps integrity |
| Database.RemoveOneMore | backend/MultiHospital/Controllers/DoctorController.cs:236-248 | one more loop step removes one more appointment and its records |
| Database.RemoveAppointments | backend/MultiHospital/Controllers/DoctorController.cs:236-248 | the removal loop ends with the appointments in the set and their records removed, whatever the visiting order |
| Database.Database.constructor | backend/MultiHospital/Context/IdentityDatabaseContext.cs:13-22 | an empty database over the given hospitals and departments is valid |
| AppointmentApi.RemoveRecordOfAppointment | backend/MultiHospital/Controllers/AppointmentController.cs:161-171 | the record of the appointment, if any, leaves the table and nothing else does |
| AppointmentApi.AppointmentController.constructor | backend/MultiHospital/Controllers/AppointmentController.cs:21-24 | the controller works on the given database |
| AppointmentApi.AppointmentController.GetAppointmentById | backend/MultiHospital/Controllers/AppointmentController.cs:58-87 | NotFound exactly for an unknown id; otherwise the row with its patient's full name and doctor's name |
| AppointmentApi.AppointmentController.GetAppointmentsByDoctorId | backend/MultiHospital/Controllers/AppointmentController.cs:207-237 | exactly the doctor's appointments, and NotFound exactly when there are none |
| AppointmentApi.AppointmentController.GetAppointmentsByPatientId | backend/MultiHospital/Controllers/AppointmentController.cs:242-253 | exactly the patient's appointments, and NotFound exactly when there are none |
| AppointmentApi.AppointmentController.CreateAppointment | backend/MultiHospital/Controllers/AppointmentController.cs:92-119 | invalid body: BadRequest and no change; unknown patient or doctor: save error and no change; a valid body naming an existing patient and doctor always succeeds, with one new row under the next id, the request's fields and status and TreatmentRecordID 0; every other row, and the records, patients, doctors, hospitals and departments, unchanged |
| AppointmentApi.AppointmentController.UpdateAppointment | backend/MultiHospital/Controllers/AppointmentController.cs:124-145 | BadRequest before lookup, NotFound for an unknown id, save error exactly on a dangling key; a valid body on an existing id with existing keys always succeeds: patient, doctor, date, time, reason and status are overwritten and TreatmentRecordID and creation time kept; every other table, hospitals and departments too, unchanged |
| AppointmentApi.AppointmentController.DeleteAppointment | backend/MultiHospital/Controllers/AppointmentController.cs:150-177 | NotFound with no change for an unknown id; otherwise exactly the appointment and its record are removed |
| AppointmentApi.AppointmentController.UpdateAppointmentStatus | backend/MultiHospital/Controllers/AppointmentController.cs:182-202 | BadRequest before lookup for a value outside the enumeration, NotFound for an unknown id, no change in either; otherwise only that appointment's status (any defined value, back to Scheduled too) and update time change; every other table, hospitals and departments too, unchanged |
| TreatmentRecordsApi.WithVisibility | backend/MultiHospital/Controllers/TreadmentRecordsController.cs:140-141 | same keys; only the given record's flag and update time change |
| TreatmentRecordsApi.VisibilityIdempotent | backend/MultiHospital/Controllers/TreadmentRecordsController.cs:134-143 | setting the same flag twice equals setting it once, up to the time stamp |
| TreatmentRecordsApi.VisibilityTouchesOneRecord | backend/MultiHospital/Controllers/TreadmentRecordsController.cs:155 | after a visibility change, membership in a patient's visible list changes for that record only |
| TreatmentRecordsApi.TreatmentRecordsController.constructor | backend/MultiHospital/Controllers/TreadmentRecordsController.cs:21-24 | the controller works on the given database |
| TreatmentRecordsApi.TreatmentRecordsController.CreateTreatmentRecord | backend/MultiHospital/Controllers/TreadmentRecordsController.cs:29-62 | invalid body (future date, missing or white-space description, description over 500): BadRequest; dangling key or an appointment that already has a record: save error exactly then; no change in both; a valid body with existing keys on an appointment without a record always succeeds: the bound record under the next id, visible only if asked, and the appointment's TreatmentRecordID set to it; patients, doctors, hospitals and departments unchanged |
| TreatmentRecordsApi.TreatmentRecordsController.GetTreatmentRecord | backend/MultiHospital/Controllers/TreadmentRecordsController.cs:70-95 | NotFound exactly for an unknown id; otherwise every field of the reply: the id, the patient's full name, the doctor's name, date, description, flag and both time stamps, with AppointmentID left at 0 |
| TreatmentRecordsApi.TreatmentRecordsController.GetTreatmentRecordByAppointmentId | backend/MultiHospital/Controllers/TreadmentRecordsController.cs:103-128 | NotFound exactly when the appointment has no record; otherwise its only record, with every field as in GetTreatmentRecord, AppointmentID left at 0 |
| TreatmentRecordsApi.TreatmentRecordsController.UpdateVisibility | backend/MultiHospital/Controllers/TreadmentRecordsController.cs:132-145 | NotFound with no change for an unknown id; otherwise only that record's flag and update time change; every other table, hospitals and departments too, unchanged |
| TreatmentRecordsApi.TreatmentRecordsController.GetVisibleTreatmentRecordsForPatient | backend/MultiHospital/Controllers/TreadmentRecordsController.cs:150-177 | exactly the patient's records with the flag set, each with every field: the patient's full name, the doctor's name, date, description, its AppointmentID, flag and both time stamps; NotFound exactly when there are none |
| DoctorApi.ResolvedHospital | backend/MultiHospital/Controllers/DoctorController.cs:182-185 | a HospitalID of 0 keeps the current hospital |
| DoctorApi.ResolvedDepartment | backend/MultiHospital/Controllers/DoctorController.cs:186-190 | a DepartmentID of 0 keeps the current department |
| DoctorApi.UpdatedDoctor | backend/MultiHospital/Controllers/DoctorController.cs:182-211 | name, specialization, phone, degree, experience and fees come from the form; the image changes only for a non-empty upload; login, email and availability never change |
| DoctorApi.UpdatedDoctorIdempotent | backend/MultiHospital/Controllers/DoctorController.cs:193-211 | submitting the same form twice equals submitting it once, up to the time stamp |
| DoctorApi.DoctorController.constructor | backend/MultiHospital/Controllers/DoctorController.cs:18-23 | the controller works on the given database |
| DoctorApi.DoctorController.UpdateDoctor | backend/MultiHospital/Controllers/DoctorController.cs:169-217 | BadRequest for an invalid form, NotFound for an unknown id, save error exactly when the resolved hospital or department does not exist; no change in those cases; a valid form on an existing doctor with resolvable keys always succeeds, and only that doctor's row changes, to UpdatedDoctor; every other table, hospitals and departments too, unchanged |
| DoctorApi.DoctorController.DeleteDoctor | backend/MultiHospital/Controllers/DoctorController.cs:224-277 | NotFound for an unknown id; BadRequest exactly when identity clean-up fails; no change in both; an existing doctor whose clean-up succeeds is always deleted: the doctor, its appointments and their records and its own records are gone, and patients, hospitals and departments unchanged |
| PatientApi.Overwrite | backend/MultiHospital/Controllers/PatientController.cs:173-174 | a null or empty value keeps the current string, any other replaces it |
| PatientApi.OverwriteOptional | backend/MultiHospital/Controllers/PatientController.cs:181-188 | the same for a nullable column |
| PatientApi.UpdatedPatient | backend/MultiHospital/Controllers/PatientController.cs:173-194 | each string field overwritten only by a non-empty value, the date of birth by any present value, the update time always |
| PatientApi.EmptyUpdateTouchesOnlyTime | backend/MultiHospital/Controllers/PatientController.cs:194 | a body of nulls or empty strings changes only the update time |
| PatientApi.UpdatedPatientIdempotent | backend/MultiHospital/Controllers/PatientController.cs:173-194 | applying the same PATCH twice equals applying it once, up to the time stamp |
| PatientApi.ApplyPatch | backend/MultiHospital/Controllers/PatientController.cs:173-194 | the field-by-field assignments give UpdatedPatient |
| PatientApi.PatientController.constructor | backend/MultiHospital/Controllers/PatientController.cs:19-24 | the controller works on the given database |
| PatientApi.PatientController.GetAllPatients | backend/MultiHospital/Controllers/PatientController.cs:32-53 | NotFound exactly for an empty table; a server error exactly when some patient has no date of birth; otherwise every patient with every column: names, date of birth, phone, email, gender, address, image, creation and update times |
| PatientApi.PatientController.UpdatePatient | backend/MultiHospital/Controllers/PatientController.cs:166-198 | NotFound with no change for an unknown id; otherwise only that patient's row changes, to UpdatedPatient; every other table, hospitals and departments too, unchanged |
| PatientApi.PatientController.DeletePatient | backend/MultiHospital/Controllers/PatientController.cs:202-255 | NotFound for an unknown id; BadRequest exactly when identity clean-up fails; no change in both; an existing patient whose clean-up succeeds is always deleted: the patient, its appointments and their records and its own records are gone, and doctors, hospitals and departments unchanged |
| Auth.FirstFor | backend/MultiHospital/Services/AuthService.cs:145 | none exactly when no row belongs to the account; otherwise the first such row's key |
| Auth.UserSpecificId | backend/MultiHospital/Services/AuthService.cs:140-162 | the first of patient, doctor, admin that the account holds picks the table; none without any of the three |
| Auth.NoFallThrough | backend/MultiHospital/Services/AuthService.cs:143-147 | a patient-and-doctor account without a patient row gets no id, even with a doctor row |
| Auth.AddRoles | backend/MultiHospital/Services/AuthService.cs:36-48 | reports the names missing when their turn comes; the role set only grows |
| Auth.AddRolesReportsNewNames | backend/MultiHospital/Services/AuthService.cs:38-47 | when the store accepts every name, the names reported are exactly the new ones, once each, in input order, and afterwards every name exists |
| Auth.AuthService.constructor | backend/MultiHospital/Services/AuthService.cs:22-34 | the service starts over the given stores |
| Auth.AuthService.AddRole | backend/MultiHospital/Services/AuthService.cs:36-48 | the loop reports and creates exactly what AddRoles says; other stores unchanged |
| Auth.HoldsNone | backend/MultiHospital/Services/AuthService.cs:63-66 | defines the condition under which `AddToRolesAsync` does not refuse: the account holds none of the names |
| Auth.AuthService.AddUserRole | backend/MultiHospital/Services/AuthService.cs:50-69 | true exactly when the account exists, the list is non-empty, every name is a role, the account holds none of them and the store's save accepts; only then is each name added, once |
| Auth.AuthService.EnsureRoleExists | backend/MultiHospital/Services/AuthService.cs:165-175 | an existing role: true, nothing created; otherwise the creation's verdict, and the role exists exactly when it succeeded |
| Auth.AuthService.GenerateJwtToken | backend/MultiHospital/Services/AuthService.cs:91-137 | no token for an unknown email; otherwise claims sub, jti, iat, id, then userSpecificId when it resolves, then one role claim per role in order, expiring 30 minutes later |
| JsonNames.CamelCase | backend/MultiHospital/Program.cs:40-42 | same length; never starts with a capital; a name not starting with a capital is kept |
| JsonNames.LowerCapitals | backend/MultiHospital/Program.cs:40-42 | the rest of a name keeps its length |
| JsonNames.Serialize | backend/MultiHospital/Program.cs:40-42 | no key of a written object starts with a capital |
| JsonNames.SerializedValue | backend/MultiHospital/Program.cs:40-42 | a property is read back under its camel-case name unless a later one shares it |
| JsonNames.SerializedKeys | backend/MultiHospital/Program.cs:40-42 | a written object has no key but `$id` and the camel-case names of its properties |
| JsonNames.CapitalizedNameIsNeverWritten | backend/MultiHospital/Program.cs:40-42 | no name with a leading capital is ever written |
| JsonNames.OneLeadingCapital | backend/MultiHospital/Program.cs:40-42 | a name with one leading capital loses only that capital |
| JsonNames.RecordIdName | backend/MultiHospital/Models/TreatmentRecord.cs:8 | TreatmentRecordID is written as treatmentRecordID |
| JsonNames.AppointmentIdName | backend/MultiHospital/Models/TreatmentRecord.cs:19 | AppointmentID is written as appointmentID, the name the patient page reads |
| JsonNames.VisibilityName | backend/MultiHospital/Models/TreatmentRecord.cs:38 | IsVisibleToPatient is written as isVisibleToPatient |
| JsonNames.AcronymNames | backend/MultiHospital/Program.cs:40-42 | runs of capitals: ID becomes id, URLValue becomes urlValue |
| TreatmentRecordForm.CreatedRecordJson | backend/MultiHospital/Controllers/TreadmentRecordsController.cs:61 | the created record's body holds its id under treatmentRecordID, and no key starts with a capital |
| TreatmentRecordForm.RecordViewJson | backend/MultiHospital/DTO/TreatmentRecordGetDto.cs:8-31 | the same for the lookup's body |
| TreatmentRecordForm.PostOutcome | admin/src/pages/Doctor/TreatmentRecordForm.jsx:111-132 | the record page opens exactly for a 2xx reply with a truthy id; a 500 is taken for a duplicate; anything else ends in "Submitted" |
| TreatmentRecordForm.AsWrittenMissesRecordId | admin/src/pages/Doctor/TreatmentRecordForm.jsx:59-61 | read under TreatmentRecordID, a fresh record is reported as "Submitted" and an existing one is not detected; read under treatmentRecordID, both are found |
| TreatmentRecordForm.FiledRecordIsDetected | admin/src/pages/Doctor/TreatmentRecordForm.jsx:55-61 | any record the backend holds for the appointment is detected by the form |
| TreatmentRecordForm.RecordForm.constructor | admin/src/pages/Doctor/TreatmentRecordForm.jsx:14-20 | empty ids and name; not loading; not submitted; record ids are read under the key the form is given |
| TreatmentRecordForm.RecordForm.LoadDoctorId | admin/src/pages/Doctor/TreatmentRecordForm.jsx:71-76 | the doctor id is set only from a truthy userSpecificId |
| TreatmentRecordForm.RecordForm.LoadAppointment | admin/src/pages/Doctor/TreatmentRecordForm.jsx:37-65 | nothing without token or appointment; truthy patient id and name are kept; a lookup reply holding a truthy id under the form's key marks the form submitted |
| TreatmentRecordForm.RecordForm.HandleSubmit | admin/src/pages/Doctor/TreatmentRecordForm.jsx:79-136 | already submitted, future date, missing token: no post, in that order; otherwise the payload is posted and the outcome is PostOutcome under the form's key; a 500 marks the form submitted; loading ends |
| TreatmentRecordForm.AsWrittenFormMissesRecord | admin/src/pages/Doctor/TreatmentRecordForm.jsx:55-121 | the form as written, reading TreatmentRecordID, is not marked submitted by the lookup of a filed record, and a filled-in post of a new record ends in "Submitted" |
| TreatmentRecordForm.CorrectedFormFindsRecord | admin/src/pages/Doctor/TreatmentRecordForm.jsx:55-121 | reading treatmentRecordID, the same replies mark the form submitted and open the new record's page |
| TreatmentRecordForm.SubmitFilledForm | admin/src/pages/Doctor/TreatmentRecordForm.jsx:37-136 | a form whose ids are loaded and whose required date and description are filled in, the date not after now, posts exactly those values, and ends as PostOutcome says |
| AdminContext.SlotDateOk | admin/src/context/AppContext.jsx:19-23 | defines the accepted slot date: three `_`-separated parts whose middle one reads as a number from 1 to 12 |
| AdminContext.SlotDateFormat | admin/src/context/AppContext.jsx:15-25 | "Invalid Date" exactly for a non-string, an empty string, or anything but three parts whose middle one reads as a number from 1 to 12; otherwise day, month text, year, the month text being the abbreviation for a whole number and "undefined" for a fraction |
| AdminContext.TwoSpacesNotInvalid | admin/src/context/AppContext.jsx:24 | a formatted date is never the text "Invalid Date" |
| AdminContext.MonthName | admin/src/context/AppContext.jsx:24 | `months[m - 1]`: the abbreviation for a whole m in 1..12, "undefined" for a fraction |
| AdminContext.FormatParts | admin/src/context/AppContext.jsx:19-24 | day, month and year joined by `_` give "Invalid Date" outside 1..12 and otherwise day, MonthName of the month's value, year |
| AdminContext.FormatMonthValue | admin/src/context/AppContext.jsx:19-24 | a month text reading as a value in 1..12 prints that value's MonthName between day and year |
| AdminContext.FractionalMonth | admin/src/context/AppContext.jsx:21-24 | month "1.5" passes the range check and prints as "undefined" |
| AdminContext.WholeMonthWithFraction | admin/src/context/AppContext.jsx:21-24 | month "01.0" prints as "Jan" |
| AdminContext.FormatJoined | admin/src/context/AppContext.jsx:19-24 | d_m_y with m in 1..12 formats as day, month abbreviation, year |
| AdminContext.MonthOutOfRange | admin/src/context/AppContext.jsx:21-23 | a month outside 1..12 gives "Invalid Date" |
| AdminContext.ChangeAvailability | admin/src/context/AppContext.jsx:27-32 | same length and order; availability flipped exactly on the matching ids |
| AdminContext.ChangeAvailabilityTwice | admin/src/context/AppContext.jsx:27-32 | toggling twice gives the list back |
| AdminContext.IdOf | admin/src/context/AppContext.jsx:35 | defines `appointment.id`: the entry's `id`, or `undefined` when it has none |
| AdminContext.CancelAppointment | admin/src/context/AppContext.jsx:34-37 | exactly the entries whose `id` is not strictly equal to the given id remain, in order, each as often as before; an entry without `id` is always kept |
| AdminContext.CancelAppointmentStable | admin/src/context/AppContext.jsx:34-37 | cancelling an id no entry carries changes nothing; cancelling twice equals once |
| AdminContext.FetchedEntry | backend/MultiHospital/DTO/AppointmentGetDto.cs:5-20 | defines an entry of `GET api/appointment`: an AppointmentGetDto as the serializer writes it |
| AdminContext.FetchedEntryShape | backend/MultiHospital/DTO/AppointmentGetDto.cs:7 | a fetched entry holds its id under `appointmentID` and has no `id` property |
| AdminContext.FetchedAppointmentsAreKept | admin/src/context/AppContext.jsx:34-37 | on the list the context fetches, cancelling any id removes nothing |
| AdminContext.ExtractData | admin/src/context/AppContext.jsx:39-41 | a wrapper gives its $values; anything else comes back as it is |
| AdminContext.ExtractDataIdempotent | admin/src/context/AppContext.jsx:39-41 | unwrapping twice equals unwrapping once |
| Booking.DayStart | frontend/src/Pages/Appointment.jsx:52-58 | today: the next hour from 10 on (else 10), at :30 past half past; later days: 10:00 |
| Booking.DaySlots | frontend/src/Pages/Appointment.jsx:61-67 | defines a day's slots: from the start, every half hour, while before 21:00 |
| Booking.DaySlotsShape | frontend/src/Pages/Appointment.jsx:61-67 | a day's slots are start + 30k, all before 21:00, the next one not, empty exactly when the start is not before 21:00 |
| Booking.SlotsHalfHourApart | frontend/src/Pages/Appointment.jsx:66 | consecutive slots are 30 minutes apart on the same day |
| Booking.GenerateSlots | frontend/src/Pages/Appointment.jsx:43-72 | seven day lists; day i is today + i and holds that day's slots from its start |
| Booking.GeneratedSlotsInHours | frontend/src/Pages/Appointment.jsx:46-67 | every slot lies on its day between 10:00 and 21:00; days 1 to 6 begin at 10:00 |
| Booking.HandleBookAppointment | frontend/src/Pages/Appointment.jsx:74-83 | passes doctor, patient and time, and the day's first slot, none for an empty day |
| Booking.BookedDateIsDayStart | frontend/src/Pages/Appointment.jsx:79 | the date handed on is that day's start, none exactly when the start is past closing |
| AppointmentReason.OnOpen | frontend/src/Pages/AppointmentReason.jsx:15-85 | redirect to login exactly without a token; with one, a reload exactly when the user id is `null` once loading has ended, else the loading text while loading, "User not found" for any other falsy id (`undefined`, ""), and the form exactly when loading has ended and the id is truthy |
| AppointmentReason.OnOpenPromises | frontend/src/Pages/AppointmentReason.jsx:15-85 | never a reload while loading; a token without the userSpecificId claim leaves the id `undefined` and shows "User not found", not a reload; a reason submitted from a shown form is never held back for loading or its user, only refused for missing booking details |
| AppointmentReason.HandleSubmit | frontend/src/Pages/AppointmentReason.jsx:32-69 | no post while loading or with a missing user, doctor, date or time; otherwise the payload has the reason and status Scheduled; the success page only after the post succeeds |
| AppointmentReason.BookingReachesPost | frontend/src/Pages/AppointmentReason.jsx:47-54 | a slot booked on a generated day reaches the post with that slot as date and a defined status; the backend then refuses it exactly when the reason exceeds 255 characters |
| MyAppointments.ReadAppointments | frontend/src/Pages/MyAppointments.jsx:42-43 | the list is $values, or empty without them |
| MyAppointments.PatientListReadWhole | frontend/src/Pages/MyAppointments.jsx:35-43 | the backend's wrapped reply to the patient query, in any order, is read whole: as many entries, exactly the patient's appointments, each with its doctor and record id |
| MyAppointments.VisibilityLastWriteWins | frontend/src/Pages/MyAppointments.jsx:88-91 | the map's keys are the appointments named by records; each entry holds the last such record's flag |
| MyAppointments.VisibleRecordsAllPaid | frontend/src/Pages/MyAppointments.jsx:86-91 | from the backend's visible list, every map entry is true |
| MyAppointments.LastFor | frontend/src/Pages/MyAppointments.jsx:89-91 | finds the last record naming an appointment |
| MyAppointments.BuildVisibilityMap | frontend/src/Pages/MyAppointments.jsx:86-92 | the forEach loop builds the visibility map, last write winning |
| MyAppointments.IsPaid | frontend/src/Pages/MyAppointments.jsx:253 | defines `isPaid`: the appointment's entry in the visibility map is `true`; no entry is unpaid |
| MyAppointments.FeeFor | frontend/src/Pages/MyAppointments.jsx:154-156 | the doctor's fees when set and non-zero, else 1000 |
| MyAppointments.HandlePayOnline | frontend/src/Pages/MyAppointments.jsx:143-162 | refused without patient data or with record id 0; otherwise charged at 100 paise per unit of the fee |
| MyAppointments.ChargeIsPositive | frontend/src/Pages/MyAppointments.jsx:156-162 | with non-negative fees, every charge is at least 100 paise |
| MyAppointments.AfterPayment | frontend/src/Pages/MyAppointments.jsx:183-189 | on 200 the appointment's entry becomes true, other entries unchanged; otherwise the map is unchanged |
| MyAppointments.PaymentMarksOnlyItsAppointment | frontend/src/Pages/MyAppointments.jsx:186-189 | after a payment, that appointment shows paid and every other one shows paid exactly as before |
| MyAppointments.HandleDelete | frontend/src/Pages/MyAppointments.jsx:216-238 | only a 200 reply removes the appointment; the others remain in order, each as often as before |
| AllAppointments.StatusCellOf | admin/src/pages/Admin/AllAppointments.jsx:93-112 | 2 labelled Cancelled, 1 Completed, 0 offers the actions to 1 and 2, any other code blank |
| AllAppointments.Render | admin/src/pages/Admin/AllAppointments.jsx:39-114 | loading text exactly for a non-array or an empty list; otherwise one status cell per row |
| AllAppointments.OfferedTargetsAreAccepted | admin/src/pages/Admin/AllAppointments.jsx:97-110 | every offered target is a defined status, never Scheduled; a $values wrapper shows the loading text |
| Dashboard.Count | admin/src/pages/Admin/Dashboard.jsx:19-21 | the array's length, 0 for a non-array |
| Dashboard.CountOfExtractedList | admin/src/pages/Admin/Dashboard.jsx:19-21 | counting the context's unwrapped list gives the backend list's length; the wrapper itself would count 0 |
| Dashboard.LaterFirstIsTotalPreorder | admin/src/pages/Admin/Dashboard.jsx:24 | the date comparator is a total preorder |
| Dashboard.PatientNameFor | admin/src/pages/Admin/Dashboard.jsx:26-30 | the first matching patient's first and last name, else "Unknown" |
| Dashboard.DoctorFor | admin/src/pages/Admin/Dashboard.jsx:27 | the first doctor with the id, none exactly when there is none |
| Dashboard.RowFor | admin/src/pages/Admin/Dashboard.jsx:28-33 | the booking with its names; "Unknown" and "" for an unlisted doctor |
| Dashboard.BookingsOf | admin/src/pages/Admin/Dashboard.jsx:25 | the bookings of the rows, in order |
| Dashboard.LatestAppointments | admin/src/pages/Admin/Dashboard.jsx:23-34 | min(5, n) rows, latest first, taken from the list, none left out later than one shown, each joined with its names |
| DoctorsList.ReadDoctors | admin/src/pages/Admin/DoctorsList.jsx:21-27 | the list exactly when $values is an array |
| DoctorsList.ReadListShownWhole | admin/src/pages/Admin/DoctorsList.jsx:21-27 | the backend's wrapped list is read whole and shown whole under "All"/"All"; a bare array is refused |
| DoctorsList.HospitalNames | admin/src/pages/Admin/DoctorsList.jsx:64 | the hospital name of each doctor, in order |
| DoctorsList.DepartmentNames | admin/src/pages/Admin/DoctorsList.jsx:65 | the department name of each doctor, in order |
| DoctorsList.HospitalOptions | admin/src/pages/Admin/DoctorsList.jsx:64 | each hospital name once, exactly the names present, in first-occurrence order |
| DoctorsList.DepartmentOptions | admin/src/pages/Admin/DoctorsList.jsx:65 | each department name once, exactly the names present, in first-occurrence order |
| DoctorsList.FilterDoctors | admin/src/pages/Admin/DoctorsList.jsx:68-72 | exactly the doctors matching both selections, "All" matching anything, in order, each as often as in the list |
| DoctorsList.FilterSelections | admin/src/pages/Admin/DoctorsList.jsx:64-72 | "All"/"All" shows everyone; every hospital option selects some doctor |
| DoctorsList.DeleteDoctor | admin/src/pages/Admin/DoctorsList.jsx:38-61 | only a 200 reply removes the doctor; the others remain in order, each as often as before |
| DoctorsPage.SpecialityMatches | frontend/src/Pages/Doctors.jsx:55 | defines the speciality test: a present specialization, lowered and trimmed, contains the lowered, trimmed speciality |
| DoctorsPage.FilterThrows | frontend/src/Pages/Doctors.jsx:53-57 | defines when the speciality filter raises a TypeError: a truthy speciality and a doctor with a `null` specialization |
| DoctorsPage.Shown | frontend/src/Pages/Doctors.jsx:53-61 | defines the page's filter on one doctor: each of the speciality and hospital tests applies when its value is truthy |
| DoctorsPage.ApplyFilter | frontend/src/Pages/Doctors.jsx:50-64 | the filter throws exactly when a speciality is given and some doctor has a `null` specialization, and the shown list is then not replaced; otherwise exactly the doctors passing the truthy filters, in order, each as often as in the list |
| DoctorsPage.BySpeciality | frontend/src/Pages/Doctors.jsx:53-57 | throws exactly when a speciality is given and some doctor has no specialization; otherwise exactly the doctors whose lowered, trimmed specialization contains the lowered, trimmed speciality, in order, each as often as in the list; all without a speciality |
| DoctorsPage.NoFilterShowsAll | frontend/src/Pages/Doctors.jsx:51-63 | no speciality and no hospital: every doctor; a white-space speciality shows every doctor exactly when all have a specialization, and throws otherwise |
| DoctorsPage.SameSpecialityMatches | frontend/src/Pages/Doctors.jsx:55 | a present specialization equal to the speciality up to case matches |
| DepartmentList.ComparatorsArePreorders | admin/src/pages/Admin/DepartmentList.jsx:80-88 | both orders on the lowered hospital name are total preorders |
| DepartmentList.OfHospital | admin/src/pages/Admin/DepartmentList.jsx:51 | exactly the departments of that hospital, in order, each as often as in the list |
| DepartmentList.Without | admin/src/pages/Admin/DepartmentList.jsx:66-67 | exactly the other departments, in order, each as often as in the list |
| DepartmentList.DepartmentList.constructor | admin/src/pages/Admin/DepartmentList.jsx:6-11 | empty lists, ascending order |
| DepartmentList.DepartmentList.Load | admin/src/pages/Admin/DepartmentList.jsx:19-25 | an array of $values fills both lists; anything else changes neither |
| DepartmentList.DepartmentList.HandleHospitalChange | admin/src/pages/Admin/DepartmentList.jsx:45-53 | "all" shows every department, any other value that hospital's |
| DepartmentList.DepartmentList.DeleteDepartment | admin/src/pages/Admin/DepartmentList.jsx:55-76 | on 200 the id leaves both lists, otherwise neither changes |
| DepartmentList.DepartmentList.HandleSortChange | admin/src/pages/Admin/DepartmentList.jsx:79-92 | the shown list becomes a sorted permutation of itself in the current order, and the order flips |
| Lists.Filter | admin/src/context/AppContext.jsx:35 | `filter`: exactly the elements passing the test, in order |
| Lists.Find | admin/src/pages/Admin/Dashboard.jsx:26-27 | `find`: the first element passing the test, none exactly when there is none |
| Lists.Distinct | admin/src/pages/Admin/DoctorsList.jsx:64 | `[...new Set(xs)]`: each element once, the same elements, in order |
| Lists.DistinctIsFirstOccurrences | admin/src/pages/Admin/DoctorsList.jsx:64 | the Set order is the order of first occurrence |
| Lists.SortCopy | admin/src/pages/Admin/Dashboard.jsx:23-24 | sorting a copy gives a sorted permutation of the input |
| Lists.TakeOfSortedIsExtreme | admin/src/pages/Admin/Dashboard.jsx:25 | the first k of a sorted permutation are no worse than any element left out |
| Text.IsWhite | frontend/src/Pages/Doctors.jsx:55 | defines the white space `trim` strips and `Number` skips: tab, vertical tab, form feed, space separators, byte order mark and the four line terminators |
| Text.IsDotNetWhite | backend/MultiHospital/DTO/DoctorUpdateDto.cs:13 | defines `char.IsWhiteSpace`, which `[Required]` uses: tab to carriage return, next line, space separators and the line and paragraph separators |
| Text.Lower | frontend/src/Pages/Doctors.jsx:55 | `toLowerCase`: same length, each capital lowered, every other character unchanged |
| Text.Trim | frontend/src/Pages/Doctors.jsx:55 | `trim`: no longer than the input, no white space at either end, empty exactly when the input is all white space |
| Text.Split | admin/src/context/AppContext.jsx:21 | `split('_')`: parts without the separator that join back to the input |
| Text.SplitJoin | admin/src/context/AppContext.jsx:21 | splitting the join of separator-free parts gives the parts |
| Text.JsNumber | admin/src/context/AppContext.jsx:22 | `Number` ignores surrounding white space, reads an empty or all-white string as 0 and otherwise reads a decimal literal, NaN for anything else |
| Text.JsNumberDecimal | admin/src/context/AppContext.jsx:22 | `Number` of a written number gives the number |
| Text.DecimalLiteral | admin/src/context/AppContext.jsx:22 | a digit string reads as its value; any literal read is non-negative |
| Text.JsNumberFractions | admin/src/context/AppContext.jsx:22 | "1.5" reads as 1.5 and "01.0" as 1 |
| Text.Decimal | backend/MultiHospital/Services/AuthService.cs:108 | `ToString()` of a natural number: its decimal digits |
| Text.LexTotal | admin/src/pages/Admin/DepartmentList.jsx:84-86 | string comparison is total |
| Text.LexLeTransitive | admin/src/pages/Admin/DepartmentList.jsx:84-86 | string comparison is transitive |

## Left out

- Identity framework internals, password hashing and HS256 token signing (section 3.2 of RFC 7518) are foreign calls. Their verdicts are parameters, and the token is its descriptor.
- The identity store shares the database context in DeleteDoctor and DeletePatient. Its own save could commit the pending removals before a failing clean-up step. The model takes each action's single save as atomic.
- CreateTreatmentRecord saves twice. The state between the two saves, and a failure of the second save, are not modelled; the action is one step.
- Identity values consumed by a failed insert are not modelled: a failed insert leaves the next identity value as it was.
- The project file is not part of this model. Models.ValidRecordRequest treats the non-nullable `Description` of TreatmentRecordPostDto as implicitly `[Required]`, which holds when nullable reference types are enabled; the `= null!` initializers of the entity classes and the `string?` of every optional DTO field show that they are.
- Column-length errors raised by the database at save time, for fields the request validation does not check, are not modelled.
- A null request body, which the framework answers with 400, is not modelled; bodies are always bound.
- Plain CRUD and login wrappers are not modelled: GetAppointments, the Hospital, Department and Admin controllers, AuthController, PostDoctor, CreatePatient, DataSeeder, GetRolesAsync and GetUserRolesAsync. They only pass foreign calls through.
- AuthService's account and row tables are held in the service, as sequences of links. They are not tied to the `Database` class.
- Role names are compared exactly; the identity framework's name normalization is not modelled.
- The Base64 encoding of images and the navigation properties of the JSON replies are left out; the patient list carries each image as its bytes. They do not bear on the ids the clients read.
- Authorization is not modelled: each action is modelled for a caller the framework lets through. The role gates are `[Authorize(Roles = "patient")]` on CreateAppointment, UpdateAppointment, DeleteAppointment, UpdatePatient and DeletePatient, `[Authorize(Roles = "doctor")]` on CreateTreatmentRecord and UpdateDoctor, and `[Authorize(Roles = "admin")]` on DeleteDoctor. The queries and the write UpdateVisibility carry a plain `[Authorize]`, so any signed-in user may change a record's visibility. UpdateAppointmentStatus carries no attribute at all and is open to anonymous callers. The 401 and 403 replies to other callers are not modelled.
- JsonNames.Serialize: replies are modelled as maps, so the key order of a JSON object is not captured.
- Dates and times are whole numbers of one unit. Seconds, time zones and daylight saving are not modelled.
- Booking.GenerateSlots: the locale rendering of each slot's time is not modelled; only the minute is kept.
- AppointmentReason.HandleSubmit: the locale-formatted time is a parameter. The "required" check of the reason field is the browser's.
- Fees are integers; the backend's decimal fees and JavaScript's floating point are not modelled.
- Text.JsNumber: it reads white space around digits with at most one decimal point. JavaScript's signs, exponents, hexadecimal, binary and octal literals and `Infinity` are not modelled; the model reads them as NaN.
- AdminContext.SlotDateFormat: a month written as `+1`, `1e0` or `0x1` prints "Jan" in the source and "Invalid Date" in the model, because Text.JsNumber does not read those forms. Fractional months are modelled.
- Text.Lower: it lowers ASCII capitals only; Unicode case mapping is not modelled. White space is modelled exactly: JavaScript's set for `trim` and `Number`, .NET's for `[Required]`.
- Text.LexLe: it compares character codes. JavaScript compares UTF-16 code units, which agree only within the basic plane.
- DepartmentList.DepartmentList.HandleSortChange: the page's comparator never returns 0, so the library sort's placement of equal hospital names is not determined. The model proves sortedness and permutation only, not stability or a particular order among equals.
- Dashboard.LatestAppointments: the order among bookings with equal dates is likewise not stated.
- AppointmentApi.AppointmentController.GetAppointmentsByDoctorId, AppointmentApi.AppointmentController.GetAppointmentsByPatientId, TreatmentRecordsApi.TreatmentRecordsController.GetVisibleTreatmentRecordsForPatient, PatientApi.PatientController.GetAllPatients: results are maps by key, so the order of the reply list is not captured.
- Models.EmailAddressOk: the attribute's rejection of line breaks and other details is not modelled; only the single inner `@` is.
- Dashboard.Count: a `null` list and any non-array value give 0; the page's wait until all three lists are truthy is not modelled.
- AdminContext.CancelAppointment: it compares the `id` field as the code does. The entries the context fetches carry `appointmentID` and no `id`, so the source's cancellation removes nothing; AdminContext.FetchedAppointmentsAreKept proves this. No admin page calls it.
- AdminContext.ChangeAvailability: it compares the `id` field as the code does. That the admin's doctor objects carry `doctorID` rather than `id` is not modelled.
- Database.Linked: the database cascade from a deleted doctor or patient can remove a record while its appointment keeps the record's id. The link therefore only constrains ids that name a stored record.
- The mock contexts `admin/src/context/AdminContext.jsx` and `admin/src/context/DoctorContext.jsx` hold hard-coded data and are not part of this model.
- Network calls, the payment popup, local storage, JWT decoding in the browser, rendering, routing and toasts are not modelled. Their outcomes are parameters.

## Findings

| source | as written | input that shows it | evidently intended | confidence | as-written member | corrected member |
|---|---|---|---|---|---|---|
| admin/src/pages/Doctor/TreatmentRecordForm.jsx:59-61 | The form reads the record id as `data.TreatmentRecordID`, at lines 59, 115 and 121. The backend's camel-case serializer writes it as `treatmentRecordID`. | Any created record, for example id 1. The post's check at line 115 throws, so the record page never opens and the doctor sees "Submitted". A record already filed is not detected at line 59. | Read `data.treatmentRecordID`. | not executed | TreatmentRecordForm.AsWrittenFormMissesRecord | TreatmentRecordForm.CorrectedFormFindsRecord |
