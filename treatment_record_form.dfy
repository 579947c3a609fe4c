/** The doctor's treatment-record form in the admin client
    (`TreatmentRecordForm`): loading the appointment and checking for a
    record already filed, and the submission with its guards. The replies it
    reads are the backend's JSON objects, whose property names are camel
    case. */
module TreatmentRecordForm {
  import opened Common
  import opened Text
  import opened Models
  import opened JsonNames
  import opened Database
  import opened TreatmentRecordsApi

  /** The name under which the backend writes a record's id (the camel
      case of the property, "treatmentRecordID"), and the name the form's
      code reads it by. */
  const RecordIdKey: string := CamelCase("TreatmentRecordID")
  const AsWrittenRecordIdKey: string := "TreatmentRecordID"

  /** The body of a successful `POST api/treatmentrecords`: the stored row,
      with the reference id the serializer adds; the navigation properties,
      which do not bear on the id, are left out. Dates are written as
      numbers. */
  function CreatedRecordJson(id: int, t: TreatmentRecord): (o: JsonObject)
    ensures forall k :: k in o ==> k != [] && !IsUpper(k[0])
    ensures RecordIdKey in o && o[RecordIdKey] == Num(id)
  {
    var props := [
      ("TreatmentRecordID", Num(id)),
      ("PatientID", Num(t.patientId)),
      ("DoctorID", Num(t.doctorId)),
      ("AppointmentID", Num(t.appointmentId)),
      ("TreatmentDate", Num(t.treatmentDate)),
      ("Description", Str(t.description)),
      ("CreatedAt", Num(t.createdAt)),
      ("UpdatedAt", Num(t.updatedAt)),
      ("IsVisibleToPatient", Flag(t.visibleToPatient))];
    assert forall j :: 0 < j < |props| ==> |CamelCase(props[j].0)| != |CamelCase(props[0].0)|;
    SerializedValue(props, 0);
    Serialize(props)
  }

  /** The body of `GET api/treatmentrecords/appointment/{id}`. */
  function RecordViewJson(v: RecordView): (o: JsonObject)
    ensures forall k :: k in o ==> k != [] && !IsUpper(k[0])
    ensures RecordIdKey in o && o[RecordIdKey] == Num(v.id)
  {
    var props := [
      ("TreatmentRecordID", Num(v.id)),
      ("PatientName", Str(v.patientName)),
      ("DoctorName", Str(v.doctorName)),
      ("AppointmentID", Num(v.appointmentId)),
      ("TreatmentDate", Num(v.treatmentDate)),
      ("Description", Str(v.description)),
      ("IsVisibleToPatient", Flag(v.visibleToPatient)),
      ("CreatedAt", Num(v.createdAt)),
      ("UpdatedAt", Num(v.updatedAt))];
    assert forall j :: 0 < j < |props| ==> |CamelCase(props[j].0)| != |CamelCase(props[0].0)|;
    SerializedValue(props, 0);
    Serialize(props)
  }

  /** The body the form posts. */
  datatype Payload = Payload(patientId: Field, doctorId: Field, treatmentDate: Option<int>,
                             description: string, appointmentId: string)

  /** The answer to the post: a 2xx reply with its body, an error status,
      or no reply at all. */
  datatype PostReply = Created(body: JsonObject) | HttpError(status: int) | NoReply

  /** How a submission ends. */
  datatype SubmitOutcome =
    | WarnAlreadySubmitted
    | RejectFutureDate
    | MissingToken
    | OpenRecordPage(recordId: Field, payload: Payload)
    | ReportSubmitted(payload: Payload)
    | WarnDuplicate(payload: Payload)

  /** Whether a submission got as far as posting. */
  predicate Posted(o: SubmitOutcome) {
    o.OpenRecordPage? || o.ReportSubmitted? || o.WarnDuplicate?
  }

  /** What the form makes of the answer to its post when it reads the new
      record's id under `idKey`: a body without that id throws inside the
      handler and ends, like any failure other than a 500, in the
      "Submitted" message; a 500 is taken for a record already filed. */
  function PostOutcome(reply: PostReply, payload: Payload, idKey: string): (o: SubmitOutcome)
    ensures Posted(o) && o.payload == payload
    ensures o.OpenRecordPage? <==> reply.Created? && TruthyField(reply.body, idKey)
    ensures o.OpenRecordPage? ==> o.recordId == reply.body[idKey]
    ensures o.WarnDuplicate? <==> reply == HttpError(500)
  {
    match reply
    case Created(body) => if TruthyField(body, idKey) then OpenRecordPage(body[idKey], payload) else ReportSubmitted(payload)
    case HttpError(status) => if status == 500 then WarnDuplicate(payload) else ReportSubmitted(payload)
    case NoReply => ReportSubmitted(payload)
  }

  /** As written, the form reads the id under a capitalized name the backend
      never writes: a record that was just created is reported with the
      plain "Submitted" message and its page is never opened, and a record
      already filed is not detected. Read under its camel-case name, the
      id is found. */
  lemma AsWrittenMissesRecordId(id: int, t: TreatmentRecord, v: RecordView, payload: Payload)
    requires id != 0 && v.id != 0
    ensures PostOutcome(Created(CreatedRecordJson(id, t)), payload, AsWrittenRecordIdKey) == ReportSubmitted(payload)
    ensures !TruthyField(RecordViewJson(v), AsWrittenRecordIdKey)
    ensures PostOutcome(Created(CreatedRecordJson(id, t)), payload, RecordIdKey) == OpenRecordPage(Num(id), payload)
    ensures TruthyField(RecordViewJson(v), RecordIdKey)
  {
    assert IsUpper(AsWrittenRecordIdKey[0]);
    assert AsWrittenRecordIdKey !in CreatedRecordJson(id, t);
    assert AsWrittenRecordIdKey !in RecordViewJson(v);
  }

  /** A record the backend holds for an appointment is detected by the
      form's lookup, since its key, like every record key, is positive. */
  lemma FiledRecordIsDetected(c: TreatmentRecordsController, appointmentId: int)
    requires c.db.Valid()
    requires c.GetTreatmentRecordByAppointmentId(appointmentId).Ok?
    ensures TruthyField(RecordViewJson(c.GetTreatmentRecordByAppointmentId(appointmentId).value), RecordIdKey)
  {
    var r := c.GetTreatmentRecordByAppointmentId(appointmentId);
    assert r.value.id in RecordsOf(c.db.records, appointmentId);
  }

  /** The form's state between renders. `idKey` is the name under which the
      form reads a record's id from the backend's replies: the code as
      written uses AsWrittenRecordIdKey, the corrected form RecordIdKey. */
  class RecordForm {
    const idKey: string
    var patientId: Field
    var patientName: Field
    var doctorId: Field
    var loading: bool
    var alreadySubmitted: bool

    constructor (idKey: string)
      ensures this.idKey == idKey
      ensures patientId == Str([]) && patientName == Str([]) && doctorId == Str([])
      ensures !loading && !alreadySubmitted
    {
      this.idKey := idKey;
      patientId, patientName, doctorId := Str([]), Str([]), Str([]);
      loading, alreadySubmitted := false, false;
    }

    /** The doctor's id from the sign-in token's `userSpecificId`, kept only
        when truthy. */
    method LoadDoctorId(userSpecificId: Option<string>)
      modifies this
      ensures doctorId == if Truthy(userSpecificId) then Str(userSpecificId.value) else old(doctorId)
      ensures patientId == old(patientId) && patientName == old(patientName)
      ensures loading == old(loading) && alreadySubmitted == old(alreadySubmitted)
    {
      if Truthy(userSpecificId) {
        doctorId := Str(userSpecificId.value);
      }
    }

    /** `fetchAppointmentDetails`: without a token nothing happens; the
        appointment's patient id and name are kept when truthy; then the
        record lookup by appointment marks the form already submitted when
        its reply carries an id. A request that fails (None) ends the step. */
    method LoadAppointment(token: Option<string>, appointment: Option<JsonObject>, existing: Option<JsonObject>)
      modifies this
      ensures !Truthy(token) || appointment.None? ==> unchanged(this)
      ensures Truthy(token) && appointment.Some? ==>
                && patientId == (if TruthyField(appointment.value, "patientID") then appointment.value["patientID"] else old(patientId))
                && patientName == (if TruthyField(appointment.value, "patientName") then appointment.value["patientName"] else old(patientName))
                && alreadySubmitted == (old(alreadySubmitted) || (existing.Some? && TruthyField(existing.value, idKey)))
      ensures doctorId == old(doctorId) && loading == old(loading)
    {
      if !Truthy(token) || appointment.None? {
        return;
      }
      var body := appointment.value;
      if TruthyField(body, "patientID") {
        patientId := body["patientID"];
      }
      if TruthyField(body, "patientName") {
        patientName := body["patientName"];
      }
      if existing.Some? && TruthyField(existing.value, idKey) {
        alreadySubmitted := true;
      }
    }

    /** `handleSubmit`: a form already submitted posts nothing, nor does a
        treatment date later than now (a date that does not parse compares
        as not later) or a missing token; otherwise the payload is posted and
        a 500 marks the form already submitted. Loading is over at the end. */
    method HandleSubmit(treatmentDate: Option<int>, description: string, appointmentId: string,
                        now: int, token: Option<string>, reply: PostReply) returns (o: SubmitOutcome)
      modifies this
      ensures !loading
      ensures old(alreadySubmitted) ==> o == WarnAlreadySubmitted
      ensures !old(alreadySubmitted) && treatmentDate.Some? && treatmentDate.value > now ==> o == RejectFutureDate
      ensures !old(alreadySubmitted) && !(treatmentDate.Some? && treatmentDate.value > now) && !Truthy(token) ==> o == MissingToken
      ensures !old(alreadySubmitted) && !(treatmentDate.Some? && treatmentDate.value > now) && Truthy(token) ==>
                o == PostOutcome(reply, Payload(old(patientId), old(doctorId), treatmentDate, description, appointmentId), idKey)
      ensures alreadySubmitted <==> old(alreadySubmitted) || o.WarnDuplicate?
      ensures patientId == old(patientId) && patientName == old(patientName) && doctorId == old(doctorId)
    {
      loading := true;
      if alreadySubmitted {
        loading := false;
        return WarnAlreadySubmitted;
      }
      if treatmentDate.Some? && treatmentDate.value > now {
        loading := false;
        return RejectFutureDate;
      }
      if !Truthy(token) {
        loading := false;
        return MissingToken;
      }
      var payload := Payload(patientId, doctorId, treatmentDate, description, appointmentId);
      o := PostOutcome(reply, payload, idKey);
      if o.WarnDuplicate? {
        alreadySubmitted := true;
      }
      loading := false;
    }
  }

  /** The form as written, on an appointment whose record is already filed
      and on a post the backend accepts: the lookup's reply does not mark it
      submitted, and the created record's page is not opened. The post is one
      the page can make: the doctor's and the patient's ids are loaded, and
      the description and the date that the form's inputs require are filled
      in, the date not after now. */
  method AsWrittenFormMissesRecord(v: RecordView, id: int, t: TreatmentRecord) returns (submitted: bool, o: SubmitOutcome)
    requires v.id != 0 && id != 0
    ensures !submitted
    ensures o == ReportSubmitted(Payload(Num(7), Str("3"), Some(0), "Checked", "1"))
  {
    var payload := Payload(Num(7), Str("3"), Some(0), "Checked", "1");
    var existing, created := RecordViewJson(v), Created(CreatedRecordJson(id, t));
    AsWrittenMissesRecordId(id, t, v, payload);
    var token := Some("token");
    assert Truthy(token);
    var f := new RecordForm(AsWrittenRecordIdKey);
    f.LoadAppointment(token, Some(map[]), Some(existing));
    submitted := f.alreadySubmitted;
    var g := new RecordForm(AsWrittenRecordIdKey);
    o := SubmitFilledForm(g, token, created);
  }

  /** The corrected form on the same replies: the filed record marks it
      submitted, and the created record's page is opened. */
  method CorrectedFormFindsRecord(v: RecordView, id: int, t: TreatmentRecord) returns (submitted: bool, o: SubmitOutcome)
    requires v.id != 0 && id != 0
    ensures submitted
    ensures o == OpenRecordPage(Num(id), Payload(Num(7), Str("3"), Some(0), "Checked", "1"))
  {
    var payload := Payload(Num(7), Str("3"), Some(0), "Checked", "1");
    var existing, created := RecordViewJson(v), Created(CreatedRecordJson(id, t));
    AsWrittenMissesRecordId(id, t, v, payload);
    var token := Some("token");
    assert Truthy(token);
    var f := new RecordForm(RecordIdKey);
    f.LoadAppointment(token, Some(map[]), Some(existing));
    submitted := f.alreadySubmitted;
    var g := new RecordForm(RecordIdKey);
    o := SubmitFilledForm(g, token, created);
  }

  /** A fresh form for appointment "1" of patient 7, signed in as doctor 3,
      that submits the description "Checked" dated at now, 0. */
  method SubmitFilledForm(g: RecordForm, token: Option<string>, reply: PostReply) returns (o: SubmitOutcome)
    requires Truthy(token)
    requires g.patientId == Str([]) && g.doctorId == Str([]) && !g.alreadySubmitted
    modifies g
    ensures o == PostOutcome(reply, Payload(Num(7), Str("3"), Some(0), "Checked", "1"), g.idKey)
  {
    g.LoadDoctorId(Some("3"));
    var appointment: JsonObject := map["patientID" := Num(7)];
    assert TruthyField(appointment, "patientID");
    g.LoadAppointment(token, Some(appointment), None);
    o := g.HandleSubmit(Some(0), "Checked", "1", 0, token, reply);
  }
}
