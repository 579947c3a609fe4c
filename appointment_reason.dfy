/** The patient client's reason page (`AppointmentReason`): the check made
    when the page opens and the submission of the booking with its reason. */
module AppointmentReason {
  import opened Common
  import opened Models
  import opened Booking

  /** What the page does when it opens: its effect sends a visitor without
      a token to the login page and reloads the page when the user id is
      still `null`; otherwise it renders the loading text, the "User not
      found" text, or the reason form. */
  datatype PageAction = RedirectToLogin | ReloadPage | ShowLoading | UserNotFound | ShowForm

  /** The opening check and the render after it: without a stored token the
      patient is sent to the login page; with one, a user id that is still
      `null` once loading is over makes the page reload (the strict
      `=== null` lets `undefined` through). Otherwise the page shows the
      loading text while loading, the "User not found" text for a falsy user
      id, and the form only for a truthy one. */
  function OnOpen(token: Option<string>, userId: UserId, loading: bool): (a: PageAction)
    ensures a == RedirectToLogin <==> !Truthy(token)
    ensures a == ReloadPage <==> Truthy(token) && userId == NullId && !loading
    ensures a == ShowLoading <==> Truthy(token) && loading
    ensures a == UserNotFound <==> Truthy(token) && !loading && !TruthyId(userId) && userId != NullId
    ensures a == ShowForm <==> Truthy(token) && !loading && TruthyId(userId)
  {
    if !Truthy(token) then RedirectToLogin
    else if userId == NullId && !loading then ReloadPage
    else if loading then ShowLoading
    else if !TruthyId(userId) then UserNotFound
    else ShowForm
  }

  /** What the check promises about the form behind it: the page never
      reloads while the user is loading; a token without the
      `userSpecificId` claim, which the backend issues for an account with
      no patient, doctor or admin row, leaves the id `undefined`, so the
      page neither reloads nor shows the form but says the user was not
      found; and a reason submitted from a shown form is neither held back
      for loading nor refused for its user, only for missing booking
      details. */
  lemma OnOpenPromises(token: Option<string>, userId: UserId, loading: bool, state: Option<BookingState>,
                       formattedTime: string, reason: string, postSucceeded: bool)
    ensures loading ==> OnOpen(token, userId, loading) != ReloadPage
    ensures Truthy(token) && !loading ==> OnOpen(token, UndefinedId, loading) == UserNotFound
    ensures OnOpen(token, userId, loading) == ShowForm && reason != [] ==>
              var o := HandleSubmit(loading, userId, state, formattedTime, reason, postSucceeded);
              && o != WaitForUser
              && (o == MissingDetails <==>
                    (|| state.None? || state.value.doctorId == []
                     || state.value.appointmentDate.None? || state.value.appointmentTime == []))
  {
  }

  /** The body posted to `api/appointment`. */
  datatype Payload = Payload(
    patientId: string,
    doctorId: string,
    appointmentDate: Slot,
    appointmentTime: string,
    reason: string,
    status: int)

  /** How a submission ends. The browser does not submit the form while the
      required reason is empty; `Failed` and `Booked` carry what was posted,
      and only `Booked` goes on to the success page. */
  datatype SubmitOutcome = ReasonRequired | WaitForUser | MissingDetails | Failed(payload: Payload) | Booked(payload: Payload)

  /** `handleSubmit`, behind the browser's check of the required reason:
      nothing is posted while the user is loading or when the user id, the
      doctor, the date or the time is missing; otherwise the booking is
      posted as Scheduled with the reason, and the page moves on only when
      the post succeeds. `formattedTime` is the time as the browser's
      locale rewrites it, and `postSucceeded` the outcome of the post. */
  function HandleSubmit(loading: bool, userId: UserId, state: Option<BookingState>,
                        formattedTime: string, reason: string, postSucceeded: bool): (o: SubmitOutcome)
    ensures reason == [] ==> o == ReasonRequired
    ensures reason != [] && loading ==> o == WaitForUser
    ensures reason != [] && !loading ==>
              (o == MissingDetails <==>
                 (|| !TruthyId(userId) || state.None? || state.value.doctorId == []
                  || state.value.appointmentDate.None? || state.value.appointmentTime == []))
    ensures o.Failed? || o.Booked? ==>
              && reason != [] && !loading && state.Some? && state.value.appointmentDate.Some?
              && o.payload == Payload(userId.value, state.value.doctorId, state.value.appointmentDate.value,
                                      formattedTime, reason, Scheduled)
    ensures o.Booked? <==> (o.Failed? || o.Booked?) && postSucceeded
  {
    if reason == [] then ReasonRequired
    else if loading then WaitForUser
    else if !TruthyId(userId) || state.None? || state.value.doctorId == []
            || state.value.appointmentDate.None? || state.value.appointmentTime == [] then MissingDetails
    else
      var s := state.value;
      var payload := Payload(userId.value, s.doctorId, s.appointmentDate.value, formattedTime, reason, Scheduled);
      if postSucceeded then Booked(payload) else Failed(payload)
  }

  /** A booking made on a generated day with a chosen time reaches the post
      with that day's first slot as its date and a status the appointment
      endpoint accepts; the endpoint's validation then refuses it exactly
      when the reason is longer than 255 characters. */
  lemma BookingReachesPost(slots: seq<seq<Slot>>, i: int, docId: string, userId: UserId,
                           slotTime: string, formattedTime: string, reason: string, postSucceeded: bool,
                           patientKey: int, doctorKey: int, date: int, time: int)
    requires 0 <= i < |slots| && slots[i] != []
    requires docId != [] && slotTime != [] && reason != [] && TruthyId(userId)
    ensures var o := HandleSubmit(false, userId, Some(HandleBookAppointment(slots, i, docId, userId, slotTime)),
                                  formattedTime, reason, postSucceeded);
            && (o.Failed? || o.Booked?)
            && o.payload.appointmentDate == slots[i][0]
            && IsDefinedStatus(o.payload.status)
            && (ValidAppointmentRequest(AppointmentRequest(patientKey, doctorKey, date, time,
                                                             Some(o.payload.reason), Some(o.payload.status)))
                <==> |reason| <= 255)
  {
  }
}
