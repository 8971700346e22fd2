/** The creation form: its own pre-validation chain (a different order and
    different messages from the edge function), the payload it submits, and
    the field updates of submit and close. `handleSubmit` awaits
    `onSubmit`, so it is split at that point into a start and an end step;
    between them `submitting` is true. */
module NoteForm {
  import opened Types
  import opened Text
  import EdgeValidator
  import SessionNotes

  const MaxNotesLength := 500
  const DefaultDuration := 60
  const MinDuration := 15
  const MaxDuration := 120

  const MsgNameRequired := "Client name is required"
  const MsgDateRequired := "Session date is required"
  const MsgNotesRequired := "Quick notes are required"
  const MsgNotesTooLong := "Notes cannot exceed 500 characters"
  const MsgDurationRange := "Session duration must be between 15 and 120 minutes"
  const MsgCreateFailed := "Failed to create note"
  /** What `toISOString` throws for an invalid date. */
  const MsgInvalidTime := "Invalid time value"

  /** The picker's date: a valid date, standing for the `YYYY-MM-DD` text
      `toISOString().split('T')[0]` gives for it, or an invalid one. */
  datatype PickedDate = ValidDate(isoDay: string) | InvalidDate

  /** The form's checks in their order; the first failure's message, or
      `None` when all pass. */
  function PreValidate(name: string, date: Option<PickedDate>, notes: string, duration: int): (r: Option<string>)
    ensures r.Some? ==> r.value in [MsgNameRequired, MsgDateRequired, MsgNotesRequired,
                                    MsgNotesTooLong, MsgDurationRange]
    ensures r.None? ==> date.Some? && 0 < |notes| <= MaxNotesLength && MinDuration <= duration <= MaxDuration
  {
    if Trim(name) == [] then Some(MsgNameRequired)
    else if date.None? then Some(MsgDateRequired)
    else if Trim(notes) == [] then Some(MsgNotesRequired)
    else if |notes| > MaxNotesLength then Some(MsgNotesTooLong)
    else if duration < MinDuration || duration > MaxDuration then Some(MsgDurationRange)
    else None
  }

  /** The checks run name, date, notes, notes length, duration — the first
      failing one is reported, duration last and with one message for both
      bounds — and all pass exactly when every field is well-formed. */
  lemma PreValidationOrder(name: string, date: Option<PickedDate>, notes: string, duration: int)
    ensures var r := PreValidate(name, date, notes, duration);
      && (IsBlank(name) ==> r == Some(MsgNameRequired))
      && (!IsBlank(name) && date.None? ==> r == Some(MsgDateRequired))
      && (!IsBlank(name) && date.Some? && IsBlank(notes) ==> r == Some(MsgNotesRequired))
      && (!IsBlank(name) && date.Some? && !IsBlank(notes) && |notes| > MaxNotesLength ==>
            r == Some(MsgNotesTooLong))
      && ((&& !IsBlank(name) && date.Some? && !IsBlank(notes) && |notes| <= MaxNotesLength
           && (duration < MinDuration || duration > MaxDuration)) ==> r == Some(MsgDurationRange))
      && (r == None <==>
            (&& !IsBlank(name) && date.Some? && !IsBlank(notes)
             && |notes| <= MaxNotesLength && MinDuration <= duration <= MaxDuration))
  {
    TrimEmptyIffBlank(name);
    TrimEmptyIffBlank(notes);
  }

  /** The note handed to `onSubmit`: name and notes trimmed, duration as
      typed. */
  function BuildPayload(name: string, isoDay: string, notes: string, duration: int): (p: CreateSessionNoteInput)
    ensures p.client_name == Trim(name) && p.quick_notes == Trim(notes)
    ensures p.session_date == isoDay && p.session_duration == duration
  {
    CreateSessionNoteInput(Trim(name), isoDay, Trim(notes), duration)
  }

  /** A payload from a form that passed its checks also passes the edge
      function's duration, name and notes rules (trimming keeps a non-blank
      text non-blank and never lengthens it); with a non-empty date it is
      accepted outright. */
  lemma PassedFormPassesEdge(name: string, isoDay: string, notes: string, duration: int)
    requires PreValidate(name, Some(ValidDate(isoDay)), notes, duration) == None
    ensures var p := BuildPayload(name, isoDay, notes, duration);
      && EdgeValidator.MinDuration <= p.session_duration <= EdgeValidator.MaxDuration
      && !IsBlank(p.client_name)
      && !IsBlank(p.quick_notes) && 0 < |p.quick_notes| <= EdgeValidator.MaxNotesLength
      && (isoDay != "" ==> EdgeValidator.Validate(SessionNotes.RequestOf(p)).body.valid)
      && (isoDay == "" ==> EdgeValidator.Validate(SessionNotes.RequestOf(p)).body.error
                             == Some(EdgeValidator.MsgDateRequired))
  {
    var p := BuildPayload(name, isoDay, notes, duration);
    TrimIdempotent(name);
    TrimIdempotent(notes);
    TrimEmptyIffBlank(p.client_name);
    TrimEmptyIffBlank(p.quick_notes);
    EdgeValidator.AcceptedIffAcceptable(SessionNotes.RequestOf(p));
  }

  /** `remainingChars`: the characters left before the notes limit. */
  function RemainingChars(notes: string): (r: int)
    ensures r >= 0 <==> |notes| <= MaxNotesLength
    ensures r < 0 ==> forall name, date, d :: PreValidate(name, date, notes, d).Some?
  {
    MaxNotesLength - |notes|
  }

  class SessionNoteForm {
    var clientName: string
    var sessionDate: Option<PickedDate>
    var quickNotes: string
    var sessionDuration: int
    var submitting: bool
    var error: Option<string>

    /** Empty fields, today's date, 60 minutes, no error. */
    constructor (today: PickedDate)
      ensures clientName == "" && sessionDate == Some(today) && quickNotes == ""
      ensures sessionDuration == DefaultDuration && !submitting && error == None
    {
      clientName := "";
      sessionDate := Some(today);
      quickNotes := "";
      sessionDuration := DefaultDuration;
      submitting := false;
      error := None;
    }

    /** The first half of `handleSubmit`. A failed check sets its message
        and submits nothing. Otherwise `submitting` becomes true, the error
        is cleared and the trimmed payload is submitted — unless the date is
        invalid, whose formatting throws before `onSubmit` is called. No
        field is edited. */
    method BeginSubmit() returns (submitted: Option<CreateSessionNoteInput>)
      modifies this
      ensures clientName == old(clientName) && sessionDate == old(sessionDate)
      ensures quickNotes == old(quickNotes) && sessionDuration == old(sessionDuration)
      ensures var check := PreValidate(old(clientName), old(sessionDate), old(quickNotes), old(sessionDuration));
        && (check.Some? ==> submitted == None && error == check && submitting == old(submitting))
        && (check.None? && old(sessionDate) == Some(InvalidDate) ==>
              submitted == None && error == Some(MsgInvalidTime) && !submitting)
        && (check.None? && old(sessionDate).value.ValidDate? ==>
              && submitted == Some(BuildPayload(old(clientName), old(sessionDate).value.isoDay,
                                                old(quickNotes), old(sessionDuration)))
              && error == None && submitting)
    {
      var check := PreValidate(clientName, sessionDate, quickNotes, sessionDuration);
      if check.Some? {
        error := check;
        return None;
      }
      submitting := true;
      error := None;
      match sessionDate.value {
        case InvalidDate =>
          error := Some(Describe(ErrorInstance(MsgInvalidTime), MsgCreateFailed));
          submitting := false;
          submitted := None;
        case ValidDate(isoDay) =>
          submitted := Some(BuildPayload(clientName, isoDay, quickNotes, sessionDuration));
      }
    }

    /** The second half, once `onSubmit` has settled: success resets the
        fields to empty, today and 60 and closes the form; failure keeps the
        fields and shows the failure. `submitting` ends false either way. */
    method FinishSubmit(outcome: Completion, today: PickedDate) returns (closed: bool)
      requires submitting
      modifies this
      ensures !submitting
      ensures closed == outcome.Done?
      ensures outcome.Done? ==>
        && clientName == "" && sessionDate == Some(today) && quickNotes == ""
        && sessionDuration == DefaultDuration && error == old(error)
      ensures outcome.Threw? ==>
        && clientName == old(clientName) && sessionDate == old(sessionDate)
        && quickNotes == old(quickNotes) && sessionDuration == old(sessionDuration)
        && error == Some(Describe(outcome.failure, MsgCreateFailed))
    {
      match outcome {
        case Done =>
          clientName := "";
          sessionDate := Some(today);
          quickNotes := "";
          sessionDuration := DefaultDuration;
          closed := true;
        case Threw(f) =>
          error := Some(Describe(f, MsgCreateFailed));
          closed := false;
      }
      submitting := false;
    }

    /** `handleSubmit` as one step: both halves, the second only when
        something was submitted. Closing happens only after a successful
        submission. */
    method HandleSubmit(outcome: Completion, today: PickedDate)
      returns (submitted: Option<CreateSessionNoteInput>, closed: bool)
      modifies this
      ensures var check := PreValidate(old(clientName), old(sessionDate), old(quickNotes), old(sessionDuration));
        && (submitted.Some? <==> check.None? && old(sessionDate).value.ValidDate?)
        && (submitted.Some? ==> submitted.value == BuildPayload(old(clientName), old(sessionDate).value.isoDay,
                                                                old(quickNotes), old(sessionDuration)))
        && (check.Some? ==> error == check && submitting == old(submitting))
      ensures closed <==> submitted.Some? && outcome.Done?
      ensures var check := PreValidate(old(clientName), old(sessionDate), old(quickNotes), old(sessionDuration));
        && (check.None? ==> !submitting)
        && (check.None? && old(sessionDate) == Some(InvalidDate) ==> error == Some(MsgInvalidTime))
      ensures closed ==>
        && clientName == "" && sessionDate == Some(today) && quickNotes == ""
        && sessionDuration == DefaultDuration && error == None
      ensures !closed ==>
        && clientName == old(clientName) && sessionDate == old(sessionDate)
        && quickNotes == old(quickNotes) && sessionDuration == old(sessionDuration)
      ensures submitted.Some? && outcome.Threw? ==> error == Some(Describe(outcome.failure, MsgCreateFailed))
    {
      submitted := BeginSubmit();
      closed := false;
      if submitted.Some? {
        closed := FinishSubmit(outcome, today);
      }
    }

    /** `handleClose`: ignored while submitting; otherwise clear the error
        and close. */
    method HandleClose() returns (closed: bool)
      modifies this
      ensures closed == !old(submitting)
      ensures error == (if old(submitting) then old(error) else None)
      ensures clientName == old(clientName) && sessionDate == old(sessionDate)
      ensures quickNotes == old(quickNotes) && sessionDuration == old(sessionDuration)
      ensures submitting == old(submitting)
    {
      closed := false;
      if !submitting {
        error := None;
        closed := true;
      }
    }
  }
}
