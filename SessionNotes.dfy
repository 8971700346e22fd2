/** The note store client (`useSessionNotes`): the local fallback validator,
    the remote-then-fallback validation policy, and the three state cells
    `notes`, `loading` and `error` that fetch, create and delete update. The
    database and the edge function are collaborators: each call to them is a
    parameter holding how that call settled. */
module SessionNotes {
  import opened Types
  import opened Text
  import EdgeValidator

  const MsgTooShort := "Session duration must be at least 15 minutes"
  const MsgTooLong := "Session duration cannot exceed 120 minutes"
  const MsgValidationFailed := "Validation failed"
  const MsgFetchFailed := "Failed to fetch notes"
  const MsgCreateFailed := "Failed to create note"
  const MsgDeleteFailed := "Failed to delete note"

  // ---------------------------------------------------------------------
  // Validation

  /** The reduced local validator: duration bounds only. */
  function ClientSideValidation(note: CreateSessionNoteInput): (r: ValidationResponse)
    ensures r.error.Some? <==> !r.valid
  {
    if note.session_duration < EdgeValidator.MinDuration then ValidationResponse(false, Some(MsgTooShort))
    else if note.session_duration > EdgeValidator.MaxDuration then ValidationResponse(false, Some(MsgTooLong))
    else ValidationResponse(true, None)
  }

  /** The fallback is exactly the duration check: it accepts iff the
      duration is within [15, 120], names the violated bound otherwise, and
      its answer depends on no other field. */
  lemma FallbackIsDurationOnly(note: CreateSessionNoteInput, other: CreateSessionNoteInput)
    ensures ClientSideValidation(note).valid
        <==> EdgeValidator.MinDuration <= note.session_duration <= EdgeValidator.MaxDuration
    ensures note.session_duration < EdgeValidator.MinDuration ==>
      ClientSideValidation(note).error == Some(MsgTooShort)
    ensures note.session_duration > EdgeValidator.MaxDuration ==>
      ClientSideValidation(note).error == Some(MsgTooLong)
    ensures other.session_duration == note.session_duration ==>
      ClientSideValidation(other) == ClientSideValidation(note)
  {
  }

  /** The JSON body `functions.invoke` sends for a typed note. */
  function RequestOf(note: CreateSessionNoteInput): (req: EdgeValidator.Request)
    ensures req.Body?
    ensures req.client_name == EdgeValidator.Str(note.client_name)
    ensures req.quick_notes == EdgeValidator.Str(note.quick_notes)
    ensures req.session_duration == EdgeValidator.Number(note.session_duration)
    ensures EdgeValidator.Truthy(req.session_date) <==> note.session_date != ""
  {
    EdgeValidator.Body(EdgeValidator.Str(note.client_name), EdgeValidator.Str(note.session_date),
                       EdgeValidator.Str(note.quick_notes), EdgeValidator.Number(note.session_duration))
  }

  /** The fallback is a subset of the authoritative rules: what the edge
      function accepts the fallback accepts, both reject the same
      durations, and they agree word for word on the minimum but not on the
      maximum (the fallback drops " (2 hours)"). */
  lemma FallbackAgreesWithEdgeOnDuration(note: CreateSessionNoteInput)
    ensures EdgeValidator.Validate(RequestOf(note)).body.valid ==> ClientSideValidation(note).valid
    ensures note.session_duration < EdgeValidator.MinDuration ==>
      EdgeValidator.Validate(RequestOf(note)).body == ClientSideValidation(note)
    ensures note.session_duration > EdgeValidator.MaxDuration ==>
      && EdgeValidator.Validate(RequestOf(note)).body
           == ValidationResponse(false, Some(EdgeValidator.MsgTooLong))
      && ClientSideValidation(note) == ValidationResponse(false, Some(MsgTooLong))
      && EdgeValidator.Validate(RequestOf(note)).body.error != ClientSideValidation(note).error
  {
  }

  /** How `supabase.functions.invoke` settled: with the function's data,
      with a function error (the library reports a non-2xx answer or an
      unreachable function this way), or by throwing. */
  datatype InvokeResult = Invoked(data: ValidationResponse) | FunctionError(failure: Failure) | InvokeThrew(failure: Failure)

  /** What the client library makes of an edge function answer. */
  function InvokeOf(resp: EdgeValidator.Response): (result: InvokeResult)
    ensures result.Invoked? <==> 200 <= resp.status < 300
    ensures result.Invoked? ==> result.data == resp.body
  {
    if 200 <= resp.status < 300 then Invoked(resp.body)
    else FunctionError(ErrorInstance("Edge Function returned a non-2xx status code"))
  }

  /** `validateNote`: the remote answer when there is one, otherwise the
      local fallback. */
  function ValidateNote(note: CreateSessionNoteInput, remote: InvokeResult): (r: ValidationResponse)
    ensures remote.Invoked? ==> r == remote.data
    ensures !remote.Invoked? ==> r == ClientSideValidation(note)
  {
    match remote
    case Invoked(data) => data
    case FunctionError(_) => ClientSideValidation(note)
    case InvokeThrew(_) => ClientSideValidation(note)
  }

  /** On the degraded path (function error or exception) only the duration
      decides, so a duration of 10 is still rejected and an in-range
      duration is accepted whatever the other fields hold. */
  lemma DegradedValidationDecidesOnDuration(note: CreateSessionNoteInput, remote: InvokeResult)
    requires !remote.Invoked?
    ensures ValidateNote(note, remote).valid
        <==> EdgeValidator.MinDuration <= note.session_duration <= EdgeValidator.MaxDuration
  {
  }

  /** When the edge function is reachable, a typed note never gets the 400
      answer, so `validateNote` returns the authoritative verdict: accepted
      exactly when every field is well-formed. */
  lemma ReachableEdgeIsAuthoritative(note: CreateSessionNoteInput)
    ensures ValidateNote(note, InvokeOf(EdgeValidator.Validate(RequestOf(note))))
         == EdgeValidator.Validate(RequestOf(note)).body
    ensures ValidateNote(note, InvokeOf(EdgeValidator.Validate(RequestOf(note)))).valid
        <==> EdgeValidator.Acceptable(RequestOf(note))
  {
    EdgeValidator.BadRequestOnlyForShapeErrors(RequestOf(note));
    EdgeValidator.AcceptedIffAcceptable(RequestOf(note));
  }

  /** `validation.error || 'Validation failed'`. */
  function RejectionMessage(v: ValidationResponse): (m: string)
    ensures m != ""
    ensures v.error.Some? && v.error.value != "" ==> m == v.error.value
  {
    if v.error.Some? && v.error.value != "" then v.error.value else MsgValidationFailed
  }

  // ---------------------------------------------------------------------
  // The optimistic delete

  /** `notes.filter(note => note.id !== id)`. */
  function RemoveId(notes: seq<SessionNote>, id: string): (r: seq<SessionNote>)
    ensures |r| <= |notes|
  {
    if notes == [] then []
    else if notes[0].id == id then RemoveId(notes[1..], id)
    else [notes[0]] + RemoveId(notes[1..], id)
  }

  /** The survivors are exactly the notes whose id differs. */
  lemma {:induction false} RemoveIdMembers(notes: seq<SessionNote>, id: string)
    ensures forall n :: n in RemoveId(notes, id) <==> n in notes && n.id != id
  {
    if notes != [] {
      RemoveIdMembers(notes[1..], id);
      assert notes == [notes[0]] + notes[1..];
    }
  }

  /** Filtering distributes over concatenation: survivors keep their
      relative order. */
  lemma {:induction false} RemoveIdConcat(a: seq<SessionNote>, b: seq<SessionNote>, id: string)
    ensures RemoveId(a + b, id) == RemoveId(a, id) + RemoveId(b, id)
  {
    if a == [] {
      assert a + b == b;
    } else {
      assert (a + b)[1..] == a[1..] + b;
      RemoveIdConcat(a[1..], b, id);
    }
  }

  /** Deleting an id no note carries leaves the list as it was. */
  lemma {:induction false} RemoveAbsentId(notes: seq<SessionNote>, id: string)
    requires forall i :: 0 <= i < |notes| ==> notes[i].id != id
    ensures RemoveId(notes, id) == notes
  {
    if notes != [] {
      RemoveAbsentId(notes[1..], id);
      assert notes == [notes[0]] + notes[1..];
    }
  }

  /** `a` is `b` with some elements left out, the rest in the same order. */
  ghost predicate IsSubsequence(a: seq<SessionNote>, b: seq<SessionNote>)
    decreases |b|
  {
    if a == [] then true
    else if b == [] then false
    else if a[0] == b[0] then IsSubsequence(a[1..], b[1..])
    else IsSubsequence(a, b[1..])
  }

  /** The survivors form a subsequence of the old list, and removing the
      same id again changes nothing. */
  lemma {:induction false} RemoveIdKeepsOrder(notes: seq<SessionNote>, id: string)
    ensures IsSubsequence(RemoveId(notes, id), notes)
    ensures RemoveId(RemoveId(notes, id), id) == RemoveId(notes, id)
  {
    if notes != [] {
      RemoveIdKeepsOrder(notes[1..], id);
      var rest := RemoveId(notes[1..], id);
      if notes[0].id != id {
        assert RemoveId(notes, id) == [notes[0]] + rest;
        assert ([notes[0]] + rest)[1..] == rest;
      } else {
        SubsequenceOfTail(rest, notes);
      }
    }
  }

  lemma {:induction false} SubsequenceOfTail(a: seq<SessionNote>, b: seq<SessionNote>)
    requires b != [] && IsSubsequence(a, b[1..])
    ensures IsSubsequence(a, b)
    decreases |b|, 0
  {
    if a != [] && a[0] == b[0] {
      if |b| > 1 && a[1..] != [] {
        SubsequenceDropHead(a, b[1..]);
      }
    }
  }

  lemma {:induction false} SubsequenceDropHead(a: seq<SessionNote>, b: seq<SessionNote>)
    requires a != [] && IsSubsequence(a, b)
    ensures IsSubsequence(a[1..], b)
    decreases |b|, 1
  {
    if a[1..] != [] && b != [] {
      if a[0] == b[0] {
        SubsequenceOfTail(a[1..], b);
      } else {
        SubsequenceDropHead(a, b[1..]);
        SubsequenceOfTail(a[1..], b);
      }
    }
  }

  // ---------------------------------------------------------------------
  // The store

  /** How `select('*').order('created_at', {ascending: false})` settled:
      with rows (possibly `null`), or with an error. The rows are taken in
      the order the database returns them. */
  datatype SelectResult = Selected(data: Option<seq<SessionNote>>) | SelectFailed(failure: Failure)

  /** The hook's state cells. Each operation is one atomic step; the
      intermediate `loading = true` of a fetch is not observable here. */
  class NoteStore {
    var notes: seq<SessionNote>
    var loading: bool
    var error: Option<string>

    /** The initial state: no notes, loading (the mount-time fetch is
        pending), no error. */
    constructor ()
      ensures notes == [] && loading && error == None
    {
      notes := [];
      loading := true;
      error := None;
    }

    /** `fetchNotes`: start loading and clear the error; replace the notes
        with the rows (`data || []`) or keep them and record the failure;
        stop loading in every case. */
    method FetchNotes(response: SelectResult)
      modifies this
      ensures !loading
      ensures response.Selected? ==> notes == response.data.GetOr([]) && error == None
      ensures response.SelectFailed? ==>
        notes == old(notes) && error == Some(Describe(response.failure, MsgFetchFailed))
    {
      loading := true;
      error := None;
      match response {
        case Selected(data) =>
          notes := data.GetOr([]);
        case SelectFailed(f) =>
          error := Some(Describe(f, MsgFetchFailed));
      }
      loading := false;
    }

    /** `createNote`: clear the error, validate (remote, else fallback),
        insert, then refetch. A rejected note is not inserted and an insert
        failure is not followed by a refetch; both leave `notes` and
        `loading` as they were, record the message and rethrow. A
        successful insert replaces `notes` by the refetch, never appends. */
    method CreateNote(note: CreateSessionNoteInput, remote: InvokeResult, insert: Completion,
                      refetch: SelectResult)
      returns (outcome: Completion, insertCalled: bool, refetchCalled: bool)
      modifies this
      ensures var v := ValidateNote(note, remote);
        && insertCalled == v.valid
        && refetchCalled == (v.valid && insert.Done?)
        && (!v.valid ==>
              && outcome == Threw(ErrorInstance(RejectionMessage(v)))
              && notes == old(notes) && loading == old(loading)
              && error == Some(RejectionMessage(v)))
        && (v.valid && insert.Threw? ==>
              && outcome == insert
              && notes == old(notes) && loading == old(loading)
              && error == Some(Describe(insert.failure, MsgCreateFailed)))
        && (v.valid && insert.Done? ==>
              && outcome == Done && !loading
              && (refetch.Selected? ==> notes == refetch.data.GetOr([]) && error == None)
              && (refetch.SelectFailed? ==>
                    notes == old(notes) && error == Some(Describe(refetch.failure, MsgFetchFailed))))
    {
      error := None;
      var validation := ValidateNote(note, remote);
      if !validation.valid {
        var thrown := ErrorInstance(RejectionMessage(validation));
        error := Some(Describe(thrown, MsgCreateFailed));
        return Threw(thrown), false, false;
      }
      insertCalled := true;
      if insert.Threw? {
        error := Some(Describe(insert.failure, MsgCreateFailed));
        return insert, insertCalled, false;
      }
      refetchCalled := true;
      FetchNotes(refetch);
      outcome := Done;
    }

    /** `deleteNote`: clear the error and delete on the server; on failure
        keep `notes`, record the message and rethrow; on success drop every
        note with that id from the list without refetching. */
    method DeleteNote(id: string, result: Completion) returns (outcome: Completion)
      modifies this
      ensures outcome == result && loading == old(loading)
      ensures result.Done? ==> notes == RemoveId(old(notes), id) && error == None
      ensures result.Threw? ==>
        notes == old(notes) && error == Some(Describe(result.failure, MsgDeleteFailed))
    {
      error := None;
      if result.Threw? {
        error := Some(Describe(result.failure, MsgDeleteFailed));
        return result;
      }
      notes := RemoveId(notes, id);
      outcome := Done;
    }
  }

}

/** Whole-store walks through the operations, from the specifications of
    the store's methods alone. */
module StoreScenarios {
  import opened Types
  import opened SessionNotes
  import EdgeValidator

  /** Create a valid note through a reachable edge function, then delete
      it: the refetch shows the row with its server-assigned id, and the
      optimistic delete removes it at once. */
  method CreateThenDelete(id: string, createdAt: string)
    returns (afterCreate: seq<SessionNote>, afterDelete: seq<SessionNote>)
    ensures afterCreate == [SessionNote(id, "Jane Doe", "2024-01-15", "Discussed coping strategies.", 50, Some(createdAt))]
    ensures afterDelete == []
  {
    var store := new NoteStore();
    var note := CreateSessionNoteInput("Jane Doe", "2024-01-15", "Discussed coping strategies.", 50);
    var remote := InvokeOf(EdgeValidator.Validate(RequestOf(note)));
    ReachableEdgeIsAuthoritative(note);
    assert !Text.IsWhitespace(note.client_name[0]) && !Text.IsWhitespace(note.quick_notes[0]);
    var row := SessionNote(id, note.client_name, note.session_date, note.quick_notes,
                           note.session_duration, Some(createdAt));
    var outcome, insertCalled, refetchCalled := store.CreateNote(note, remote, Done, Selected(Some([row])));
    afterCreate := store.notes;
    outcome := store.DeleteNote(id, Done);
    afterDelete := store.notes;
  }

  /** With the edge function unreachable, a 10-minute session is still
      rejected by the fallback and nothing is inserted, while a 50-minute
      one is accepted. */
  method FallbackStillGuardsDuration(name: string, date: string, notes: string, f: Failure,
                                     refetch: SelectResult)
    returns (shortRejected: Completion, shortInserted: bool, validInserted: bool)
    ensures shortRejected == Threw(ErrorInstance(MsgTooShort)) && !shortInserted
    ensures validInserted
  {
    var store := new NoteStore();
    var refetched;
    shortRejected, shortInserted, refetched :=
      store.CreateNote(CreateSessionNoteInput(name, date, notes, 10), InvokeThrew(f), Done, refetch);
    var outcome;
    outcome, validInserted, refetched :=
      store.CreateNote(CreateSessionNoteInput(name, date, notes, 50), FunctionError(f), Done, refetch);
  }
}
