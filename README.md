# Session notes: validation and note-store model

A Dafny model of the decision logic of a small therapy-session note-taking
tool. A session note has a client name, a session date, a duration in
minutes and free-text quick notes. The model covers:

- the authoritative validator (the `validate-session-note` edge function):
  seven rules tried in a fixed order, where the first failure decides the
  answer, plus the 400 answer for a body it cannot handle (`EdgeValidator`);
- the note store client (`useSessionNotes`): the duration-only local
  fallback validator, the rule for falling back to it, and the `notes`,
  `loading` and `error` state cells that fetch, create and delete update
  (`SessionNotes`, class `NoteStore`);
- the creation form: its own pre-validation chain, which has a different
  order and different messages; the trimmed payload it submits; and its
  submit and close handlers (`NoteForm`, class `SessionNoteForm`);
- the preview truncation of a note card (`NoteCard`);
- the list's view selection and its delete-confirmation state machine
  (`NoteList`, class `DeleteConfirmation`);
- `String.prototype.trim` over the ECMAScript whitespace set (`Text`), and
  the shared record shapes (`Types`).

Each call to the database or to the edge function is a parameter of the
operation that makes it. The parameter holds how that call settled:
`SelectResult`, `InvokeResult`, or `Completion` (resolved, or rejected with
a thrown value). A thrown value is an `Error` instance with a message, or
some other value. Callers read it as `err instanceof Error ? err.message :
fallback`. The form and list handlers await a callback. Each is split at
that await into a start method and a finish method, so the `submitting`
and `deleting` guards can be seen. A `Handle…` method runs both halves as
one step. The store's operations are single atomic steps. `refreshNotes`
and the fetch on mount (`useSessionNotes.ts:118-125`) only call
`fetchNotes`, so `FetchNotes` models them.

The model proves these links between the parts:
- the edge function's chain equals a rule table tried in order
  (`ValidateFollowsRuleTable`);
- the fallback accepts everything the edge function accepts, and both
  reject every duration outside [15, 120] (`FallbackAgreesWithEdgeOnDuration`);
- when the edge function is reachable, a typed note gets its
  authoritative answer (`ReachableEdgeIsAuthoritative`);
- a payload that passed the form's checks passes the edge function's
  duration, name and notes rules (`PassedFormPassesEdge`).

Three behaviours of the code are easy to miss, and the model follows each:
- The notes limit is on the untrimmed length. The edge function
  (`index.ts:78`) and the form (`NoteForm.tsx:54`) both test
  `quick_notes.length`, so trailing whitespace counts.
- Deleting an id no note carries succeeds. The store fails only when the
  database call reports an error (`useSessionNotes.ts:106`), and the filter
  leaves the list unchanged (`SessionNotes.RemoveAbsentId`).
- The fallback's upper-bound message is "Session duration cannot exceed
  120 minutes". The edge function's message ends with " (2 hours)".
  `FallbackAgreesWithEdgeOnDuration` proves that the two differ.
- The edge function's 400 answer also comes from a name or notes value
  that is truthy but not a string: `.trim()` throws on it, and the
  handler's `catch` answers 400 (`BadRequestOnlyForShapeErrors`).
- `App.tsx` always passes `error={null}` to the list, so the list's error
  view is never reached in the application. `SelectView` still models it.

## Model

| member | source | states |
|---|---|---|
| EdgeValidator.Validate | supabase/functions/validate-session-note/index.ts:30-107 | every answer is 200 or 400; a 400 always carries "Invalid request format"; an unparseable body gets 400; `error` is present exactly when `valid` is false |
| Types.Describe | src/hooks/useSessionNotes.ts:29 | an `Error` instance is described by its message; any other thrown value by the caller's fallback text |
| EdgeValidator.ValidateFollowsRuleTable | supabase/functions/validate-session-note/index.ts:34-86 | the handler's if-chain equals the rule table tried in order: non-number duration, < 15, > 120, blank name, missing date, blank notes, notes > 500; the first rule that fails or throws decides |
| EdgeValidator.FieldRulesFollowTable | supabase/functions/validate-session-note/index.ts:56-86 | the name, date and notes checks equal the last four rules of the table tried in order, a truthy non-string name or notes value counting as a rule that throws |
| EdgeValidator.EarliestFailingRuleReported | supabase/functions/validate-session-note/index.ts:35-83 | when several rules fail, the earliest in the order is reported, with its exact message and status 200 |
| EdgeValidator.AcceptedIffAcceptable | supabase/functions/validate-session-note/index.ts:42-86 | accepted iff 15 ≤ duration ≤ 120, the name is a non-blank string, the date is truthy, the notes are a non-blank string and the untrimmed notes have at most 500 characters; an accepted body gets status 200 and no error |
| EdgeValidator.DurationBelowMinimum | supabase/functions/validate-session-note/index.ts:42-47 | any duration < 15 gets exactly "Session duration must be at least 15 minutes" with status 200, whatever the other fields hold (an empty name included) |
| EdgeValidator.DurationAboveMaximum | supabase/functions/validate-session-note/index.ts:49-54 | any duration > 120 gets exactly "Session duration cannot exceed 120 minutes (2 hours)", whatever the other fields hold |
| EdgeValidator.DurationNotNumber | supabase/functions/validate-session-note/index.ts:35-40 | a duration that is not a number gets "Session duration must be a number" before any other rule |
| EdgeValidator.BlankTextIsRequiredError | supabase/functions/validate-session-note/index.ts:57-76 | a name or notes value made only of whitespace gets the "required" message, not the length message and not the 400 answer |
| EdgeValidator.NotesLengthBoundary | supabase/functions/validate-session-note/index.ts:78-86 | with the other fields valid, 500 untrimmed characters are accepted and 501 are rejected with "Quick notes cannot exceed 500 characters" |
| EdgeValidator.BadRequestOnlyForShapeErrors | supabase/functions/validate-session-note/index.ts:57-95 | status 400 exactly for an unreadable body, or for a name or notes value that is truthy but not a string and is reached by the chain; every rule rejection is status 200 |
| SessionNotes.ClientSideValidation | src/hooks/useSessionNotes.ts:59-67 | the fallback's `error` is present exactly when it rejects |
| SessionNotes.FallbackIsDurationOnly | src/hooks/useSessionNotes.ts:59-67 | the fallback accepts iff 15 ≤ duration ≤ 120; it names the violated bound with its exact message; its answer depends on no field other than the duration |
| SessionNotes.FallbackAgreesWithEdgeOnDuration | src/hooks/useSessionNotes.ts:58-67 | what the edge function accepts, the fallback accepts; below 15 both give the same answer; above 120 both reject, the edge function with "… 120 minutes (2 hours)" and the fallback with "… 120 minutes", so the messages differ |
| SessionNotes.RequestOf | src/hooks/useSessionNotes.ts:40-42 | the body sent is the note's four fields: name and notes as strings, the duration as a number, and a date that is truthy iff its text is non-empty |
| SessionNotes.InvokeOf | src/hooks/useSessionNotes.ts:40-44 | an edge answer with a 2xx status reaches the caller as its data; any other status becomes a function error |
| SessionNotes.ValidateNote | src/hooks/useSessionNotes.ts:38-56 | with no function error, the remote data; on a function error or a thrown exception, exactly the fallback's answer |
| SessionNotes.DegradedValidationDecidesOnDuration | src/hooks/useSessionNotes.ts:44-55 | on the fallback path the answer is valid iff the duration is in [15, 120], so duration 10 is rejected and an in-range one accepted |
| SessionNotes.ReachableEdgeIsAuthoritative | src/hooks/useSessionNotes.ts:40-50 | for a typed note sent to a reachable edge function, `validateNote` returns the edge function's own answer, which is valid iff every field is well-formed |
| SessionNotes.RejectionMessage | src/hooks/useSessionNotes.ts:77-79 | the message of a rejected validation is its error text, or "Validation failed" when that is missing or empty, so it is never empty |
| SessionNotes.RemoveId | src/hooks/useSessionNotes.ts:109 | the optimistic filter never lengthens the list |
| SessionNotes.RemoveIdMembers | src/hooks/useSessionNotes.ts:109 | a note survives the delete iff it was in the list and its id differs from the deleted id |
| SessionNotes.RemoveIdConcat | src/hooks/useSessionNotes.ts:109 | the filter distributes over concatenation, so the survivors keep their relative order |
| SessionNotes.RemoveAbsentId | src/hooks/useSessionNotes.ts:109 | deleting an id that no note carries leaves the list unchanged |
| SessionNotes.RemoveIdKeepsOrder | src/hooks/useSessionNotes.ts:109 | the survivors form a subsequence of the old list, and filtering the same id again changes nothing |
| SessionNotes.NoteStore.constructor | src/hooks/useSessionNotes.ts:10-12 | the store starts with no notes, loading true and no error |
| SessionNotes.NoteStore.FetchNotes | src/hooks/useSessionNotes.ts:15-35 | on success the notes become `data or []` and the error is cleared; on failure the notes are kept and the error is set from the failure (or "Failed to fetch notes"); loading ends false |
| SessionNotes.NoteStore.CreateNote | src/hooks/useSessionNotes.ts:70-94 | a rejected note is not inserted: notes and loading are kept, the error is the rule's message (or "Validation failed"), and an Error is rethrown; an insert failure is not refetched: notes are kept, the error is set and the failure is rethrown; on success the notes are replaced by the refetch result, not appended to |
| SessionNotes.NoteStore.DeleteNote | src/hooks/useSessionNotes.ts:97-115 | on success the notes become the old list without every note of that id, and the error is cleared; on failure the notes are kept, the error is set and the failure is rethrown |
| StoreScenarios.CreateThenDelete | src/hooks/useSessionNotes.ts:70-115 | creating a valid note through a reachable edge function, with the insert and the refetch succeeding, leaves exactly the refetched row with its server-assigned id; deleting that id then empties the list |
| StoreScenarios.FallbackStillGuardsDuration | src/hooks/useSessionNotes.ts:38-85 | with the edge function failing or throwing, a 10-minute note is rejected with the minimum message and not inserted, while a 50-minute note is inserted |
| NoteForm.PreValidate | src/components/NoteForm.tsx:39-62 | the result is one of the form's five messages, or none; when none, a date is picked, the notes have 1 to 500 characters and the duration is in [15, 120] |
| NoteForm.PreValidationOrder | src/components/NoteForm.tsx:39-62 | the checks run blank name, null date, blank notes, untrimmed notes > 500, then duration outside [15, 120] with one message for both bounds; the first failure is reported; all pass iff every field is well-formed |
| NoteForm.BuildPayload | src/components/NoteForm.tsx:68-73 | the submitted name and notes are the trimmed fields; the date is the formatted day; the duration is unchanged |
| NoteForm.PassedFormPassesEdge | src/components/NoteForm.tsx:39-73 | a payload that passed the form's checks has a duration in [15, 120], a non-blank name and non-blank notes of 1 to 500 characters, so the edge function accepts it whenever the date text is non-empty |
| NoteForm.RemainingChars | src/components/NoteForm.tsx:97 | the count is non-negative iff the untrimmed notes fit the 500 limit; a negative count means the form cannot pass its checks |
| NoteForm.SessionNoteForm.constructor | src/components/NoteForm.tsx:30-35 | empty name and notes, today's date, 60 minutes, not submitting, no error |
| NoteForm.SessionNoteForm.BeginSubmit | src/components/NoteForm.tsx:37-73 | a failed check sets its message and submits nothing; otherwise submitting is set, the error is cleared and the trimmed payload is submitted; an invalid date throws while it is formatted and submits nothing; no field is edited |
| NoteForm.SessionNoteForm.FinishSubmit | src/components/NoteForm.tsx:75-87 | after `onSubmit` succeeds, the fields reset to '', today, '', 60 and the form closes; after it fails, the fields are kept and the error shows its message; submitting ends false |
| NoteForm.SessionNoteForm.HandleSubmit | src/components/NoteForm.tsx:37-88 | the note is submitted iff the checks pass and the date is valid; the form closes only after a successful submission; whenever the checks pass, submitting ends false; an invalid date leaves the thrown "Invalid time value" as the error |
| NoteForm.SessionNoteForm.HandleClose | src/components/NoteForm.tsx:90-95 | while submitting, nothing changes and the form stays open; otherwise the error is cleared and the form closes |
| NoteCard.TruncatedNotes | src/components/NoteCard.tsx:37-40 | notes of at most 100 characters are shown unchanged; longer notes are shown as 103 characters ending in "..."; the shown text never exceeds 103 characters |
| NoteCard.TruncatedStartsWithNotes | src/components/NoteCard.tsx:37-40 | the shown text begins with the whole notes, or with their first 100 characters |
| NoteCard.TruncationIdempotent | src/components/NoteCard.tsx:37-40 | truncating a preview again gives the same preview |
| NoteCard.CardOf | src/components/NoteCard.tsx:58-99 | a card shows the note's id, client name, date and duration, and its notes cut to at most 103 characters |
| NoteList.CardsOf | src/components/NoteList.tsx:107-111 | one card per note, in the given order, each built from the note at the same position |
| NoteList.DialogOf | src/components/NoteList.tsx:115-121 | the dialog is open and marked deleting exactly as told, and shows the pending note's name, or '' when none is pending |
| NoteList.SelectView | src/components/NoteList.tsx:54-123 | the spinner iff loading; otherwise the alert iff the error is non-empty; otherwise the empty state iff there are no notes; otherwise the grid |
| NoteList.GridShowsNotesInOrder | src/components/NoteList.tsx:103-111 | with notes and no error, the grid's i-th card shows note i and its delete button reports that note's id and client name |
| NoteList.DeleteConfirmation.constructor | src/components/NoteList.tsx:23-25 | the dialog is closed, nothing is pending, nothing is being deleted |
| NoteList.DeleteConfirmation.HandleDeleteClick | src/components/NoteList.tsx:27-30 | the pending note becomes exactly `{id, name}` and the dialog opens |
| NoteList.DeleteConfirmation.BeginDeleteConfirm | src/components/NoteList.tsx:32-37 | with nothing pending it is a no-op and calls nothing; otherwise deleting is set and `onDeleteNote` is called with the pending id |
| NoteList.DeleteConfirmation.FinishDeleteConfirm | src/components/NoteList.tsx:38-44 | a successful delete closes the dialog and clears the pending note; a failed one keeps both; deleting ends false |
| NoteList.DeleteConfirmation.HandleDeleteConfirm | src/components/NoteList.tsx:32-45 | both halves as one step; with a note pending, the dialog stays open exactly when the delete failed, and deleting ends false |
| NoteList.DeleteConfirmation.HandleDeleteCancel | src/components/NoteList.tsx:47-52 | ignored while deleting; otherwise it closes the dialog and clears the pending note |
| NoteList.DeleteConfirmation.Render | src/components/NoteList.tsx:114-121 | the dialog shown with the grid is open and marked deleting exactly as the confirmation state says |

## Left out

- Rendering, theming, icons and `src/components/DeleteConfirmDialog.tsx`: presentation with no decisions.
  The dialog's props are kept (`DialogProps`).
- `src/App.tsx`: snackbar and theme plumbing. It only copies success or error text and rethrows.
- Database and edge-function calls: foreign I/O, modelled as parameters holding how each call settled.
  The newest-first order of the select is what the database returns; the model keeps the rows in the order given and does not prove it.
  `SessionNotes.InvokeOf` holds what the model assumes of the client library: a non-2xx answer becomes a function error.
- HTTP serving, the CORS preflight answer (`index.ts:20-27`), response headers and JSON parsing: transport.
  "Cannot be parsed" is the `Malformed` request; a JSON `null` body, whose property reads throw, is folded into it.
- Date handling: `toISOString().split('T')[0]`, `new Date()` and `toLocaleDateString` are date and locale library calls.
  A picked date is either a valid date, standing for its `YYYY-MM-DD` text, or an invalid one. Today's date is a parameter. Cards carry the stored date text unformatted.
- `NoteForm.MsgInvalidTime`: the text of the RangeError that `toISOString` throws for an invalid date. It is the V8 engine's wording, not something the repository states.
- JavaScript numbers: durations are integers, so fractions and NaN are not modelled.
  `Number(e.target.value)` (`NoteForm.tsx:137`) can give NaN or a fraction. NaN passes every `<`/`>` test, so the form and the fallback accept it. JSON sends NaN as `null`, which the edge function rejects as "must be a number".
- String length and indexing: `.length` and `substring` count UTF-16 code units. The model counts characters, so a character outside the Basic Multilingual Plane counts 1 here and 2 in the source.
- The data returned by a reachable edge function is taken to have the `{valid, error?}` shape. A malformed answer, on which `validation.valid` would throw, is not modelled.
- Overlapping asynchronous create, delete and fetch calls: concurrency. Each store operation is one atomic step, so states in the middle of an operation (`loading` true during a fetch, the error cleared and then set again) are not observable.
- The field `onChange` setters of the form (`NoteForm.tsx:114-149`): plain assignments with no decisions.
- `console.warn` and `console.error` logging, including the warning that marks the degraded validation path.
