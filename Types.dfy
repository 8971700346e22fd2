/** The record shapes shared by the validator, the note store and the
    components, and the values that asynchronous calls resolve or reject
    with. */
module Types {

  datatype Option<+T> = None | Some(value: T) {
    function GetOr(default: T): T {
      match this
      case Some(v) => v
      case None => default
    }
  }

  /** A persisted session note. `id` and `created_at` are assigned by the
      database; `created_at` may be absent from a row. */
  datatype SessionNote = SessionNote(
    id: string,
    client_name: string,
    session_date: string,
    quick_notes: string,
    session_duration: int,
    created_at: Option<string>)

  /** The only shape accepted for creation: a note without `id` and
      `created_at`. */
  datatype CreateSessionNoteInput = CreateSessionNoteInput(
    client_name: string,
    session_date: string,
    quick_notes: string,
    session_duration: int)

  /** `{valid, error?}` as the validators return it. */
  datatype ValidationResponse = ValidationResponse(valid: bool, error: Option<string>)

  /** A value something threw: either an `Error` instance with its `message`,
      or some other value, for which callers substitute a fixed text. */
  datatype Failure = ErrorInstance(message: string) | NonError

  /** How an awaited call settled: it resolved, or it rejected with a value. */
  datatype Completion = Done | Threw(failure: Failure)

  /** `err instanceof Error ? err.message : fallback`. */
  function Describe(f: Failure, fallback: string): (m: string)
    ensures f.ErrorInstance? ==> m == f.message
    ensures f.NonError? ==> m == fallback
  {
    match f
    case ErrorInstance(msg) => msg
    case NonError => fallback
  }
}
