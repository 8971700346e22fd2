/** What one card of the list shows for a note: its fields, with the notes
    cut to a preview. Date and locale formatting are not modelled; the card
    carries the stored date text. */
module NoteCard {
  import opened Types

  const TruncateLength := 100
  const Ellipsis := "..."

  /** The shown notes: unchanged up to 100 characters, otherwise the first
      100 characters followed by "...". */
  function TruncatedNotes(notes: string): (shown: string)
    ensures |notes| <= TruncateLength ==> shown == notes
    ensures |notes| > TruncateLength ==>
      |shown| == TruncateLength + |Ellipsis| && shown[TruncateLength..] == Ellipsis
    ensures |shown| <= TruncateLength + |Ellipsis|
  {
    if |notes| > TruncateLength then notes[..TruncateLength] + Ellipsis else notes
  }

  /** The shown text starts with a prefix of the notes: the whole notes when
      they fit, their first 100 characters otherwise. Nothing of the notes
      beyond what is shown is lost before the cut. */
  lemma TruncatedStartsWithNotes(notes: string)
    ensures var shown := TruncatedNotes(notes);
      var kept := if |notes| <= TruncateLength then |notes| else TruncateLength;
      kept <= |shown| && shown[..kept] == notes[..kept]
  {
  }

  /** Cutting a preview again gives the same preview. */
  lemma TruncationIdempotent(notes: string)
    ensures TruncatedNotes(TruncatedNotes(notes)) == TruncatedNotes(notes)
  {
  }

  /** The data one card displays. Its delete button reports
      `(id, clientName)`. */
  datatype Card = Card(id: string, clientName: string, sessionDate: string,
                       sessionDuration: int, shownNotes: string)

  function CardOf(note: SessionNote): (c: Card)
    ensures c.id == note.id && c.clientName == note.client_name
    ensures c.sessionDate == note.session_date && c.sessionDuration == note.session_duration
    ensures c.shownNotes == TruncatedNotes(note.quick_notes)
    ensures |c.shownNotes| <= TruncateLength + |Ellipsis|
  {
    Card(note.id, note.client_name, note.session_date, note.session_duration,
         TruncatedNotes(note.quick_notes))
  }
}
