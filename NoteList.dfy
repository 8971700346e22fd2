/** The note list: which view it renders, and the delete-confirmation state
    machine over `deleteDialogOpen`, `noteToDelete` and `deleting`. The
    confirm handler awaits `onDeleteNote`, so it is split at that point into
    a start and an end step; between them `deleting` is true. */
module NoteList {
  import opened Types
  import NoteCard

  /** The note a confirmation is pending for. */
  datatype PendingDelete = PendingDelete(id: string, name: string)

  /** The props handed to the confirmation dialog. */
  datatype DialogProps = DialogProps(open: bool, clientName: string, deleting: bool)

  datatype View =
    | Spinner
    | ErrorAlert(message: string)
    | EmptyState
    | Grid(cards: seq<NoteCard.Card>, dialog: DialogProps)

  /** `notes.map(note => <NoteCard note={note} />)`: one card per note, in
      the given order. */
  function CardsOf(notes: seq<SessionNote>): (cards: seq<NoteCard.Card>)
    ensures |cards| == |notes|
    ensures forall i :: 0 <= i < |notes| ==> cards[i] == NoteCard.CardOf(notes[i])
  {
    if notes == [] then [] else [NoteCard.CardOf(notes[0])] + CardsOf(notes[1..])
  }

  /** The dialog's props: `clientName={noteToDelete?.name || ''}`. */
  function DialogOf(dialogOpen: bool, pending: Option<PendingDelete>, deleting: bool): (d: DialogProps)
    ensures d.open == dialogOpen && d.deleting == deleting
    ensures pending.Some? ==> d.clientName == pending.value.name
    ensures pending.None? ==> d.clientName == ""
  {
    DialogProps(dialogOpen, if pending.Some? then pending.value.name else "", deleting)
  }

  /** The view the list renders, in a fixed precedence: loading, then a
      non-empty error, then an empty list, then the grid. */
  function SelectView(loading: bool, error: Option<string>, notes: seq<SessionNote>,
                      dialogOpen: bool, pending: Option<PendingDelete>, deleting: bool): (v: View)
    ensures v.Spinner? <==> loading
    ensures v.ErrorAlert? <==> !loading && error.Some? && error.value != ""
    ensures v.ErrorAlert? ==> Some(v.message) == error
    ensures v.EmptyState? <==> !loading && (error.None? || error.value == "") && notes == []
    ensures v.Grid? ==> |v.cards| == |notes| && notes != []
  {
    if loading then Spinner
    else if error.Some? && error.value != "" then ErrorAlert(error.value)
    else if |notes| == 0 then EmptyState
    else Grid(CardsOf(notes), DialogOf(dialogOpen, pending, deleting))
  }

  /** The grid shows every note, in the given order, and pressing a card's
      delete button asks to delete exactly that note under its client's
      name. */
  lemma GridShowsNotesInOrder(notes: seq<SessionNote>, dialogOpen: bool,
                              pending: Option<PendingDelete>, deleting: bool, i: nat)
    requires i < |notes|
    ensures var v := SelectView(false, None, notes, dialogOpen, pending, deleting);
      && v.Grid? && |v.cards| == |notes|
      && v.cards[i].id == notes[i].id && v.cards[i].clientName == notes[i].client_name
      && v.cards[i].shownNotes == NoteCard.TruncatedNotes(notes[i].quick_notes)
  {
  }

  class DeleteConfirmation {
    var deleteDialogOpen: bool
    var noteToDelete: Option<PendingDelete>
    var deleting: bool

    /** The dialog is open exactly while a note is pending, and a delete is
        only ever running for a pending note. */
    predicate Valid()
      reads this
    {
      && (deleteDialogOpen <==> noteToDelete.Some?)
      && (deleting ==> noteToDelete.Some?)
    }

    constructor ()
      ensures Valid()
      ensures !deleteDialogOpen && noteToDelete == None && !deleting
    {
      deleteDialogOpen := false;
      noteToDelete := None;
      deleting := false;
    }

    /** `handleDeleteClick(id, clientName)`: remember exactly that note and
        open the dialog. */
    method HandleDeleteClick(id: string, clientName: string)
      requires Valid()
      modifies this
      ensures Valid()
      ensures noteToDelete == Some(PendingDelete(id, clientName)) && deleteDialogOpen
      ensures deleting == old(deleting)
    {
      noteToDelete := Some(PendingDelete(id, clientName));
      deleteDialogOpen := true;
    }

    /** The first half of `handleDeleteConfirm`: with no pending note nothing
        happens and nothing is called; otherwise `deleting` becomes true and
        `onDeleteNote` is called with the pending id. */
    method BeginDeleteConfirm() returns (deleteCall: Option<string>)
      requires Valid()
      modifies this
      ensures Valid()
      ensures old(noteToDelete).None? ==> deleteCall == None && deleting == old(deleting)
      ensures old(noteToDelete).Some? ==> deleteCall == Some(old(noteToDelete).value.id) && deleting
      ensures deleteDialogOpen == old(deleteDialogOpen) && noteToDelete == old(noteToDelete)
    {
      if noteToDelete.None? {
        return None;
      }
      deleting := true;
      deleteCall := Some(noteToDelete.value.id);
    }

    /** The second half, once `onDeleteNote` has settled: success closes the
        dialog and forgets the note, failure keeps both; `deleting` ends
        false either way. */
    method FinishDeleteConfirm(outcome: Completion)
      requires Valid() && deleting
      modifies this
      ensures Valid() && !deleting
      ensures outcome.Done? ==> !deleteDialogOpen && noteToDelete == None
      ensures outcome.Threw? ==>
        deleteDialogOpen == old(deleteDialogOpen) && noteToDelete == old(noteToDelete)
    {
      if outcome.Done? {
        deleteDialogOpen := false;
        noteToDelete := None;
      }
      deleting := false;
    }

    /** `handleDeleteConfirm` as one step: both halves, the second only when
        the first called `onDeleteNote`. */
    method HandleDeleteConfirm(outcome: Completion) returns (deleteCall: Option<string>)
      requires Valid()
      modifies this
      ensures Valid()
      ensures old(noteToDelete).None? ==>
        deleteCall == None && deleting == old(deleting) && !deleteDialogOpen && noteToDelete == None
      ensures old(noteToDelete).Some? ==> deleteCall == Some(old(noteToDelete).value.id) && !deleting
      ensures old(noteToDelete).Some? && outcome.Done? ==> !deleteDialogOpen && noteToDelete == None
      ensures old(noteToDelete).Some? && outcome.Threw? ==>
        deleteDialogOpen && noteToDelete == old(noteToDelete)
    {
      deleteCall := BeginDeleteConfirm();
      if deleteCall.Some? {
        FinishDeleteConfirm(outcome);
      }
    }

    /** `handleDeleteCancel`: ignored while a delete is running; otherwise
        close the dialog and forget the note. */
    method HandleDeleteCancel()
      requires Valid()
      modifies this
      ensures Valid() && deleting == old(deleting)
      ensures old(deleting) ==>
        deleteDialogOpen == old(deleteDialogOpen) && noteToDelete == old(noteToDelete)
      ensures !old(deleting) ==> !deleteDialogOpen && noteToDelete == None
    {
      if !deleting {
        deleteDialogOpen := false;
        noteToDelete := None;
      }
    }

    /** The list as it renders with this confirmation state. */
    function Render(loading: bool, error: Option<string>, notes: seq<SessionNote>): (v: View)
      reads this
      ensures v.Grid? ==> v.dialog.open == deleteDialogOpen && v.dialog.deleting == deleting
    {
      SelectView(loading, error, notes, deleteDialogOpen, noteToDelete, deleting)
    }
  }
}
