/** The admin notice board (`client/src/Admin/Notice.tsx`): loading the
    notices newest first, publishing one, deleting one after confirmation,
    and the row numbering. Server replies are inputs. */
module NoticeBoard {
  import opened Basics
  import opened Text
  import opened Seqs
  import opened Notices

  /** The component state: the message being typed, the list shown, the
      fetch error, the delete dialog with its selection, and the
      notification. */
  datatype Board = Board(
    input: string, notices: seq<Notice>, error: Option<string>,
    dialogOpen: bool, selected: Option<string>, snack: Option<Snack>)

  /** How the list request ended: the notices received, or the reason it
      failed (a non-OK status or a network error). */
  datatype FetchOutcome = Fetched(data: seq<Notice>) | FetchFailed(reason: string)

  /** `fetchNotices`: a received list replaces the shown one, sorted newest
      first, and clears the error; a failure records its reason and keeps the
      list. */
  function LoadNotices(b: Board, outcome: FetchOutcome): (r: Board)
    ensures outcome.Fetched? ==>
      && NewestFirst(r.notices) && multiset(r.notices) == multiset(outcome.data)
      && r.error.None?
    ensures outcome.FetchFailed? ==> r.notices == b.notices && r.error == Some(outcome.reason)
    ensures r.(notices := b.notices, error := b.error) == b
  {
    match outcome
    case Fetched(data) => b.(notices := SortNewestFirst(data), error := None)
    case FetchFailed(reason) => b.(error := Some(reason))
  }

  /** The fetched list is shown in the stable order: notices sharing a date
      appear in the order the server sent them. */
  lemma LoadKeepsDateOrder(b: Board, data: seq<Notice>, d: int)
    ensures WithDate(LoadNotices(b, Fetched(data)).notices, d) == WithDate(data, d)
  {
    SortStable(data, d);
  }

  /** How the publish request ended. The handler has no `catch`, so a network
      error abandons it with nothing changed. */
  datatype AddOutcome = Saved(notice: Notice) | AddRefused | AddUnreachable

  /** `handleAddNotice`: a blank message is refused without a request; a
      non-blank one is sent trimmed. A saved notice goes to the front of the
      list and the input is cleared; a refusal only raises an error. */
  function AddNotice(b: Board, outcome: AddOutcome): (r: (Board, Option<string>))
    ensures r.1.None? <==> Blank(b.input)
    ensures Blank(b.input) ==>
      r.0 == b.(snack := Some(Snack(Error, "Please write a notice message before submitting.")))
    ensures r.1.Some? ==> r.1.value == Trim(b.input) && r.1.value != ""
    ensures r.1.Some? && outcome.Saved? ==>
      && r.0.notices == [outcome.notice] + b.notices
      && r.0.input == ""
      && r.0 == b.(notices := r.0.notices, input := "", snack := Some(Snack(Success, "Notice added successfully!")))
    ensures r.1.Some? && outcome == AddRefused ==>
      r.0 == b.(snack := Some(Snack(Error, "Failed to add notice.")))
    ensures r.1.Some? && outcome == AddUnreachable ==> r.0 == b
  {
    TrimEmptyIffBlank(b.input);
    var message := Trim(b.input);
    if message == [] then
      (b.(snack := Some(Snack(Error, "Please write a notice message before submitting."))), None)
    else
      match outcome
      case Saved(n) =>
        (b.(notices := [n] + b.notices, input := "", snack := Some(Snack(Success, "Notice added successfully!"))), Some(message))
      case AddRefused => (b.(snack := Some(Snack(Error, "Failed to add notice."))), Some(message))
      case AddUnreachable => (b, Some(message))
  }

  /** A saved notice at least as new as every shown one keeps the list in
      newest-first order. */
  lemma AddKeepsNewestFirst(b: Board, n: Notice)
    requires NewestFirst(b.notices)
    requires forall k :: 0 <= k < |b.notices| ==> b.notices[k].date <= n.date
    ensures NewestFirst(AddNotice(b, Saved(n)).0.notices)
  {
    var after := AddNotice(b, Saved(n)).0.notices;
    if after != b.notices {
      assert after == [n] + b.notices;
    }
  }

  /** A published notice clears the input, so publishing again at once is
      refused without a second request. */
  lemma NoSecondAdd(b: Board, n: Notice, second: AddOutcome)
    requires AddNotice(b, Saved(n)).1.Some?
    ensures AddNotice(AddNotice(b, Saved(n)).0, second).1.None?
  {
    assert Blank(AddNotice(b, Saved(n)).0.input);
  }

  /** `handleDeleteClick`: remember the notice and ask for confirmation. */
  function OpenConfirm(b: Board, id: string): (r: Board)
    ensures r.dialogOpen && r.selected == Some(id)
    ensures r.(selected := b.selected, dialogOpen := b.dialogOpen) == b
  {
    b.(selected := Some(id), dialogOpen := true)
  }

  /** `handleClose`: close the dialog and forget the selection. */
  function CloseDialog(b: Board): (r: Board)
    ensures !r.dialogOpen && r.selected.None?
    ensures r.(dialogOpen := b.dialogOpen, selected := b.selected) == b
  {
    b.(dialogOpen := false, selected := None)
  }

  /** `notices.filter(notice => notice._id !== id)` */
  function RemoveById(ns: seq<Notice>, id: string): (r: seq<Notice>)
    ensures IsSubsequence(r, ns)
    ensures forall k :: 0 <= k < |r| ==> r[k].id != id
  {
    if |ns| == 0 then []
    else
      var rest := RemoveById(ns[1..], id);
      if ns[0].id != id then
        var r := [ns[0]] + rest;
        assert r[1..] == rest;
        r
      else rest
  }

  /** Removal drops every copy of the notices with that id and keeps every
      copy of the others. */
  lemma {:induction false} RemoveCount(ns: seq<Notice>, id: string, n: Notice)
    ensures multiset(RemoveById(ns, id))[n] == if n.id == id then 0 else multiset(ns)[n]
  {
    if |ns| > 0 {
      RemoveCount(ns[1..], id, n);
      assert ns == [ns[0]] + ns[1..];
      assert multiset(ns) == multiset{ns[0]} + multiset(ns[1..]);
    }
  }

  /** Removing notices never brings in one newer than a bound on the rest. */
  lemma {:induction false} RemoveBounded(ns: seq<Notice>, id: string, d: int)
    requires forall k :: 0 <= k < |ns| ==> ns[k].date <= d
    ensures forall k :: 0 <= k < |RemoveById(ns, id)| ==> RemoveById(ns, id)[k].date <= d
  {
    if |ns| > 0 {
      RemoveBounded(ns[1..], id, d);
    }
  }

  /** Removing keeps the remaining notices in newest-first order. */
  lemma {:induction false} RemoveKeepsNewestFirst(ns: seq<Notice>, id: string)
    requires NewestFirst(ns)
    ensures NewestFirst(RemoveById(ns, id))
  {
    if |ns| > 0 {
      TailNewestFirst(ns);
      RemoveKeepsNewestFirst(ns[1..], id);
      RemoveBounded(ns[1..], id, ns[0].date);
      if ns[0].id != id {
        PrependNewestFirst(ns[0], RemoveById(ns[1..], id));
      }
    }
  }

  /** How the delete request ended. Again there is no `catch`: a network error
      abandons the handler before the dialog is closed. */
  datatype DeleteOutcome = Removed | RemoveRefused | RemoveUnreachable

  /** `handleConfirmDelete`: with no selection nothing happens; otherwise the
      DELETE is sent, a success drops exactly the notices with that id, and
      the dialog closes with the selection cleared. */
  function ConfirmDelete(b: Board, outcome: DeleteOutcome): (r: (Board, Option<string>))
    ensures b.selected.None? ==> r == (b, None)
    ensures b.selected.Some? ==> r.1 == b.selected
    ensures b.selected.Some? && outcome == Removed ==>
      r.0 == CloseDialog(b).(notices := RemoveById(b.notices, b.selected.value),
                             snack := Some(Snack(Success, "Notice deleted successfully!")))
    ensures b.selected.Some? && outcome == RemoveRefused ==>
      r.0 == CloseDialog(b).(snack := Some(Snack(Error, "Failed to delete notice.")))
    ensures b.selected.Some? && outcome == RemoveUnreachable ==> r.0 == b
  {
    match b.selected
    case None => (b, None)
    case Some(id) =>
      match outcome
      case Removed =>
        var shown := b.(notices := RemoveById(b.notices, id), snack := Some(Snack(Success, "Notice deleted successfully!")));
        (CloseDialog(shown), Some(id))
      case RemoveRefused =>
        (CloseDialog(b.(snack := Some(Snack(Error, "Failed to delete notice.")))), Some(id))
      case RemoveUnreachable => (b, Some(id))
  }

  /** A delete that got a reply closes the dialog and clears the selection,
      so confirming again at once sends nothing. */
  lemma NoSecondDelete(b: Board, first: DeleteOutcome, second: DeleteOutcome)
    requires first != RemoveUnreachable
    ensures var after := ConfirmDelete(b, first).0;
      after.selected.None? && ConfirmDelete(after, second) == (after, None)
  {
  }

  /** The "Sr. No." of row `index`: rows count down. */
  function RowSerial(ns: seq<Notice>, index: nat): int {
    |ns| - index
  }

  /** Row numbers run from the list's length at the top down to 1 at the
      bottom, one apart, so every row gets a distinct number in `1..|ns|`. */
  lemma RowSerialsCountDown(ns: seq<Notice>)
    ensures forall i :: 0 <= i < |ns| ==> 1 <= RowSerial(ns, i) <= |ns|
    ensures |ns| > 0 ==> RowSerial(ns, 0) == |ns| && RowSerial(ns, |ns| - 1) == 1
    ensures forall i, j :: 0 <= i < j < |ns| ==> RowSerial(ns, i) > RowSerial(ns, j)
  {
  }
}
