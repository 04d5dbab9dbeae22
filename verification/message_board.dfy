/** The public notice board on the landing page
    (`client/src/components/Message.js`): notices sorted newest first, the
    newest tagged "New", and a fallback text for an empty board. */
module MessageBoard {
  import opened Basics
  import opened Notices

  /** The component state. */
  datatype Feed = Feed(loading: bool, notices: seq<Notice>)

  const InitialFeed := Feed(true, [])

  /** `fetchNotices`: a received list is sorted newest first and shown; any
      failure (the handler does not look at the status, so this includes an
      error body that is not a list) keeps the current list. Either way the
      spinner stops. */
  function LoadFeed(f: Feed, received: Option<seq<Notice>>): (r: Feed)
    ensures !r.loading
    ensures received.Some? ==> NewestFirst(r.notices) && multiset(r.notices) == multiset(received.value)
    ensures received.None? ==> r.notices == f.notices
  {
    match received
    case Some(data) => Feed(false, SortNewestFirst(data))
    case None => f.(loading := false)
  }

  /** The received list is shown in the stable order: notices sharing a
      date appear in the order the server sent them. */
  lemma FeedKeepsDateOrder(f: Feed, data: seq<Notice>, d: int)
    ensures WithDate(LoadFeed(f, Some(data)).notices, d) == WithDate(data, d)
  {
    SortStable(data, d);
  }

  /** One rendered line of the board. */
  datatype Line = Line(isNew: bool, message: string, date: int)

  /** What the board shows. */
  datatype View = Spinner | Lines(lines: seq<Line>) | Fallback(text: string)

  /** The render: a spinner while loading, the notices in order with only the
      first tagged "New", or the fallback text when there are none. */
  function Render(f: Feed): (v: View)
    ensures f.loading <==> v == Spinner
    ensures !f.loading && |f.notices| == 0 ==> v == Fallback("No any message available!")
    ensures !f.loading && |f.notices| > 0 ==>
      && v.Lines? && |v.lines| == |f.notices|
      && (forall i :: 0 <= i < |v.lines| ==> (v.lines[i].isNew <==> i == 0))
      && (forall i :: 0 <= i < |v.lines| ==> v.lines[i].message == f.notices[i].message && v.lines[i].date == f.notices[i].date)
  {
    if f.loading then Spinner
    else if |f.notices| > 0 then
      var newest := Line(true, f.notices[0].message, f.notices[0].date);
      var older := seq(|f.notices| - 1, i requires 0 <= i < |f.notices| - 1 =>
        Line(false, f.notices[1..][i].message, f.notices[1..][i].date));
      Lines([newest] + older)
    else Fallback("No any message available!")
  }

  /** After the first load the board is never stuck on the spinner, and a
      non-empty list puts its newest notice first under the "New" tag. */
  lemma {:induction false} FirstLoadShowsNewest(received: Option<seq<Notice>>)
    ensures Render(LoadFeed(InitialFeed, received)) != Spinner
    ensures received.None? ==> Render(LoadFeed(InitialFeed, received)) == Fallback("No any message available!")
    ensures received.Some? && |received.value| > 0 ==>
      var v := Render(LoadFeed(InitialFeed, received));
      && v.Lines? && v.lines[0].isNew
      && forall k :: 0 <= k < |received.value| ==> received.value[k].date <= v.lines[0].date
  {
    if received.Some? && |received.value| > 0 {
      var data := received.value;
      var sorted := LoadFeed(InitialFeed, received).notices;
      forall k | 0 <= k < |data|
        ensures data[k].date <= sorted[0].date
      {
        assert data[k] in multiset(data);
        assert data[k] in multiset(sorted);
        var j :| 0 <= j < |sorted| && sorted[j] == data[k];
      }
    }
  }
}
