/** The admin dashboard (`client/src/Admin/AdminDash.tsx`): prefix search
    over the student list, pagination with serial numbers, and the state
    changes of the email and delete dialogs. Network replies are inputs. */
module StudentTable {
  import opened Basics
  import opened Text
  import opened Seqs
  import EmailRoute

  /** A student as the table sees it: `String(value)` of every field value of
      the fetched record, in field order. */
  datatype Student = Student(values: seq<string>)

  /** The search rule: some field value, lower-cased, starts with the
      lower-cased query. */
  predicate MatchesQuery(s: Student, query: string) {
    exists k :: 0 <= k < |s.values| && StartsWith(Lower(s.values[k]), Lower(query))
  }

  /** `filteredStudents`: exactly the matching students, each as often as it
      occurs, in their original order. */
  function FilterStudents(students: seq<Student>, query: string): (r: seq<Student>)
    ensures IsSubsequence(r, students)
    ensures forall k :: 0 <= k < |r| ==> MatchesQuery(r[k], query)
    ensures forall s :: multiset(r)[s] == if MatchesQuery(s, query) then multiset(students)[s] else 0
  {
    if |students| == 0 then []
    else
      var rest := FilterStudents(students[1..], query);
      assert students == [students[0]] + students[1..];
      assert multiset(students) == multiset{students[0]} + multiset(students[1..]);
      if MatchesQuery(students[0], query) then
        var r := [students[0]] + rest;
        assert r[1..] == rest;
        r
      else rest
  }

  /** An empty query matches a student exactly when it has some field. */
  lemma EmptyQueryMatches(s: Student)
    ensures MatchesQuery(s, "") <==> |s.values| > 0
  {
    if |s.values| > 0 {
      assert StartsWith(Lower(s.values[0]), Lower(""));
    }
  }

  /** With an empty query, a list of students that all have fields is shown
      in full. */
  lemma {:induction false} EmptyQueryKeepsAll(students: seq<Student>)
    requires forall k :: 0 <= k < |students| ==> |students[k].values| > 0
    ensures FilterStudents(students, "") == students
  {
    if |students| > 0 {
      EmptyQueryMatches(students[0]);
      EmptyQueryKeepsAll(students[1..]);
    }
  }

  /** A longer query that extends a shorter one matches fewer students. */
  lemma NarrowingMatch(s: Student, short: string, long: string)
    requires StartsWith(Lower(long), Lower(short))
    requires MatchesQuery(s, long)
    ensures MatchesQuery(s, short)
  {
    var k :| 0 <= k < |s.values| && StartsWith(Lower(s.values[k]), Lower(long));
    var v, l, sh := Lower(s.values[k]), Lower(long), Lower(short);
    assert v[..|sh|] == v[..|l|][..|sh|];
  }

  /** Typing more of a query only ever removes rows: the narrower result is a
      subsequence of the wider one. */
  lemma {:induction false} NarrowingQuery(students: seq<Student>, short: string, long: string)
    requires StartsWith(Lower(long), Lower(short))
    ensures IsSubsequence(FilterStudents(students, long), FilterStudents(students, short))
  {
    if |students| > 0 {
      var s := students[0];
      NarrowingQuery(students[1..], short, long);
      var wide, narrow := FilterStudents(students[1..], short), FilterStudents(students[1..], long);
      if MatchesQuery(s, long) {
        NarrowingMatch(s, short, long);
        assert ([s] + narrow)[1..] == narrow && ([s] + wide)[1..] == wide;
      } else if MatchesQuery(s, short) {
        assert ([s] + wide)[1..] == wide;
        if |narrow| > 0 {
          assert IsSubsequence(narrow, ([s] + wide)[1..]);
        }
      }
    }
  }

  // ----- pagination ---------------------------------------------------------

  /** `Array.prototype.slice(start, end)` for non-negative bounds: both are
      clamped to the length and an empty range gives an empty array. */
  function Slice<T>(xs: seq<T>, start: nat, end: nat): (r: seq<T>)
    ensures start >= |xs| || end <= start ==> r == []
    ensures start < |xs| && start < end ==> r == xs[start..if end < |xs| then end else |xs|]
  {
    var s := if start < |xs| then start else |xs|;
    var e := if end < |xs| then end else |xs|;
    if s < e then xs[s..e] else []
  }

  /** `paginatedStudents`: the rows shown on page `page`. At most
      `rowsPerPage` of them, empty past the end, and each is the filtered
      student at offset `page * rowsPerPage` onwards. */
  function PageRows<T>(xs: seq<T>, page: nat, rowsPerPage: nat): (r: seq<T>)
    ensures |r| <= rowsPerPage
    ensures page * rowsPerPage >= |xs| ==> r == []
    ensures page * rowsPerPage < |xs| ==>
      |r| == (if |xs| - page * rowsPerPage < rowsPerPage then |xs| - page * rowsPerPage else rowsPerPage)
    ensures forall i :: 0 <= i < |r| ==> page * rowsPerPage + i < |xs| && r[i] == xs[page * rowsPerPage + i]
  {
    Slice(xs, page * rowsPerPage, page * rowsPerPage + rowsPerPage)
  }

  /** The "Sr. No." cell of row `index` on a page. */
  function SerialNumber(page: nat, rowsPerPage: nat, index: nat): nat {
    page * rowsPerPage + index + 1
  }

  /** The serial number of a row is its 1-based position in the filtered
      list. */
  lemma SerialIsPosition<T>(xs: seq<T>, page: nat, rowsPerPage: nat, index: nat)
    requires index < |PageRows(xs, page, rowsPerPage)|
    ensures 1 <= SerialNumber(page, rowsPerPage, index) <= |xs|
    ensures xs[SerialNumber(page, rowsPerPage, index) - 1] == PageRows(xs, page, rowsPerPage)[index]
  {
  }

  /** `x` clamped to the length `len`, as `slice` clamps its bounds. */
  function Clamp(x: nat, len: nat): nat {
    if x < len then x else len
  }

  /** A window of `size` rows at `offset` continues the rows before it. */
  lemma WindowExtends<T>(xs: seq<T>, offset: nat, size: nat)
    ensures Clamp(offset, |xs|) <= Clamp(offset + size, |xs|)
    ensures xs[..Clamp(offset + size, |xs|)] == xs[..Clamp(offset, |xs|)] + Slice(xs, offset, offset + size)
  {
    assert xs[..Clamp(offset + size, |xs|)]
      == xs[..Clamp(offset, |xs|)] + xs[Clamp(offset, |xs|)..Clamp(offset + size, |xs|)];
  }

  /** The offset of page `n` is one page past the offset of page `n - 1`. */
  lemma NextOffset(n: nat, rowsPerPage: nat)
    requires n > 0
    ensures (n - 1) * rowsPerPage + rowsPerPage == n * rowsPerPage
  {
  }

  /** The first `n` pages, one after the other. */
  function Pages<T>(xs: seq<T>, rowsPerPage: nat, n: nat): seq<T> {
    if n == 0 then [] else Pages(xs, rowsPerPage, n - 1) + PageRows(xs, n - 1, rowsPerPage)
  }

  /** Paging neither loses nor repeats a row: the first `n` pages laid end to
      end are the first `n * rowsPerPage` rows of the list. */
  lemma {:induction false} PagesCover<T>(xs: seq<T>, rowsPerPage: nat, n: nat)
    ensures Pages(xs, rowsPerPage, n) == xs[..Clamp(n * rowsPerPage, |xs|)]
  {
    if n > 0 {
      PagesCover(xs, rowsPerPage, n - 1);
      var lo := (n - 1) * rowsPerPage;
      NextOffset(n, rowsPerPage);
      WindowExtends(xs, lo, rowsPerPage);
    }
  }

  // ----- dialogs --------------------------------------------------------

  /** The dashboard's own state: pagination, search, the email dialog, the
      delete confirmation, and the notification on display. */
  datatype Dash = Dash(
    page: nat, rowsPerPage: nat, query: string,
    emailOpen: bool, selectedEmail: Option<string>, subject: string, content: string,
    confirmOpen: bool, selectedId: Option<string>,
    snack: Option<Snack>)

  /** `paginatedStudents`: the rows the table shows for the dashboard's
      current query, page and page size. */
  function ShownRows(students: seq<Student>, d: Dash): seq<Student> {
    PageRows(FilterStudents(students, d.query), d.page, d.rowsPerPage)
  }

  /** `handleSearchChange`: the query changes and nothing else, the page
      included. */
  function SearchChange(d: Dash, query: string): (r: Dash)
    ensures r.query == query
    ensures r.(query := d.query) == d
  {
    d.(query := query)
  }

  /** A search keeps the current page, so one that leaves fewer matches than
      the rows before that page shows an empty table. */
  lemma SearchKeepsPage(students: seq<Student>, d: Dash, query: string)
    ensures SearchChange(d, query).page == d.page
    ensures d.page * d.rowsPerPage >= |FilterStudents(students, query)| ==>
      ShownRows(students, SearchChange(d, query)) == []
  {
  }

  /** A dashboard on page 1 with one student per page, whose narrowed search
      matches a single student, shows no rows at all. */
  lemma NarrowedSearchEmptyPage()
    ensures var d := Dash(1, 1, "", false, None, "", "", false, None, None);
      var students := [Student(["ann"]), Student(["bob"])];
      |ShownRows(students, d)| == 1
      && |FilterStudents(students, "a")| == 1
      && ShownRows(students, SearchChange(d, "a")) == []
  {
    var students := [Student(["ann"]), Student(["bob"])];
    assert students[0].values[0] == "ann" && students[1].values[0] == "bob";
    assert StartsWith(Lower("ann"), Lower("")) && StartsWith(Lower("bob"), Lower(""));
    assert StartsWith(Lower("ann"), Lower("a"));
    assert !MatchesQuery(students[1], "a") by {
      assert Lower("bob")[0] == 'b';
    }
    assert students[1..][1..] == [];
  }

  /** `handleChangePage`: the page changes and nothing else. */
  function ChangePage(d: Dash, page: nat): (r: Dash)
    ensures r.page == page
    ensures r.(page := d.page) == d
  {
    d.(page := page)
  }

  /** After a page change the table shows the page of the filtered students
      for the new page number, at the unchanged query and page size. */
  lemma ChangePageShows(students: seq<Student>, d: Dash, page: nat)
    ensures ShownRows(students, ChangePage(d, page)) == PageRows(FilterStudents(students, d.query), page, d.rowsPerPage)
    ensures ChangePage(d, page).query == d.query && ChangePage(d, page).rowsPerPage == d.rowsPerPage
  {
  }

  /** `handleChangeRowsPerPage`: a new page size always sends the table back
      to the first page. */
  function ChangeRowsPerPage(d: Dash, rowsPerPage: nat): (r: Dash)
    ensures r.page == 0 && r.rowsPerPage == rowsPerPage
    ensures r.(page := d.page, rowsPerPage := d.rowsPerPage) == d
  {
    d.(rowsPerPage := rowsPerPage, page := 0)
  }

  /** `handleSend`: open the email dialog for one student. */
  function OpenEmailDialog(d: Dash, email: string): (r: Dash)
    ensures r.emailOpen && r.selectedEmail == Some(email)
    ensures r.(selectedEmail := d.selectedEmail, emailOpen := d.emailOpen) == d
  {
    d.(selectedEmail := Some(email), emailOpen := true)
  }

  /** The dashboard's fixed sender address (a placeholder for the configured
      account). */
  const SenderAddress := "admin@example.org"

  /** The JSON body of the send request; `to` is `null` when no student was
      picked. */
  datatype EmailBody = EmailBody(from: string, to: Option<string>, subject: string, content: string)

  /** How the send request ended. */
  datatype SendOutcome = SendOk | SendNotFound | SendFailed | SendUnreachable(reason: string)

  /** `handleSendEmail`: a blank subject or content raises an error and sends
      nothing, leaving the dialog as it is; otherwise the request is sent and,
      whatever the outcome, the dialog closes and both inputs are cleared. */
  function SendEmail(d: Dash, outcome: SendOutcome): (r: (Dash, Option<EmailBody>))
    ensures r.1.None? <==> Blank(d.subject) || Blank(d.content)
    ensures r.1.None? ==> r.0 == d.(snack := Some(Snack(Error, "Email subject and content cannot be empty.")))
    ensures r.1.Some? ==>
      && r.1.value == EmailBody(SenderAddress, d.selectedEmail, d.subject, d.content)
      && !r.0.emailOpen && r.0.subject == "" && r.0.content == ""
      && r.0.snack.Some?
      && (r.0.snack.value.severity == Success <==> outcome == SendOk)
      && r.0 == d.(emailOpen := false, subject := "", content := "", snack := r.0.snack)
  {
    TrimEmptyIffBlank(d.subject);
    TrimEmptyIffBlank(d.content);
    if Trim(d.subject) == [] || Trim(d.content) == [] then
      (d.(snack := Some(Snack(Error, "Email subject and content cannot be empty."))), None)
    else
      var snack := match outcome
        case SendOk => Snack(Success, "Email sent successfully.")
        case SendNotFound => Snack(Error, "Email address not found.")
        case SendFailed => Snack(Error, "Failed to send email!")
        case SendUnreachable(reason) => Snack(Error, reason);
      (d.(snack := Some(snack), emailOpen := false, content := "", subject := ""),
       Some(EmailBody(SenderAddress, d.selectedEmail, d.subject, d.content)))
  }

  /** The body the dashboard sends, as the server route reads it. */
  function AsMailRequest(body: EmailBody): EmailRoute.MailRequest {
    EmailRoute.MailRequest(Some(body.from), body.to, Some(body.subject), Some(body.content))
  }

  /** A request the dashboard lets through always passes the server's
      required-field guard once a student's address is selected, and the
      mail goes out with the server's fixed subject, not the one typed. */
  lemma DashboardMailPassesRoute(d: Dash, outcome: SendOutcome, delivered: bool)
    requires d.selectedEmail.Some? && d.selectedEmail.value != ""
    requires SendEmail(d, outcome).1.Some?
    ensures EmailRoute.SendEmail(AsMailRequest(SendEmail(d, outcome).1.value), delivered).status != 400
    ensures EmailRoute.SendEmail(AsMailRequest(SendEmail(d, outcome).1.value), delivered).sent
         == Some(EmailRoute.MailOptions(SenderAddress, d.selectedEmail.value, EmailRoute.FixedSubject, d.content))
  {
    assert !Blank(d.content);
    assert d.content != "";
  }

  /** A completed send clears both inputs, so pressing Send again at once is
      refused without a second request. */
  lemma NoSecondSend(d: Dash, first: SendOutcome, second: SendOutcome)
    requires SendEmail(d, first).1.Some?
    ensures SendEmail(SendEmail(d, first).0, second).1.None?
  {
    assert Blank(SendEmail(d, first).0.subject);
  }

  /** `handleDeleteClick`: remember the student and ask for confirmation. */
  function OpenConfirm(d: Dash, id: string): (r: Dash)
    ensures r.confirmOpen && r.selectedId == Some(id)
    ensures r.(selectedId := d.selectedId, confirmOpen := d.confirmOpen) == d
  {
    d.(selectedId := Some(id), confirmOpen := true)
  }

  /** How the delete request ended. */
  datatype DeleteOutcome = Deleted | DeleteRefused | DeleteUnreachable(reason: string)

  /** What `confirmDelete` leaves behind: the new state, the id a DELETE was
      sent for, and whether the student list is fetched again. */
  datatype DeleteEffect = DeleteEffect(dash: Dash, request: Option<string>, refetch: bool)

  /** `confirmDelete`: with no selected id (or an empty one) nothing happens;
      otherwise the DELETE is sent, the list is refreshed only on success, and
      in every case the dialog closes and the selection is cleared. */
  function ConfirmDelete(d: Dash, outcome: DeleteOutcome): (r: DeleteEffect)
    ensures d.selectedId.None? || d.selectedId == Some("") ==> r == DeleteEffect(d, None, false)
    ensures d.selectedId.Some? && d.selectedId.value != "" ==>
      && r.request == d.selectedId
      && (r.refetch <==> outcome == Deleted)
      && !r.dash.confirmOpen && r.dash.selectedId.None?
      && r.dash.snack.Some?
      && r.dash == d.(confirmOpen := false, selectedId := None, snack := r.dash.snack)
  {
    if d.selectedId.None? || d.selectedId.value == "" then DeleteEffect(d, None, false)
    else
      var snack := match outcome
        case Deleted => Snack(Success, "Student deleted successfully.")
        case DeleteRefused => Snack(Error, "Failed to delete student!")
        case DeleteUnreachable(reason) => Snack(Error, reason);
      DeleteEffect(d.(snack := Some(snack), confirmOpen := false, selectedId := None),
                   d.selectedId, outcome == Deleted)
  }

  /** An attempted delete clears the selection, so confirming again at once
      sends nothing and changes nothing. */
  lemma NoSecondDelete(d: Dash, first: DeleteOutcome, second: DeleteOutcome)
    requires ConfirmDelete(d, first).request.Some?
    ensures var after := ConfirmDelete(d, first).dash;
      ConfirmDelete(after, second) == DeleteEffect(after, None, false)
  {
  }
}
