# BBSCET Coding Club: a verified model of the form, route and table logic

The club site is a React client and an Express server. Most of it is markup wired to
`fetch`, but underneath sits a small amount of deterministic logic, and this project
models that logic in Dafny and proves properties of it:

- the **form validators**: the student signup rules, the admin registration rules and
  the admin login rules, with every regular expression written as a predicate over
  characters (`EmailPattern`, `StudentSignup`, `AdminRegister`, `AdminLogin`);
- the **admin signup and signin routes** against an admin collection held as a
  sequence, with bcrypt's hash and compare passed in as functions and the JWT
  represented by its claims (`AdminRoutes`);
- the **send-email route**: its required-field guard and the mail options it builds
  (`EmailRoute`);
- the **admin dashboard table**: prefix search, pagination and serial numbers, and the
  email and delete dialogs (`StudentTable`);
- the **notice views**: the stable newest-first sort (`Notices`), the admin notice
  board (`NoticeBoard`) and the public board with its "New" tag (`MessageBoard`);
- the **access gating** of the admin tabs (`AdminTabs`) and of the client routes
  (`AppRoutes`).

Shared vocabulary lives in `Basics` (optional values, notifications, local storage),
`Text` (JavaScript whitespace, `trim`, ASCII lower-casing, `startsWith`) and `Seqs`
(subsequences). Network replies, stored tokens and the mail transport's verdict are
inputs to the modelled functions. Nothing in the model performs I/O.

Modelling choices that follow the code rather than a looser reading of it:

- `isAuthenticated` in `client/src/App.js` is React state. It starts `false` and is set
  once, by a mount effect that tests `if (authToken)`, a truthiness test. The routes are
  therefore modelled over that state (`AppRoutes.App`) rather than over local storage:
  - the first render gives every session the visitor's table;
  - a logout that removes `authToken` without a reload leaves the mounted table in place;
  - a stored but empty `authToken` counts as logged out.

  The admin panel's
  `localStorage.getItem('token') !== null` is a presence test, so an empty `token` counts
  as logged in.
- The `.` in the signup password's lookaheads does not match line terminators. The
  regular expression is modelled with that restriction. `ValidatePasswordMatchesRegex`
  shows it makes no difference, because the body class admits no line terminator.
- `#` satisfies the signup password's special-character lookahead but is not in its
  body class, so every password containing `#` is refused (`HashSignRejected`).
- `handleAddNotice` and `handleConfirmDelete` in `Notice.tsx` have no `catch`. A
  network error abandons them with the state untouched: no notification, and the
  dialog stays open.
- The delete guard in `AdminDash.tsx` is `!selectedStudentId`, so an empty id does
  nothing. The guard in `Notice.tsx` is `!== null`, so an empty id is still sent.
- `Message.js` never checks the response status. Any failure, including an error body
  that is not a list, keeps the current notices (initially none).
- JavaScript's `Array.prototype.sort` is stable, so the newest-first order is modelled as
  a stable insertion sort. Sortedness, permutation and stability are all proved.

## Model

| member | source | states |
|---|---|---|
| EmailPattern.IsEmailSound | client/src/components/SignupForm.js:58-61 | every string the computed email check accepts matches `^[^\s@]+@[^\s@]+\.[^\s@]+$` |
| EmailPattern.IsEmailComplete | client/src/components/SignupForm.js:58-61 | every string the email regular expression matches passes the computed check |
| EmailPattern.IsEmailMatchesRegex | client/src/Admin/Register.tsx:51 | the check and the regular expression agree on every string (both directions) |
| EmailPattern.EmailShape | client/src/components/SignupForm.js:59 | an email is valid iff it has no whitespace, exactly one `@`, a non-empty local part, and a `.` in the domain with text on both sides |
| EmailPattern.AdminEmailError | client/src/Admin/Login.tsx:59-66 | the admin forms' email message is empty iff the email is valid; otherwise it is 'Email Address is required' when empty and 'Invalid email format' when not |
| StudentSignup.Set | client/src/components/SignupForm.js:47 | storing a field value changes that field and no other |
| StudentSignup.HandleChange | client/src/components/SignupForm.js:43-49 | a non-digit roll number leaves form and errors unchanged; any other edit stores the value, clears that field's error and keeps every other field, the password-visibility toggle and every other error |
| StudentSignup.RollNumberStaysDigits | client/src/components/SignupForm.js:46-48 | after any sequence of edits from the empty form, the roll number holds only digits |
| StudentSignup.Classify | client/src/components/SignupForm.js:52 | one pass over a password reports exactly whether it contains a lowercase letter, an uppercase letter, a digit and a lookahead special, and whether every character is a body character |
| StudentSignup.LookaheadInBody | client/src/components/SignupForm.js:52 | inside a string of body characters, each `(?=.*[…])` lookahead is plain containment |
| StudentSignup.ValidatePasswordMatchesRegex | client/src/components/SignupForm.js:51-55 | `validatePassword` accepts exactly the passwords whose trimmed form the password regular expression matches |
| StudentSignup.HashSignRejected | client/src/components/SignupForm.js:52 | no password containing `#` is accepted, although `#` satisfies the lookahead |
| StudentSignup.FieldError | client/src/components/SignupForm.js:65-81 | each field gets a message iff it breaks its rule, never an empty one; the sub-field is required only for 'B.Tech'; the roll number must have 10 characters; email and password messages distinguish empty from malformed |
| StudentSignup.ValidateForm | client/src/components/SignupForm.js:63-85 | the error object holds a key exactly for each field whose rule is broken, with that field's message |
| StudentSignup.ValidateFormIff | client/src/components/SignupForm.js:84 | validation passes (no error keys) iff all rules hold, with email and password read as their regular expressions |
| StudentSignup.Submit | client/src/components/SignupForm.js:87-97 | the form data is posted, unchanged, iff validation recorded no error |
| StudentSignup.SubmittedRollNumber | client/src/components/SignupForm.js:75 | a typed form that is posted carries a roll number of exactly ten digits |
| AdminRegister.PasswordError | client/src/Admin/Register.tsx:66-73 | on the trimmed password: 'required' iff blank, else 'at least 8' iff shorter than 8, else the digit/special message iff a digit or one of `!@#$%^&*` is missing, else no error |
| AdminRegister.AdminIdError | client/src/Admin/Register.tsx:74-79 | no error iff the id is `ADB` and five digits; 'required' when empty; the pattern message otherwise |
| AdminRegister.AdminIdShape | client/src/Admin/Register.tsx:52 | an accepted admin id has length 8, starts `A`,`D`,`B` and ends in five decimal digits |
| AdminRegister.ValidateRegister | client/src/Admin/Register.tsx:43-82 | each name field gets exactly 'First Name is required' / 'Last Name is required' iff empty, and no message otherwise; email, password and admin id get their own messages, checked independently |
| AdminRegister.SubmitRegister | client/src/Admin/Register.tsx:84-102 | with any non-empty message the errors are shown and nothing is sent; otherwise the errors are reset and the five raw fields (password untrimmed) are posted |
| AdminRegister.RegisterSendsIff | client/src/Admin/Register.tsx:89-102 | the signup request is sent iff both names are non-empty, the email matches the regular expression, the trimmed password is strong enough and the admin id matches `^ADB[0-9]{5}$` |
| AdminLogin.ValidateLogin | client/src/Admin/Login.tsx:54-74 | the email gets the admin email message; the password errs iff empty, with no trim and no strength rule |
| AdminLogin.SubmitLogin | client/src/Admin/Login.tsx:76-91 | the request is sent iff both messages are empty; it then carries exactly the email and password and the errors are reset |
| AdminLogin.LoginSendsIff | client/src/Admin/Login.tsx:81-91 | the signin request is sent iff the email matches the regular expression and the password is non-empty |
| AdminRoutes.FindByEmail | server/routes/adminRoutes.js:53 | finds an admin with the email iff one is stored, and what it finds is stored with that email |
| AdminRoutes.Signup | server/routes/adminRoutes.js:9-40 | 400 iff the email or admin id is taken, with the both/email/id message chosen by which; a refusal leaves the store unchanged; success appends exactly one admin holding the hashed password and answers 201 |
| AdminRoutes.SignupPreservesUniqueKeys | server/routes/adminRoutes.js:14-39 | signup keeps emails and admin ids unique across the store |
| AdminRoutes.Signin | server/routes/adminRoutes.js:48-74 | 401 'Invalid email!' iff no admin has the email; 401 'Invalid password!' iff one does but the comparison fails; otherwise 200 with a token whose claims carry the id of the admin `findOne` returned (the one whose password was compared), the email and a one-hour lifetime |
| AdminRoutes.SigninIdentifiesAdmin | server/routes/adminRoutes.js:65-69 | with unique emails, a successful signin's claims name the one admin holding that email |
| AdminRoutes.SignupThenSignin | server/routes/adminRoutes.js:29-69 | after a successful signup, signing in with the same email and password succeeds with the new admin's claims, given that a hash matches its own password |
| EmailRoute.SendEmail | server/routes/emailRoutes.js:8-40 | 400 with nothing sent iff `from`, `to` or `content` is missing or empty; otherwise the options copy `from` and `to`, carry `content` as text and the fixed subject, and the reply is 200 or 500 by the transport's verdict |
| EmailRoute.SubjectIgnored | server/routes/emailRoutes.js:9-31 | the requested subject never changes the reply, and sent mail always has 'Message from Admin' as subject |
| StudentTable.FilterStudents | client/src/Admin/AdminDash.tsx:165-169 | the filtered list is an order-preserving subsequence holding exactly the matching students, each as often as in the input |
| StudentTable.EmptyQueryMatches | client/src/Admin/AdminDash.tsx:166-167 | the empty query matches a student iff it has at least one field |
| StudentTable.EmptyQueryKeepsAll | client/src/Admin/AdminDash.tsx:165-169 | with the empty query every student that has fields is shown, in order |
| StudentTable.NarrowingMatch | client/src/Admin/AdminDash.tsx:167 | a student matching a query also matches every query the first one extends |
| StudentTable.NarrowingQuery | client/src/Admin/AdminDash.tsx:165-169 | extending the query yields a subsequence of the previous result |
| StudentTable.Slice | client/src/Admin/AdminDash.tsx:171 | `slice` clamps both bounds to the length and gives nothing for an empty range |
| StudentTable.PageRows | client/src/Admin/AdminDash.tsx:171 | a page has at most `rowsPerPage` rows, is empty from `page*rowsPerPage ≥ length` on, and holds the rows from offset `page*rowsPerPage` |
| StudentTable.SerialIsPosition | client/src/Admin/AdminDash.tsx:267 | the serial number `page*rowsPerPage+index+1` is the row's 1-based position in the filtered list |
| StudentTable.PagesCover | client/src/Admin/AdminDash.tsx:171 | the first n pages laid end to end are exactly the first n·rowsPerPage rows, so paging loses and repeats nothing |
| StudentTable.ChangePage | client/src/Admin/AdminDash.tsx:156-158 | a page change sets the page and nothing else |
| StudentTable.ChangePageShows | client/src/Admin/AdminDash.tsx:156-171 | after a page change the table shows the new page of the filtered students, with query and page size unchanged. By `PageRows` that is at most one page of rows, starting at offset `page*rowsPerPage` |
| StudentTable.SearchChange | client/src/Admin/AdminDash.tsx:152-154 | a search sets the query and nothing else, the page included |
| StudentTable.SearchKeepsPage | client/src/Admin/AdminDash.tsx:152-171 | a search never resets the page, so when fewer students match than the rows before the current page, the table shows no rows |
| StudentTable.NarrowedSearchEmptyPage | client/src/Admin/AdminDash.tsx:152-171 | on page 1 with one row per page, two students show one row, and narrowing the search to one match leaves the table empty |
| StudentTable.ChangeRowsPerPage | client/src/Admin/AdminDash.tsx:160-163 | a new page size always resets the page to 0 and changes nothing else |
| StudentTable.OpenEmailDialog | client/src/Admin/AdminDash.tsx:70-73 | picking a student opens the email dialog with that address selected and changes nothing else |
| StudentTable.SendEmail | client/src/Admin/AdminDash.tsx:75-115 | a blank subject or content raises the error and sends nothing; otherwise the request carries sender, selected address, subject and content, and the dialog closes with both inputs cleared whatever the outcome |
| StudentTable.NoSecondSend | client/src/Admin/AdminDash.tsx:109-113 | after a send attempt, sending again at once is refused without a request |
| StudentTable.DashboardMailPassesRoute | client/src/Admin/AdminDash.tsx:84-95 | a request the dashboard sends for a selected address passes the server's required-field guard and the mail goes out with the server's fixed subject |
| StudentTable.OpenConfirm | client/src/Admin/AdminDash.tsx:121-124 | a delete click selects the id and opens the confirmation, changing nothing else |
| StudentTable.ConfirmDelete | client/src/Admin/AdminDash.tsx:126-150 | with no (or an empty) selected id nothing happens; otherwise the DELETE is sent for that id, the list is refetched iff it succeeded, and the dialog closes with the selection cleared |
| StudentTable.NoSecondDelete | client/src/Admin/AdminDash.tsx:146-149 | after a delete attempt, confirming again at once does nothing |
| Notices.Insert | client/src/Admin/Notice.tsx:52 | inserting into a newest-first list keeps it newest first and adds exactly the one notice |
| Notices.SortNewestFirst | client/src/components/Message.js:22 | the sort returns a permutation of its input in non-increasing date order |
| Notices.InsertWithDate | client/src/Admin/Notice.tsx:52 | insertion puts a notice in front of those sharing its date and leaves other dates alone |
| Notices.SortStable | client/src/Admin/Notice.tsx:52 | notices with equal dates keep their relative order |
| Notices.NewestComesFirst | client/src/Admin/Notice.tsx:52 | a notice newer than all others comes out first |
| NoticeBoard.LoadNotices | client/src/Admin/Notice.tsx:43-60 | a received list is shown sorted newest first as a permutation and clears the error; a failure records its reason and keeps the list |
| NoticeBoard.LoadKeepsDateOrder | client/src/Admin/Notice.tsx:52-54 | the shown list keeps the server order among notices of one date (the sort is stable) |
| NoticeBoard.AddNotice | client/src/Admin/Notice.tsx:64-94 | a blank message is refused without a request; otherwise the trimmed message is sent; a saved notice is prepended with the rest unchanged and the input cleared; a refusal changes only the notification; a network error changes nothing |
| NoticeBoard.AddKeepsNewestFirst | client/src/Admin/Notice.tsx:80 | prepending a saved notice at least as new as the shown ones keeps the list newest first |
| NoticeBoard.NoSecondAdd | client/src/Admin/Notice.tsx:79-81 | after a notice is saved, publishing again at once is refused without a request |
| NoticeBoard.OpenConfirm | client/src/Admin/Notice.tsx:97-100 | a delete click selects the id and opens the dialog, changing nothing else |
| NoticeBoard.CloseDialog | client/src/Admin/Notice.tsx:124-127 | closing shuts the dialog, clears the selection and changes nothing else |
| NoticeBoard.RemoveById | client/src/Admin/Notice.tsx:110 | the result is an order-preserving subsequence of the list and holds no notice with that id |
| NoticeBoard.RemoveCount | client/src/Admin/Notice.tsx:110 | every notice with another id is kept as often as it occurs, and every copy of the removed id is gone |
| NoticeBoard.RemoveKeepsNewestFirst | client/src/Admin/Notice.tsx:110 | removal keeps a newest-first list newest first |
| NoticeBoard.ConfirmDelete | client/src/Admin/Notice.tsx:103-121 | with no selection nothing happens; otherwise the DELETE is sent; success removes exactly that id; a refusal leaves the list; both close the dialog and clear the selection; a network error changes nothing |
| NoticeBoard.NoSecondDelete | client/src/Admin/Notice.tsx:119 | after a delete that got a reply, confirming again at once sends nothing |
| NoticeBoard.RowSerialsCountDown | client/src/Admin/Notice.tsx:189 | row numbers are distinct, run from the list length at the top down to 1 at the bottom |
| MessageBoard.LoadFeed | client/src/components/Message.js:17-29 | loading always ends; a received list is shown as its newest-first permutation; a failure keeps the current list |
| MessageBoard.FeedKeepsDateOrder | client/src/components/Message.js:17-29 | the shown list keeps the server order among notices of one date (the sort is stable) |
| MessageBoard.Render | client/src/components/Message.js:108-143 | a spinner iff loading; otherwise every notice in order with only the first tagged "New", or the fallback text when there are none |
| MessageBoard.FirstLoadShowsNewest | client/src/components/Message.js:22-27 | after the first load the board never shows the spinner, a failure shows the fallback, and a non-empty list shows its newest notice first under "New" |
| AdminTabs.TabPanel | client/src/Admin/Main.tsx:23-41 | a panel renders its children iff the selected value is its index |
| AdminTabs.TabContent | client/src/Admin/Main.tsx:80-122 | Register and Login show their forms iff not logged in; Dashboard and Notice show their content iff logged in; a refusal text otherwise |
| AdminTabs.RenderedIsSelectedTab | client/src/Admin/Main.tsx:80-122 | exactly the selected tab's gated content is rendered, and nothing for a value outside the four tabs |
| AdminTabs.ChangeTabShows | client/src/Admin/Main.tsx:54-56 | after selecting a tab, the panel shows that tab's content as gated by the admin token |
| AppRoutes.Routes | client/src/App.js:36-66 | `/` and `/admin` are declared in every session state |
| AppRoutes.FindAt | client/src/App.js:36-66 | route lookup returns the first route declared for the path |
| AppRoutes.FindNone | client/src/App.js:36-66 | route lookup finds nothing for an undeclared path |
| AppRoutes.RouteTable | client/src/App.js:20-66 | once the mount effect has read local storage: `/` and `/admin` always route; login, signup and password reset route iff not authenticated; `/dashboard` routes iff authenticated, otherwise the catch-all redirects home |
| AppRoutes.VisitorRoutes | client/src/App.js:49-62 | the visitor's table: the three visitor pages, a redirect for `/dashboard` and any other path |
| AppRoutes.StudentRoutes | client/src/App.js:58-59 | the authenticated table: the dashboard, and no page for the visitor paths |
| AppRoutes.FirstRenderIsVisitor | client/src/App.js:18 | before the mount effect every session is routed with the visitor's table, so `/dashboard` hits the redirect whatever is stored |
| AppRoutes.DirectDashboardLandsHome | client/src/App.js:18-62 | a load of `/dashboard` ends on the home page even for an authenticated student, because the first render's redirect runs before the mount effect |
| AppRoutes.StaleAfterLogout | client/src/components/Menu.js:106-110 | after a logout that removes `authToken` without a reload, the mounted state still routes the dashboard and no login page; only a new mount restores the visitor's table |
| AppRoutes.SessionsIndependent | client/src/App.js:20-28 | student authentication ignores the admin `token` key, and the admin login state ignores `authToken` |

## Left out

- Rendering: JSX, MUI styling, dialogs' looks, snackbar auto-hide timing, and the scroll animation. These are presentation only.
- `client/src/components/Menu.js` is modelled only in its logout's effect on `authToken` (`StaleAfterLogout`). Its own login display and its network calls are not modelled. `ClientDashboard.js`, `Footer.js` and `Carousel.js` hold no logic the routes depend on.
- Network calls, `localStorage` writes (the login storing `token`, the dashboard logout removing it), `setTimeout` page reloads and `navigate`. Replies and stored keys are inputs instead.
- `fetchStudents` in `AdminDash.tsx` and the jwt-decode display of the admin's name and email. These are fetch and decoding plumbing; the student list is an input of the filter.
- The client's handling of the signup and login replies (snackbar texts, page reloads, navigation). This is presentation driven by the server's message.
- The 500 'Internal server error' paths of `server/routes/adminRoutes.js`, raised when the database or bcrypt throws. These are I/O failures outside the model.
- bcrypt itself: `hash` and `compare` are function parameters, and the cost factor of 10 is not modelled. JWT signing with its secret is represented by the claims record.
- The nodemailer transport and its credentials: whether delivery succeeded is an input.
- MongoDB persistence: the admin collection is a sequence; atomicity of the duplicate check against concurrent signups is not modelled.
- Request bodies whose fields are not strings (numbers, objects) are not modelled. Only the `/send-email` route (`EmailRoute.MailRequest`) models an absent field.
- AdminRoutes.Signup and AdminRoutes.Signin: their request fields are plain strings, so a `/signup` or `/signin` body missing a field is not modelled. The source would pass `undefined` to `findOne` and store or compare it.
- `Date` parsing: notice dates are integers, so an unparsable date is not modelled.
- React Router's case-insensitive matching and trailing-slash tolerance: paths are compared as exact strings.
- StudentTable.FilterStudents: lower-cases ASCII letters only, not the full Unicode `toLowerCase`, and takes each field value already converted by `String(value)`.
- AdminRegister.PasswordError: counts Unicode code points where JavaScript's `length` counts UTF-16 code units, so a password with characters outside the Basic Multilingual Plane can be judged long enough by the source and too short here.
- StudentSignup.FieldError: the 10-character roll-number rule counts code points rather than UTF-16 code units. This makes no difference for the digit-only values the change handler admits.
- NoticeBoard.AddNotice: modelled as one atomic step from the state at the click. Overlapping runs are not modelled. In the source the prepend at `Notice.tsx:80` writes back the list captured at the click, so a mount fetch that finished during the await is overwritten. The input is cleared only after the reply, so a second click before then posts again, and `NoSecondAdd` holds only while one request is in flight.
- NoticeBoard.ConfirmDelete: modelled as one atomic step. The filter at `Notice.tsx:110` runs on the list captured at the click. The selection is cleared only after the reply, so `NoSecondDelete` holds only while one request is in flight.
- StudentTable.SendEmail: modelled as one atomic step. The inputs are cleared in `finally`, after the reply, so a second click before then sends again, and `NoSecondSend` holds only while one request is in flight.
- StudentTable.ConfirmDelete: modelled as one atomic step. The selection is cleared in `finally`, after the reply, so a second confirm before then sends a second DELETE, and `NoSecondDelete` holds only while one request is in flight.
- StudentTable.SenderAddress: the dashboard's fixed sender is a placeholder address rather than the source's literal account. No property depends on its value.
