/** The student registration form (`client/src/components/SignupForm.js`):
    the field editor with its roll-number filter, the password and email
    rules, and the whole-form validation that gates submission. */
module StudentSignup {
  import opened Basics
  import opened Text
  import opened EmailPattern

  /** The named inputs of the form. */
  datatype Field = FirstName | LastName | Email | Course | SubField | Year | RollNumber | Gender | Password

  /** The form's state object; `showPassword` only toggles the password mask. */
  datatype StudentForm = StudentForm(
    firstName: string, lastName: string, email: string, course: string,
    subField: string, year: string, rollNumber: string, gender: string,
    password: string, showPassword: bool)

  /** Error messages keyed by field; a key is present only when it was set. */
  type Errors = map<Field, string>

  /** The state the form starts in: every field empty, password masked. */
  const EmptyForm := StudentForm("", "", "", "", "", "", "", "", "", false)

  /** `formData[name]` */
  function Get(form: StudentForm, name: Field): string {
    match name
    case FirstName => form.firstName
    case LastName => form.lastName
    case Email => form.email
    case Course => form.course
    case SubField => form.subField
    case Year => form.year
    case RollNumber => form.rollNumber
    case Gender => form.gender
    case Password => form.password
  }

  /** `{ ...formData, [name]: value }`: the named field takes `value` and
      nothing else changes. */
  function Set(form: StudentForm, name: Field, value: string): (r: StudentForm)
    ensures Get(r, name) == value
    ensures forall other :: other != name ==> Get(r, other) == Get(form, other)
    ensures r.showPassword == form.showPassword
  {
    match name
    case FirstName => form.(firstName := value)
    case LastName => form.(lastName := value)
    case Email => form.(email := value)
    case Course => form.(course := value)
    case SubField => form.(subField := value)
    case Year => form.(year := value)
    case RollNumber => form.(rollNumber := value)
    case Gender => form.(gender := value)
    case Password => form.(password := value)
  }

  /** Form data and error map as the change handler leaves them. */
  datatype Editor = Editor(form: StudentForm, errors: Errors)

  /** The change handler: a roll-number value that is not all digits is
      ignored outright; any other edit stores the value and clears that
      field's error. */
  function HandleChange(e: Editor, name: Field, value: string): (r: Editor)
    ensures name == RollNumber && !AllDigits(value) ==> r == e
    ensures !(name == RollNumber && !AllDigits(value)) ==>
      && Get(r.form, name) == value
      && (forall other :: other != name ==> Get(r.form, other) == Get(e.form, other))
      && r.form.showPassword == e.form.showPassword
      && r.errors.Keys == e.errors.Keys + {name}
      && r.errors[name] == ""
      && (forall other :: other in e.errors && other != name ==> r.errors[other] == e.errors[other])
  {
    if name == RollNumber && !AllDigits(value) then e
    else Editor(Set(e.form, name, value), e.errors[name := ""])
  }

  /** The state after a series of edits, starting from the empty form. */
  function Replay(edits: seq<(Field, string)>): Editor {
    if |edits| == 0 then Editor(EmptyForm, map[])
    else
      var last := edits[|edits| - 1];
      HandleChange(Replay(edits[..|edits| - 1]), last.0, last.1)
  }

  /** Whatever is typed, the roll number only ever holds digits. */
  lemma {:induction false} RollNumberStaysDigits(edits: seq<(Field, string)>)
    ensures AllDigits(Replay(edits).form.rollNumber)
  {
    if |edits| > 0 {
      RollNumberStaysDigits(edits[..|edits| - 1]);
    }
  }

  // ----- password -----------------------------------------------------------

  /** `[A-Za-z\d@$!%*?&]`: the characters the password body may consist of. */
  predicate BodyChar(c: char) {
    IsLower(c) || IsUpper(c) || IsDigit(c) || c in "@$!%*?&"
  }

  /** `[@$#!%*?&]`: the special characters the lookahead looks for (it
      includes `#`, which the body class does not). */
  predicate LookaheadSpecial(c: char) {
    c in "@$#!%*?&"
  }

  /** The characters JavaScript's `.` does not match. */
  predicate LineTerminator(c: char) {
    c == '\n' || c == '\r' || c == '\U{2028}' || c == '\U{2029}'
  }

  /** `(?=.*[p])` at the start of `t`: a character of class `p` occurs with
      no line terminator before it. */
  ghost predicate Lookahead(t: string, p: char -> bool) {
    exists k :: 0 <= k < |t| && p(t[k]) && forall m :: 0 <= m < k ==> !LineTerminator(t[m])
  }

  /** The password regular expression
      `^(?=.*[a-z])(?=.*[A-Z])(?=.*\d)(?=.*[@$#!%*?&])[A-Za-z\d@$!%*?&]{8,}$`. */
  ghost predicate MatchesPasswordRegex(t: string) {
    && Lookahead(t, IsLower)
    && Lookahead(t, IsUpper)
    && Lookahead(t, IsDigit)
    && Lookahead(t, LookaheadSpecial)
    && |t| >= 8
    && forall k :: 0 <= k < |t| ==> BodyChar(t[k])
  }

  /** Which character classes a password draws on, gathered in one pass. */
  datatype Classes = Classes(lower: bool, upper: bool, digit: bool, special: bool, allBody: bool)

  /** One pass over `t` recording which classes occur and whether every
      character belongs to the body class. */
  function Classify(t: string): (c: Classes)
    ensures c.lower <==> Contains(t, IsLower)
    ensures c.upper <==> Contains(t, IsUpper)
    ensures c.digit <==> Contains(t, IsDigit)
    ensures c.special <==> Contains(t, LookaheadSpecial)
    ensures c.allBody <==> forall k :: 0 <= k < |t| ==> BodyChar(t[k])
  {
    if |t| == 0 then Classes(false, false, false, false, true)
    else
      var rest := Classify(t[1..]);
      ContainsCons(t, IsLower);
      ContainsCons(t, IsUpper);
      ContainsCons(t, IsDigit);
      ContainsCons(t, LookaheadSpecial);
      var x := t[0];
      Classes(
        IsLower(x) || rest.lower,
        IsUpper(x) || rest.upper,
        IsDigit(x) || rest.digit,
        LookaheadSpecial(x) || rest.special,
        BodyChar(x) && rest.allBody)
  }

  /** `validatePassword`: the trimmed password is checked against the rule. */
  predicate ValidatePassword(password: string) {
    var t := Trim(password);
    var c := Classify(t);
    |t| >= 8 && c.lower && c.upper && c.digit && c.special && c.allBody
  }

  /** Inside a string of body characters, a lookahead is plain containment:
      no body character is a line terminator. */
  lemma LookaheadInBody(t: string, p: char -> bool)
    requires forall k :: 0 <= k < |t| ==> BodyChar(t[k])
    ensures Lookahead(t, p) <==> Contains(t, p)
  {
    if Contains(t, p) {
      var k :| 0 <= k < |t| && p(t[k]);
      assert forall m :: 0 <= m < k ==> BodyChar(t[m]);
    }
  }

  /** `validatePassword` accepts exactly the passwords whose trimmed form the
      regular expression matches. */
  lemma ValidatePasswordMatchesRegex(password: string)
    ensures ValidatePassword(password) <==> MatchesPasswordRegex(Trim(password))
  {
    var t := Trim(password);
    if forall k :: 0 <= k < |t| ==> BodyChar(t[k]) {
      LookaheadInBody(t, IsLower);
      LookaheadInBody(t, IsUpper);
      LookaheadInBody(t, IsDigit);
      LookaheadInBody(t, LookaheadSpecial);
    }
  }

  /** `#` satisfies the special-character lookahead but is not a body
      character, so no password containing `#` is ever accepted. */
  lemma HashSignRejected(password: string, k: nat)
    requires k < |password| && password[k] == '#'
    ensures !ValidatePassword(password)
  {
    TrimKeeps(password, k);
    var t := Trim(password);
    assert !BodyChar(t[k - LeadingSpace(password)]);
  }

  // ----- whole form ---------------------------------------------------------

  const PasswordRuleMessage := "Password must be at least 8 characters long and include at least one uppercase letter, one lowercase letter, one number, and one special character."

  /** The message `validateForm` records for one field, if any: a message is
      recorded exactly when the field breaks its rule, and it is never empty. */
  function FieldError(form: StudentForm, f: Field): (r: Option<string>)
    ensures r.Some? ==> r.value != ""
    ensures f == FirstName ==> (r.Some? <==> form.firstName == "")
    ensures f == LastName ==> (r.Some? <==> form.lastName == "")
    ensures f == Email ==> (r.Some? <==> !IsEmail(form.email))
    ensures f == Email && r.Some? ==> r.value == if form.email == "" then "Email is required." else "Invalid email."
    ensures f == Course ==> (r.Some? <==> form.course == "")
    ensures f == SubField ==> (r.Some? <==> form.course == "B.Tech" && form.subField == "")
    ensures f == Year ==> (r.Some? <==> form.year == "")
    ensures f == RollNumber ==> (r.Some? <==> |form.rollNumber| != 10)
    ensures f == Gender ==> (r.Some? <==> form.gender == "")
    ensures f == Password ==> (r.Some? <==> !ValidatePassword(form.password))
    ensures f == Password && r.Some? ==> r.value == if form.password == "" then "Password is required." else PasswordRuleMessage
  {
    match f
    case FirstName => if form.firstName == "" then Some("First Name is required.") else None
    case LastName => if form.lastName == "" then Some("Last Name is required.") else None
    case Email =>
      if form.email == "" then Some("Email is required.")
      else if !IsEmail(form.email) then Some("Invalid email.") else None
    case Course => if form.course == "" then Some("Course is required.") else None
    case SubField =>
      if form.course == "B.Tech" && form.subField == "" then Some("Branch is required.") else None
    case Year => if form.year == "" then Some("Current Study Year is required.") else None
    case RollNumber =>
      if form.rollNumber == "" || |form.rollNumber| != 10 then Some("Roll Number must be 10 digits.") else None
    case Gender => if form.gender == "" then Some("Gender is required.") else None
    case Password =>
      if form.password == "" then Some("Password is required.")
      else if !ValidatePassword(form.password) then Some(PasswordRuleMessage) else None
  }

  const AllFields: set<Field> := {FirstName, LastName, Email, Course, SubField, Year, RollNumber, Gender, Password}

  /** `validateForm`: the error object, holding one key for each field whose
      rule is broken. */
  function ValidateForm(form: StudentForm): (errors: Errors)
    ensures forall f :: f in errors <==> FieldError(form, f).Some?
    ensures forall f :: f in errors ==> errors[f] == FieldError(form, f).value
  {
    map f | f in AllFields && FieldError(form, f).Some? :: FieldError(form, f).value
  }

  /** The rules a submittable form satisfies, stated against the regular
      expressions rather than the computed checks. */
  ghost predicate Submittable(form: StudentForm) {
    && form.firstName != "" && form.lastName != ""
    && MatchesEmailRegex(form.email)
    && form.course != ""
    && (form.course == "B.Tech" ==> form.subField != "")
    && form.year != ""
    && |form.rollNumber| == 10
    && form.gender != ""
    && MatchesPasswordRegex(Trim(form.password))
  }

  /** `validateForm` returns true (no error keys) exactly for submittable forms. */
  lemma ValidateFormIff(form: StudentForm)
    ensures |ValidateForm(form)| == 0 <==> Submittable(form)
  {
    var errors := ValidateForm(form);
    IsEmailMatchesRegex(form.email);
    ValidatePasswordMatchesRegex(form.password);
    if !Submittable(form) {
      var f :| f in errors;
    }
  }

  /** `handleSubmit`: the errors shown and, when there are none, the body
      posted (the whole form data, password untrimmed). */
  function Submit(form: StudentForm): (r: (Errors, Option<StudentForm>))
    ensures r.0 == ValidateForm(form)
    ensures r.1.Some? <==> |r.0| == 0
    ensures r.1.Some? ==> r.1.value == form
  {
    var errors := ValidateForm(form);
    if |errors| == 0 then (errors, Some(form)) else (errors, None)
  }

  /** A form reached by typing that passes validation posts a roll number of
      exactly ten digits. */
  lemma SubmittedRollNumber(edits: seq<(Field, string)>)
    requires Submit(Replay(edits).form).1.Some?
    ensures |Replay(edits).form.rollNumber| == 10 && AllDigits(Replay(edits).form.rollNumber)
  {
    RollNumberStaysDigits(edits);
    var form := Replay(edits).form;
    assert ValidateForm(form) == map[];
    assert FieldError(form, RollNumber).None?;
  }
}
