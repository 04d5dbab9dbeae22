/** The admin registration form (`client/src/Admin/Register.tsx`): per-field
    error messages and the gate that decides whether the signup request is
    sent. */
module AdminRegister {
  import opened Basics
  import opened Text
  import opened EmailPattern

  /** The five inputs as the form data holds them. */
  datatype RegisterData = RegisterData(firstName: string, lastName: string, email: string, password: string, adminId: string)

  /** One message per input; the empty string means no error. */
  datatype RegisterErrors = RegisterErrors(firstName: string, lastName: string, email: string, password: string, adminId: string)

  const NoErrors := RegisterErrors("", "", "", "", "")

  /** `[!@#$%^&*]`: the special characters this form asks for. */
  predicate RegisterSpecial(c: char) {
    c in "!@#$%^&*"
  }

  /** `^ADB[0-9]{5}$` */
  predicate IsAdminId(s: string) {
    |s| == 8 && s[..3] == "ADB" && AllDigits(s[3..])
  }

  /** The password rule after trimming: at least eight characters, a digit
      and one of `!@#$%^&*`. */
  predicate StrongEnough(t: string) {
    |t| >= 8 && Contains(t, IsDigit) && Contains(t, RegisterSpecial)
  }

  /** The password message, with its precedence: required, then too short,
      then missing digit or special character. */
  function PasswordError(password: string): (r: string)
    ensures r == "" <==> StrongEnough(Trim(password))
    ensures r == "Password is required" <==> Blank(password)
    ensures r == "Password must be at least 8 characters" <==> !Blank(password) && |Trim(password)| < 8
    ensures r == "Password must contain at least one number and one special character" <==>
      |Trim(password)| >= 8 && !StrongEnough(Trim(password))
  {
    TrimEmptyIffBlank(password);
    var t := Trim(password);
    if t == "" then "Password is required"
    else if |t| < 8 then "Password must be at least 8 characters"
    else if !Contains(t, IsDigit) || !Contains(t, RegisterSpecial) then "Password must contain at least one number and one special character"
    else ""
  }

  /** The admin id message: required when empty, a pattern complaint when it
      is not `ADB` and five digits. */
  function AdminIdError(adminId: string): (r: string)
    ensures r == "" <==> IsAdminId(adminId)
    ensures adminId == "" ==> r == "Admin ID is required"
    ensures adminId != "" && !IsAdminId(adminId) ==> r == "Admin ID must start with \"ADB\" followed by 5 digits"
  {
    if adminId == "" then "Admin ID is required"
    else if !IsAdminId(adminId) then "Admin ID must start with \"ADB\" followed by 5 digits"
    else ""
  }

  /** An accepted admin id is eight characters long and reads `ADB` then five
      digits. */
  lemma AdminIdShape(adminId: string)
    requires AdminIdError(adminId) == ""
    ensures |adminId| == 8
    ensures adminId[0] == 'A' && adminId[1] == 'D' && adminId[2] == 'B'
    ensures forall k :: 3 <= k < 8 ==> IsDigit(adminId[k])
  {
    assert adminId[..3][0] == 'A' && adminId[..3][1] == 'D' && adminId[..3][2] == 'B';
    assert forall k :: 3 <= k < 8 ==> adminId[k] == adminId[3..][k - 3];
  }

  /** `validateForm`: every field checked independently. */
  function ValidateRegister(d: RegisterData): (e: RegisterErrors)
    ensures e.firstName == (if d.firstName == "" then "First Name is required" else "")
    ensures e.lastName == (if d.lastName == "" then "Last Name is required" else "")
    ensures e.email == AdminEmailError(d.email)
    ensures e.password == PasswordError(d.password)
    ensures e.adminId == AdminIdError(d.adminId)
  {
    RegisterErrors(
      if d.firstName == "" then "First Name is required" else "",
      if d.lastName == "" then "Last Name is required" else "",
      AdminEmailError(d.email),
      PasswordError(d.password),
      AdminIdError(d.adminId))
  }

  /** Some message is non-empty. */
  predicate HasErrors(e: RegisterErrors) {
    e.firstName != "" || e.lastName != "" || e.email != "" || e.password != "" || e.adminId != ""
  }

  /** What `handleSubmit` leaves behind: the errors on display and the body it
      posts, if any. */
  datatype RegisterOutcome = RegisterOutcome(shown: RegisterErrors, request: Option<RegisterData>)

  /** `handleSubmit`: with any error the errors are shown and nothing is sent;
      otherwise the errors are cleared and the raw inputs are posted. */
  function SubmitRegister(d: RegisterData): (r: RegisterOutcome)
    ensures r.request.None? <==> HasErrors(ValidateRegister(d))
    ensures r.request.None? ==> r.shown == ValidateRegister(d)
    ensures r.request.Some? ==> r.shown == NoErrors && r.request.value == d
  {
    var errors := ValidateRegister(d);
    if HasErrors(errors) then RegisterOutcome(errors, None)
    else RegisterOutcome(NoErrors, Some(d))
  }

  /** The signup request is sent exactly when every rule holds, the email rule
      read as the regular expression. The password sent is the raw input,
      not its trimmed form. */
  lemma RegisterSendsIff(d: RegisterData)
    ensures SubmitRegister(d).request.Some? <==>
      && d.firstName != "" && d.lastName != ""
      && MatchesEmailRegex(d.email)
      && StrongEnough(Trim(d.password))
      && IsAdminId(d.adminId)
  {
    IsEmailMatchesRegex(d.email);
  }
}
