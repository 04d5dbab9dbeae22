/** The admin login form (`client/src/Admin/Login.tsx`): two error messages
    and the gate that decides whether the signin request is sent. */
module AdminLogin {
  import opened Basics
  import opened EmailPattern

  datatype LoginData = LoginData(email: string, password: string)

  /** One message per input; the empty string means no error. */
  datatype LoginErrors = LoginErrors(email: string, password: string)

  /** `validateForm`: the email is checked for shape, the password only for
      being non-empty (it is neither trimmed nor checked for strength). */
  function ValidateLogin(d: LoginData): (e: LoginErrors)
    ensures e.email == AdminEmailError(d.email)
    ensures e.password == "" <==> d.password != ""
    ensures e.password != "" ==> e.password == "Password is required"
  {
    LoginErrors(AdminEmailError(d.email), if d.password == "" then "Password is required" else "")
  }

  /** What `handleSubmit` leaves behind: the errors on display and the body it
      posts, if any. */
  datatype LoginOutcome = LoginOutcome(shown: LoginErrors, request: Option<LoginData>)

  /** `handleSubmit`: with either error the errors are shown and nothing is
      sent; otherwise the errors are cleared and exactly the email and the
      password are posted. */
  function SubmitLogin(d: LoginData): (r: LoginOutcome)
    ensures r.request.Some? <==> ValidateLogin(d) == LoginErrors("", "")
    ensures r.request.None? ==> r.shown == ValidateLogin(d)
    ensures r.request.Some? ==> r.shown == LoginErrors("", "") && r.request.value == d
  {
    var errors := ValidateLogin(d);
    if errors.email != "" || errors.password != "" then LoginOutcome(errors, None)
    else LoginOutcome(LoginErrors("", ""), Some(d))
  }

  /** The signin request is sent exactly when the email matches the regular
      expression and the password is non-empty; a blank password of spaces
      is sent as typed. */
  lemma LoginSendsIff(d: LoginData)
    ensures SubmitLogin(d).request.Some? <==> MatchesEmailRegex(d.email) && d.password != ""
  {
    IsEmailMatchesRegex(d.email);
  }
}
