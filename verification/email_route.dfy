/** The `/send-email` route (`server/routes/emailRoutes.js`): the
    required-field guard and the mail options handed to the transport. The
    transport's success or failure is an input. */
module EmailRoute {
  import opened Basics

  /** The request body; an absent or `null` field is `None`. A `subject`
      may be present but the route never reads it. */
  datatype MailRequest = MailRequest(from: Option<string>, to: Option<string>, subject: Option<string>, content: Option<string>)

  /** The options passed to the mail transport. */
  datatype MailOptions = MailOptions(from: string, to: string, subject: string, text: string)

  /** The reply, together with the options the transport was asked to send,
      if it was asked at all. */
  datatype MailReply = MailReply(status: nat, message: string, sent: Option<MailOptions>)

  const FixedSubject := "Message from Admin"

  /** JavaScript truthiness of an optional string field. */
  predicate Present(field: Option<string>) {
    field.Some? && field.value != ""
  }

  /** The route: a missing or empty `from`, `to` or `content` is refused with
      400 before anything is sent; otherwise the options copy `from` and `to`,
      carry `content` as the text and a fixed subject, and the reply reports
      whether the transport delivered. */
  function SendEmail(req: MailRequest, delivered: bool): (r: MailReply)
    ensures r.status == 400 <==> !(Present(req.from) && Present(req.to) && Present(req.content))
    ensures r.status == 400 ==> r.sent.None? && r.message == "All fields are required (from, to, content)"
    ensures r.status != 400 ==>
      r.sent == Some(MailOptions(req.from.value, req.to.value, FixedSubject, req.content.value))
    ensures r.status != 400 && delivered ==> r.status == 200 && r.message == "Email sent successfully!"
    ensures r.status != 400 && !delivered ==> r.status == 500 && r.message == "Failed to send email."
  {
    if !Present(req.from) || !Present(req.to) || !Present(req.content) then
      MailReply(400, "All fields are required (from, to, content)", None)
    else
      var options := MailOptions(req.from.value, req.to.value, FixedSubject, req.content.value);
      if delivered then MailReply(200, "Email sent successfully!", Some(options))
      else MailReply(500, "Failed to send email.", Some(options))
  }

  /** Whatever subject the client asks for, the mail goes out with the fixed
      one, and the reply does not depend on it. */
  lemma SubjectIgnored(req: MailRequest, other: Option<string>, delivered: bool)
    ensures SendEmail(req, delivered) == SendEmail(req.(subject := other), delivered)
    ensures SendEmail(req, delivered).sent.Some? ==> SendEmail(req, delivered).sent.value.subject == FixedSubject
  {
  }
}
