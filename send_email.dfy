/**
 * The `POST /api/send-email` handler of app.js (lines 66-110), after the rate
 * limiter has let the request through and the validation chains have run. The
 * provider's `sendMail` is a parameter: it either delivers or throws an error
 * with a message.
 */
module SendEmail {
  import opened Wrappers
  import opened Js
  import opened ValidatorLib
  import opened TagStrip
  import opened Validation
  import opened Config

  const DefaultSubject := "Message from Email Sender App"

  /** The options handed to `transporter.sendMail`. */
  datatype MailOptions = MailOptions(from: string, to: string, subject: string, html: string, text: string)

  /** What `sendMail` does with one message: it resolves, or it rejects with an error message. */
  datatype SendOutcome = Delivered | Rejected(message: string)

  /** `details` of the 200 response; `sentAt`, a wall-clock timestamp, is not part of this model. */
  datatype Details = Details(to: string, subject: string)

  /** The JSON responses of the handler. */
  datatype SendResponse =
    | ValidationFailed(errors: seq<FieldError>)
    | EmailSent(details: Details)
    | SendFailed(error: Option<string>)
  {
    function Status(): nat {
      match this
      case ValidationFailed(_) => 400
      case EmailSent(_) => 200
      case SendFailed(_) => 500
    }

    /** The `success` field. */
    predicate Success() {
      EmailSent?
    }

    /** The `message` field. */
    function Message(): string {
      match this
      case ValidationFailed(_) => "Validation failed"
      case EmailSent(_) => "Email sent successfully"
      case SendFailed(_) => "Failed to send email. Please try again later."
    }
  }

  /** A response, with the messages handed to the provider while producing it. */
  datatype Handled = Handled(response: SendResponse, attempts: seq<MailOptions>)

  /**
   * The `from` header: the display name "Email Sender App" and `EMAIL_USER` in angle
   * brackets. It is a template literal, so an unset `EMAIL_USER` reads "undefined".
   */
  function Sender(env: Env): (r: string)
    ensures env.emailUser.Some? ==> r == "\"Email Sender App\" <" + env.emailUser.value + ">"
    ensures env.emailUser.None? ==> r == "\"Email Sender App\" <undefined>"
  {
    "\"Email Sender App\" <" + Interpolate(env.emailUser) + ">"
  }

  /** `mailOptions`, built from the body as the sanitizers left it. */
  function BuildMailOptions(env: Env, body: SanitizedBody): (m: MailOptions)
    ensures m.from == Sender(env) && m.to == body.toEmail && m.html == body.emailContent
    ensures m.subject != ""
    ensures |m.text| <= |m.html| && !HasTag(m.text)
  {
    StripTagsLeavesNoTag(body.emailContent);
    MailOptions(Sender(env), body.toEmail, Or(body.subject, DefaultSubject), body.emailContent, StripTags(body.emailContent))
  }

  /** The handler: refuse on validation errors, else send once and report the outcome. */
  function HandleSendEmail(lib: EmailLibrary, env: Env, sendMail: MailOptions -> SendOutcome, req: SendRequest): (h: Handled)
    ensures |h.attempts| <= 1
    ensures h.attempts == [] <==> Validate(lib, req).errors != []
  {
    var v := Validate(lib, req);
    if v.errors != [] then
      Handled(ValidationFailed(v.errors), [])
    else
      var m := BuildMailOptions(env, v.body);
      match sendMail(m)
      case Delivered =>
        Handled(EmailSent(Details(v.body.toEmail, m.subject)), [m])
      case Rejected(message) =>
        Handled(SendFailed(ErrorDetail(env, message)), [m])
  }

  /**
   * The subject of the mail is the trimmed subject, or the default when the subject
   * is absent or trims to "".
   */
  lemma SubjectFallsBack(lib: EmailLibrary, env: Env, req: SendRequest)
    ensures var m := BuildMailOptions(env, Validate(lib, req).body);
      m.subject == if req.subject == None || Trim(req.subject.value) == "" then DefaultSubject
                   else Trim(req.subject.value)
  {
  }

  /**
   * The mail carries the content as the sanitizer left it (trimmed) as HTML, and
   * that content with its tags stripped as plain text.
   */
  lemma MailBodies(lib: EmailLibrary, env: Env, req: SendRequest)
    ensures var m := BuildMailOptions(env, Validate(lib, req).body);
      && m.html == FieldText(req.emailContent)
      && m.text == StripTags(m.html)
      && m.to == lib.normalizeEmail(FieldText(req.toEmail))
  {
  }

  /**
   * Status 400 comes exactly from validation errors: then the response is
   * `success: false`, "Validation failed", lists those errors, and nothing is sent.
   */
  lemma ValidationFailureResponse(lib: EmailLibrary, env: Env, sendMail: MailOptions -> SendOutcome, req: SendRequest)
    ensures var errors, h := Validate(lib, req).errors, HandleSendEmail(lib, env, sendMail, req);
      && (h.response.Status() == 400 <==> errors != [])
      && (errors != [] ==>
            && h.response == ValidationFailed(errors)
            && !h.response.Success()
            && h.response.Message() == "Validation failed"
            && h.attempts == [])
  {
  }

  /**
   * A delivered message gives 200 and echoes the normalized recipient and the
   * subject the mail was sent with.
   */
  lemma DeliveredResponse(lib: EmailLibrary, env: Env, sendMail: MailOptions -> SendOutcome, req: SendRequest)
    requires Validate(lib, req).errors == []
    requires sendMail(BuildMailOptions(env, Validate(lib, req).body)) == Delivered
    ensures var h, m := HandleSendEmail(lib, env, sendMail, req), BuildMailOptions(env, Validate(lib, req).body);
      && h.response.Status() == 200 && h.response.Success()
      && h.response.Message() == "Email sent successfully"
      && h.response.details == Details(lib.normalizeEmail(FieldText(req.toEmail)), m.subject)
      && h.attempts == [m]
  {
  }

  /**
   * A provider failure gives 500 with the generic message; the provider's error
   * message is passed on exactly when `NODE_ENV` is "development".
   */
  lemma RejectedResponse(lib: EmailLibrary, env: Env, sendMail: MailOptions -> SendOutcome, req: SendRequest, message: string)
    requires Validate(lib, req).errors == []
    requires sendMail(BuildMailOptions(env, Validate(lib, req).body)) == Rejected(message)
    ensures var h := HandleSendEmail(lib, env, sendMail, req);
      && h.response.Status() == 500 && !h.response.Success()
      && h.response.Message() == "Failed to send email. Please try again later."
      && (h.response.error.Some? <==> env.nodeEnv == Some("development"))
      && (h.response.error.Some? ==> h.response.error.value == message)
      && |h.attempts| == 1
  {
  }

  /** A recipient failing the email check is refused with 400 whatever the other fields hold. */
  lemma InvalidRecipientRefused(lib: EmailLibrary, env: Env, sendMail: MailOptions -> SendOutcome, req: SendRequest)
    requires !lib.isEmail(FieldText(req.toEmail))
    ensures var h := HandleSendEmail(lib, env, sendMail, req);
      && h.response.Status() == 400
      && h.response.errors[0] == FieldError("toEmail", InvalidRecipientMessage)
      && h.attempts == []
  {
    RecipientRule(lib, req);
  }

  /**
   * A request that fails validation never reaches the provider: the handler gives
   * the same answer whatever `sendMail` would do.
   */
  lemma ProviderNotConsulted(lib: EmailLibrary, env: Env, f: MailOptions -> SendOutcome, g: MailOptions -> SendOutcome, req: SendRequest)
    requires Validate(lib, req).errors != []
    ensures HandleSendEmail(lib, env, f, req) == HandleSendEmail(lib, env, g, req)
  {
  }

  /**
   * The provider only ever sees a message built from a valid request: a recipient
   * that passed the email check, 1 to 50000 characters of HTML with its tag-free
   * plain text, and a non-empty subject of at most 200 characters.
   */
  lemma SentMessagesAreValid(lib: EmailLibrary, env: Env, sendMail: MailOptions -> SendOutcome, req: SendRequest)
    ensures forall m :: m in HandleSendEmail(lib, env, sendMail, req).attempts ==>
      && lib.isEmail(FieldText(req.toEmail)) && m.to == lib.normalizeEmail(FieldText(req.toEmail))
      && 1 <= |m.html| <= MaxContentLength && m.text == StripTags(m.html) && !HasTag(m.text)
      && 0 < |m.subject| <= MaxSubjectLength
  {
  }

  /** With every field valid and a working provider, "a@b.com" / "hello" is sent under the default subject. */
  lemma DefaultSubjectExample(lib: EmailLibrary, env: Env, sendMail: MailOptions -> SendOutcome, req: SendRequest)
    requires req == SendRequest(Some("a@b.com"), Some("hello"), None)
    requires lib.isEmail("a@b.com") && lib.normalizeEmail("a@b.com") == "a@b.com"
    requires forall m :: sendMail(m) == Delivered
    ensures var h := HandleSendEmail(lib, env, sendMail, req);
      h.response == EmailSent(Details("a@b.com", DefaultSubject)) && h.response.Status() == 200
  {
    TrimOfTrimmed("a@b.com");
    TrimOfTrimmed("hello");
  }

  /** "not-an-email" is refused with an error for `toEmail`, and the provider sees no call. */
  lemma InvalidRecipientExample(lib: EmailLibrary, env: Env, sendMail: MailOptions -> SendOutcome, req: SendRequest)
    requires req == SendRequest(Some("not-an-email"), Some("hi"), None)
    requires !lib.isEmail("not-an-email")
    ensures var h := HandleSendEmail(lib, env, sendMail, req);
      && h.response.Status() == 400 && Reports(h.response.errors, "toEmail")
      && h.attempts == []
  {
    TrimOfTrimmed("not-an-email");
    InvalidRecipientRefused(lib, env, sendMail, req);
    var h := HandleSendEmail(lib, env, sendMail, req);
    assert h.response.errors[0] in h.response.errors;
  }
}
