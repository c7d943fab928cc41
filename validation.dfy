/**
 * The validation chains `emailValidation` of app.js (lines 44-63), run by
 * express-validator before the send handler. Every chain first applies its
 * sanitizers, then every validator in order; a chain does not stop at its first
 * failure, and the errors of all chains are collected in chain order.
 */
module Validation {
  import opened Wrappers
  import opened ValidatorLib

  /** The body fields the send route reads; `None` when the key is absent. */
  datatype SendRequest = SendRequest(toEmail: Option<string>, emailContent: Option<string>, subject: Option<string>)

  /** One entry of `errors.array()`: the field (`path`) and the message. */
  datatype FieldError = FieldError(path: string, msg: string)

  /** The body as the handler reads it after the sanitizers have rewritten it. */
  datatype SanitizedBody = SanitizedBody(toEmail: string, emailContent: string, subject: Option<string>)

  /** What the validation middleware leaves behind: the errors and the rewritten body. */
  datatype Validated = Validated(errors: seq<FieldError>, body: SanitizedBody)

  const MaxContentLength: nat := 50000
  const MaxSubjectLength: nat := 200

  const InvalidRecipientMessage := "Please provide a valid recipient email address"
  const ContentRequiredMessage := "Email content is required"
  const ContentLengthMessage := "Email content must be between 1 and 50000 characters"
  const SubjectLengthMessage := "Subject must be less than 200 characters"

  /** A required field after `trim()`: express-validator hands a missing value on as "". */
  function FieldText(v: Option<string>): (r: string)
    ensures Trimmed(r)
    ensures v.None? ==> r == ""
  {
    TrimCuts(v.GetOr(""));
    Trim(v.GetOr(""))
  }

  /**
   * `body("toEmail").trim().isEmail()`: nothing for a trimmed value that passes the
   * email check, otherwise the one recipient error.
   */
  function RecipientErrors(lib: EmailLibrary, toEmail: Option<string>): (r: seq<FieldError>)
    ensures r == [] <==> lib.isEmail(FieldText(toEmail))
    ensures |r| <= 1 && forall e :: e in r ==> e == FieldError("toEmail", InvalidRecipientMessage)
  {
    if lib.isEmail(FieldText(toEmail)) then [] else [FieldError("toEmail", InvalidRecipientMessage)]
  }

  /**
   * `body("emailContent").trim().notEmpty().isLength({ min: 1, max: 50000 })`: both
   * validators run, so empty content gets both errors and content that is too long
   * only the length error.
   */
  function ContentErrors(emailContent: Option<string>): (r: seq<FieldError>)
    ensures r == [] <==> 1 <= |FieldText(emailContent)| <= MaxContentLength
    ensures FieldError("emailContent", ContentRequiredMessage) in r <==> FieldText(emailContent) == ""
    ensures AllFor(r, "emailContent") && |r| <= 2
  {
    var c := FieldText(emailContent);
    (if c != "" then [] else [FieldError("emailContent", ContentRequiredMessage)])
      + (if 1 <= |c| <= MaxContentLength then [] else [FieldError("emailContent", ContentLengthMessage)])
  }

  /**
   * `body("subject").optional().trim().isLength({ max: 200 })`: an absent subject
   * skips the chain, a present one is refused once its trimmed length passes 200.
   */
  function SubjectErrors(subject: Option<string>): (r: seq<FieldError>)
    ensures r == [] <==> subject.None? || |Trim(subject.value)| <= MaxSubjectLength
    ensures |r| <= 1 && forall e :: e in r ==> e == FieldError("subject", SubjectLengthMessage)
  {
    match subject
    case None => []
    case Some(s) => if |Trim(s)| <= MaxSubjectLength then [] else [FieldError("subject", SubjectLengthMessage)]
  }

  /** The three chains in order, with the sanitizers' rewrite of the body. */
  function Validate(lib: EmailLibrary, req: SendRequest): (v: Validated)
    ensures v.errors == [] <==> Acceptable(lib, req)
    ensures v.errors == [] ==> 1 <= |v.body.emailContent| <= MaxContentLength
    ensures v.errors == [] && v.body.subject.Some? ==> |v.body.subject.value| <= MaxSubjectLength
  {
    var errors := RecipientErrors(lib, req.toEmail) + ContentErrors(req.emailContent) + SubjectErrors(req.subject);
    var subject := match req.subject case None => None case Some(s) => Some(Trim(s));
    Validated(errors, SanitizedBody(lib.normalizeEmail(FieldText(req.toEmail)), FieldText(req.emailContent), subject))
  }

  /** The three rules, stated together: a request passes when each field passes its own rule. */
  ghost predicate Acceptable(lib: EmailLibrary, req: SendRequest) {
    && lib.isEmail(FieldText(req.toEmail))
    && 0 < |FieldText(req.emailContent)| <= MaxContentLength
    && (req.subject == None || |Trim(req.subject.value)| <= MaxSubjectLength)
  }

  /** The entries of `errors` for field `path`, in their order. */
  function ErrorsFor(errors: seq<FieldError>, path: string): (r: seq<FieldError>)
    ensures forall e :: e in r ==> e in errors && e.path == path
    ensures forall e :: e in errors && e.path == path ==> e in r
  {
    if errors == [] then []
    else (if errors[0].path == path then [errors[0]] else []) + ErrorsFor(errors[1..], path)
  }

  lemma {:induction false} ErrorsForAppend(a: seq<FieldError>, b: seq<FieldError>, path: string)
    ensures ErrorsFor(a + b, path) == ErrorsFor(a, path) + ErrorsFor(b, path)
    decreases |a|
  {
    if a != [] {
      assert (a + b)[1..] == a[1..] + b;
      ErrorsForAppend(a[1..], b, path);
    } else {
      assert a + b == b;
    }
  }

  /** Entries that all name field `q` are kept whole when filtering for `q`, and dropped otherwise. */
  lemma {:induction false} ErrorsForUniform(a: seq<FieldError>, q: string, path: string)
    requires AllFor(a, q)
    ensures ErrorsFor(a, path) == if path == q then a else []
    decreases |a|
  {
    if a != [] {
      ErrorsForUniform(a[1..], q, path);
      assert a == [a[0]] + a[1..];
    }
  }

  lemma ErrorsForSplit(r: seq<FieldError>, c: seq<FieldError>, t: seq<FieldError>, path: string)
    ensures ErrorsFor(r + c + t, path) == ErrorsFor(r, path) + ErrorsFor(c, path) + ErrorsFor(t, path)
  {
    ErrorsForAppend(r + c, t, path);
    ErrorsForAppend(r, c, path);
  }

  /** Every entry a chain contributes names that chain's field. */
  predicate AllFor(errors: seq<FieldError>, path: string) {
    forall i :: 0 <= i < |errors| ==> errors[i].path == path
  }

  /** The entries each chain contributes, read off the collected errors. */
  lemma ChainErrors(lib: EmailLibrary, req: SendRequest)
    ensures var errors := Validate(lib, req).errors;
      && ErrorsFor(errors, "toEmail") == RecipientErrors(lib, req.toEmail)
      && ErrorsFor(errors, "emailContent") == ContentErrors(req.emailContent)
      && ErrorsFor(errors, "subject") == SubjectErrors(req.subject)
  {
    var r, c, t := RecipientErrors(lib, req.toEmail), ContentErrors(req.emailContent), SubjectErrors(req.subject);
    ChainErrorsFor(r, c, t, "toEmail");
    ChainErrorsFor(r, c, t, "emailContent");
    ChainErrorsFor(r, c, t, "subject");
  }

  lemma ChainErrorsFor(r: seq<FieldError>, c: seq<FieldError>, t: seq<FieldError>, path: string)
    requires AllFor(r, "toEmail") && AllFor(c, "emailContent") && AllFor(t, "subject")
    ensures path == "toEmail" ==> ErrorsFor(r + c + t, path) == r
    ensures path == "emailContent" ==> ErrorsFor(r + c + t, path) == c
    ensures path == "subject" ==> ErrorsFor(r + c + t, path) == t
  {
    ErrorsForSplit(r, c, t, path);
    ErrorsForUniform(r, "toEmail", path);
    ErrorsForUniform(c, "emailContent", path);
    ErrorsForUniform(t, "subject", path);
  }

  /** The errors come in chain order: those of the recipient, then the content, then the subject. */
  lemma ErrorsInChainOrder(lib: EmailLibrary, req: SendRequest)
    ensures var errors := Validate(lib, req).errors;
      errors == ErrorsFor(errors, "toEmail") + ErrorsFor(errors, "emailContent") + ErrorsFor(errors, "subject")
  {
    ChainErrors(lib, req);
  }

  /**
   * A recipient that fails the email check is reported, with its message and as the
   * first error, whatever the other fields hold; one that passes is never reported.
   */
  lemma RecipientRule(lib: EmailLibrary, req: SendRequest)
    ensures var errors := Validate(lib, req).errors;
      && ErrorsFor(errors, "toEmail")
         == (if lib.isEmail(FieldText(req.toEmail)) then [] else [FieldError("toEmail", InvalidRecipientMessage)])
      && (!lib.isEmail(FieldText(req.toEmail)) ==> errors[0] == FieldError("toEmail", InvalidRecipientMessage))
  {
    ChainErrors(lib, req);
  }

  /** A missing recipient is checked as "", which the email check refuses. */
  lemma MissingRecipientRejected(lib: EmailLibrary, req: SendRequest)
    requires !lib.isEmail("") && req.toEmail == None
    ensures Validate(lib, req).errors[0] == FieldError("toEmail", InvalidRecipientMessage)
  {
    TrimAllWhiteSpace("");
  }

  /**
   * The content rules: content that is empty after trimming gets both messages,
   * content of 1 to 50000 characters gets none, longer content the length message only.
   */
  lemma ContentRule(lib: EmailLibrary, req: SendRequest)
    ensures var c, errors := FieldText(req.emailContent), Validate(lib, req).errors;
      ErrorsFor(errors, "emailContent") ==
        if |c| == 0 then [FieldError("emailContent", ContentRequiredMessage), FieldError("emailContent", ContentLengthMessage)]
        else if |c| <= MaxContentLength then []
        else [FieldError("emailContent", ContentLengthMessage)]
  {
    ChainErrors(lib, req);
  }

  /** Missing content and content made only of white space are both rejected as empty. */
  lemma BlankContentRejected(lib: EmailLibrary, req: SendRequest)
    requires req.emailContent == None || AllWhiteSpace(req.emailContent.value)
    ensures FieldError("emailContent", ContentRequiredMessage) in Validate(lib, req).errors
  {
    TrimAllWhiteSpace(req.emailContent.GetOr(""));
    ContentRule(lib, req);
  }

  /**
   * The subject rule: an absent subject is never an error; a present one is
   * reported exactly when it is longer than 200 characters after trimming.
   */
  lemma SubjectRule(lib: EmailLibrary, req: SendRequest)
    ensures var errors := Validate(lib, req).errors;
      ErrorsFor(errors, "subject") ==
        if req.subject.Some? && |Trim(req.subject.value)| > MaxSubjectLength
        then [FieldError("subject", SubjectLengthMessage)] else []
  {
    ChainErrors(lib, req);
  }

  /**
   * The limit is inclusive, although the message says "less than 200": a trimmed
   * subject of exactly 200 characters passes and one of 201 fails.
   */
  lemma SubjectBoundary(lib: EmailLibrary, req: SendRequest)
    requires req.subject.Some?
    ensures |Trim(req.subject.value)| == 200 ==> !Reports(Validate(lib, req).errors, "subject")
    ensures |Trim(req.subject.value)| == 201 ==> Reports(Validate(lib, req).errors, "subject")
  {
    SubjectRule(lib, req);
    ReportsWhenFiltered(Validate(lib, req).errors, "subject");
  }

  /** `errors` reports field `path` at least once. */
  predicate Reports(errors: seq<FieldError>, path: string) {
    exists e :: e in errors && e.path == path
  }

  lemma ReportsWhenFiltered(errors: seq<FieldError>, path: string)
    ensures Reports(errors, path) <==> ErrorsFor(errors, path) != []
  {
    if ErrorsFor(errors, path) != [] {
      assert ErrorsFor(errors, path)[0] in ErrorsFor(errors, path);
    }
  }

  /**
   * The rules run independently: each field that breaks its rule is reported,
   * so a request can be refused for several reasons at once.
   */
  lemma AllViolationsReported(lib: EmailLibrary, req: SendRequest)
    ensures var errors := Validate(lib, req).errors;
      && (Reports(errors, "toEmail") <==> !lib.isEmail(FieldText(req.toEmail)))
      && (Reports(errors, "emailContent") <==> !(0 < |FieldText(req.emailContent)| <= MaxContentLength))
      && (Reports(errors, "subject") <==> req.subject.Some? && |Trim(req.subject.value)| > MaxSubjectLength)
  {
    var errors := Validate(lib, req).errors;
    ChainErrors(lib, req);
    ReportsWhenFiltered(errors, "toEmail");
    ReportsWhenFiltered(errors, "emailContent");
    ReportsWhenFiltered(errors, "subject");
  }
}
