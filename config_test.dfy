/**
 * The `GET /api/test` handler of app.js (lines 113-135): the provider's `verify`
 * is a parameter, and the answer shows the service and a masked sender.
 */
module ConfigTest {
  import opened Wrappers
  import opened Js
  import opened Config
  import opened Masking

  /** What `transporter.verify()` does: it resolves, or it rejects with an error message. */
  datatype VerifyOutcome = Verified | VerifyFailed(message: string)

  /** The JSON responses of the handler. */
  datatype TestResponse =
    | ConfigValid(service: string, user: string)
    | ConfigFailed(error: string)
  {
    function Status(): nat {
      match this
      case ConfigValid(_, _) => 200
      case ConfigFailed(_) => 500
    }

    /** The `success` field. */
    predicate Success() {
      ConfigValid?
    }

    /** The `message` field. */
    function Message(): string {
      match this
      case ConfigValid(_, _) => "Email configuration is valid"
      case ConfigFailed(_) => "Email configuration failed"
    }
  }

  /** `process.env.EMAIL_SERVICE || "gmail"`: the configured service, or "gmail" when it is unset or "". */
  function ServiceName(env: Env): (r: string)
    ensures r != ""
    ensures Truthy(env.emailService) ==> r == env.emailService.value
    ensures !Truthy(env.emailService) ==> r == "gmail"
  {
    Or(env.emailService, "gmail")
  }

  /**
   * `config.user`: the masked sender, or "Not configured" when `EMAIL_USER` is unset
   * or "". A single-line sender whose last '@' is at index 2 or later shows two
   * characters, "***" and the suffix from that '@'; one with no '@' at index 2 or
   * later is shown as it is.
   */
  function ShownUser(user: Option<string>): (r: string)
    ensures !Truthy(user) ==> r == "Not configured"
    ensures forall q: nat :: Truthy(user) && SingleLine(user.value) && 2 <= q && IsLastAt(user.value, q) ==>
      r == user.value[..2] + "***" + user.value[q..]
    ensures Truthy(user) && SingleLine(user.value) && NoAtFrom(user.value, 2) ==> r == user.value
  {
    if Truthy(user) then
      MaskTable(user.value);
      MaskUser(user.value)
    else
      "Not configured"
  }

  /** The handler. */
  function HandleTest(env: Env, verify: VerifyOutcome): (r: TestResponse)
    ensures r.Status() == 200 <==> verify == Verified
    ensures r.ConfigValid? ==> r.service == ServiceName(env) && r.user == ShownUser(env.emailUser)
    ensures verify.VerifyFailed? ==> r == ConfigFailed(verify.message)
  {
    match verify
    case Verified => ConfigValid(ServiceName(env), ShownUser(env.emailUser))
    case VerifyFailed(message) => ConfigFailed(message)
  }

  /**
   * The shown sender, for a sender without line breaks: unset or "" shows
   * "Not configured"; one with an '@' at index 2 or later shows its first two
   * characters, "***" and everything from its last '@'; any other is shown as it is.
   */
  lemma ShownUserTable(env: Env, verify: VerifyOutcome)
    requires verify == Verified
    requires env.emailUser.Some? ==> SingleLine(env.emailUser.value)
    ensures var r := HandleTest(env, verify);
      && (!Truthy(env.emailUser) ==> r.user == "Not configured")
      && (forall q: nat :: Truthy(env.emailUser) && IsLastAt(env.emailUser.value, q) && q >= 2 ==>
            r.user == env.emailUser.value[..2] + "***" + env.emailUser.value[q..])
      && (Truthy(env.emailUser) && NoAtFrom(env.emailUser.value, 2) ==> r.user == env.emailUser.value)
  {
  }

  /** On success the service defaults to "gmail" when `EMAIL_SERVICE` is unset or "". */
  lemma ServiceDefaults(env: Env)
    ensures var r := HandleTest(env, Verified);
      r.service == if Truthy(env.emailService) then env.emailService.value else "gmail"
  {
  }

  /**
   * A failed check gives 500 with the provider's error message, in every mode:
   * unlike the send route, this one does not look at `NODE_ENV`.
   */
  lemma FailureShowsError(env: Env, env': Env, message: string)
    ensures var r := HandleTest(env, VerifyFailed(message));
      && r.Status() == 500 && !r.Success() && r.Message() == "Email configuration failed"
      && r.error == message
      && r == HandleTest(env', VerifyFailed(message))
  {
  }
}
