/** The environment variables app.js reads; `None` when a variable is unset. */
module Config {
  import opened Wrappers

  /** `NODE_ENV`, `EMAIL_USER` and `EMAIL_SERVICE` (the password is only handed to the provider). */
  datatype Env = Env(nodeEnv: Option<string>, emailUser: Option<string>, emailService: Option<string>)

  /** `process.env.NODE_ENV === "development"`: exact comparison, no other value counts. */
  predicate IsDevelopment(env: Env) {
    env.nodeEnv == Some("development")
  }

  /**
   * `process.env.NODE_ENV === "development" ? error.message : undefined`: the
   * message is passed on when, and only when, `NODE_ENV` is exactly "development".
   */
  function ErrorDetail(env: Env, message: string): (r: Option<string>)
    ensures r.Some? <==> env.nodeEnv == Some("development")
    ensures r.Some? ==> r.value == message
  {
    if IsDevelopment(env) then Some(message) else None
  }
}
