/** The `/send-passkey` handler of the passkey relay server as a total
    function from the configuration, the request and the email provider's
    answer to the response and the email handed to the provider, plus the
    startup guard on the server's configuration. */
module PasskeyServer {
  import opened JsValues
  import opened Patterns
  import opened Composition

  /** The JSON body fields the handler destructures.  A request without a
      body destructures as all three absent. */
  datatype Request = Request(email: Option<string>, username: Option<string>, passkey: Option<string>)

  /** The three guards, in the order the handler applies them. */
  datatype Rejection = MissingFields | BadEmailFormat | BadPasskeyFormat

  const RequiredMessage: string := "email and passkey are required"
  const EmailFormatMessage: string := "Invalid email format"
  const PasskeyFormatMessage: string := "Passkey must be 6 digits"
  const UpstreamMessage: string := "Failed to send email"
  const InternalMessage: string := "Internal server error"

  function RejectionMessage(r: Rejection): string {
    match r
    case MissingFields => RequiredMessage
    case BadEmailFormat => EmailFormatMessage
    case BadPasskeyFormat => PasskeyFormatMessage
  }

  /** Each guard has its own message, so the response tells which one failed. */
  lemma RejectionMessagesDistinct(a: Rejection, b: Rejection)
    ensures RejectionMessage(a) == RejectionMessage(b) ==> a == b
  {
  }

  datatype Validation = Accepted(email: string, passkey: string) | Rejected(reason: Rejection)

  /** The guard chain: presence of `email` and `passkey`, then the email
      pattern, then the passkey pattern; the first guard that fails decides. */
  function Validate(req: Request): (v: Validation)
    ensures v.Accepted? <==>
      (Truthy(req.email) && Truthy(req.passkey)
       && ValidEmail(req.email.value) && ValidPasskey(req.passkey.value))
    ensures v.Accepted? ==> req.email == Some(v.email) && req.passkey == Some(v.passkey)
    ensures v == Rejected(MissingFields) <==> !Truthy(req.email) || !Truthy(req.passkey)
    ensures v == Rejected(BadEmailFormat) <==>
      Truthy(req.email) && Truthy(req.passkey) && !ValidEmail(req.email.value)
  {
    if !Truthy(req.email) || !Truthy(req.passkey) then Rejected(MissingFields)
    else if !ValidEmail(req.email.value) then Rejected(BadEmailFormat)
    else if !ValidPasskey(req.passkey.value) then Rejected(BadPasskeyFormat)
    else Accepted(req.email.value, req.passkey.value)
  }

  /** What the email provider's send call produced: a result whose `error`
      is set, a result with `data` (whose `id` may be missing), or an
      exception. */
  datatype SendResult = ProviderError(details: string) | Sent(id: Option<string>) | Threw

  /** The HTTP responses of the handler. */
  datatype Response = BadRequest(error: string) | UpstreamError(details: string) | Ok(id: Option<string>) | InternalError

  function Status(r: Response): nat {
    match r
    case BadRequest(_) => 400
    case UpstreamError(_) => 502
    case Ok(_) => 200
    case InternalError => 500
  }

  /** The `error` field of the JSON body; a success body `{ok: true, id}` has none. */
  function ErrorField(r: Response): Option<string> {
    match r
    case BadRequest(e) => Some(e)
    case UpstreamError(_) => Some(UpstreamMessage)
    case Ok(_) => None
    case InternalError => Some(InternalMessage)
  }

  /** The configuration the server starts with. */
  datatype Config = Config(resendApiKey: string, fromEmail: string, port: string)

  /** The email handed to the provider; its HTML part is not modelled. */
  datatype Email = Email(from: string, to: string, subject: string, text: string)

  function Compose(cfg: Config, email: string, username: Option<string>, passkey: string): (e: Email)
    ensures e.to == email && e.from == cfg.fromEmail && e.subject == Subject
    ensures |passkey| == PasskeyLength ==>
      ReadTextBody(e.text) == Some((Greeting(username), passkey))
  {
    var text := TextBody(Greeting(username), passkey);
    if |passkey| == PasskeyLength then
      ReadTextBodyRoundTrip(Greeting(username), passkey);
      Email(cfg.fromEmail, email, Subject, text)
    else
      Email(cfg.fromEmail, email, Subject, text)
  }

  /** Maps the provider's answer to a response. */
  function Respond(result: SendResult): (r: Response)
    ensures Status(r) != 400
    ensures r.Ok? <==> result.Sent?
    ensures ErrorField(r).None? <==> result.Sent?
  {
    match result
    case ProviderError(details) => UpstreamError(details)
    case Sent(id) => Ok(id)
    case Threw => InternalError
  }

  /** One request: the response, and the email handed to the provider if the
      handler got as far as sending one. */
  datatype Exchange = Exchange(response: Response, sent: Option<Email>)

  function Handle(cfg: Config, req: Request, result: SendResult): (x: Exchange)
    ensures x.sent.None? <==> Status(x.response) == 400
    ensures x.sent.Some? <==> Validate(req).Accepted?
    ensures x.sent.Some? ==>
      x.sent.value.to == req.email.value && x.sent.value.from == cfg.fromEmail
      && x.sent.value.subject == Subject
      && ReadTextBody(x.sent.value.text) == Some((Greeting(req.username), req.passkey.value))
  {
    match Validate(req)
    case Rejected(why) => Exchange(BadRequest(RejectionMessage(why)), None)
    case Accepted(email, passkey) =>
      Exchange(Respond(result), Some(Compose(cfg, email, req.username, passkey)))
  }

  /** An absent or empty `email` or `passkey` is refused first, whatever the
      other fields hold, and nothing is sent. */
  lemma PresenceCheckedFirst(cfg: Config, req: Request, result: SendResult)
    requires !Truthy(req.email) || !Truthy(req.passkey)
    ensures Handle(cfg, req, result) == Exchange(BadRequest(RequiredMessage), None)
  {
  }

  /** A present but malformed email is refused before the passkey is looked
      at, so a request with both malformed reports the email. */
  lemma EmailCheckedBeforePasskey(cfg: Config, req: Request, result: SendResult)
    requires Truthy(req.email) && Truthy(req.passkey) && !ValidEmail(req.email.value)
    ensures Handle(cfg, req, result) == Exchange(BadRequest(EmailFormatMessage), None)
  {
  }

  /** With both fields present and the email well formed, a passkey that is
      not six ASCII digits is refused and nothing is sent. */
  lemma PasskeyCheckedLast(cfg: Config, req: Request, result: SendResult)
    requires Truthy(req.email) && Truthy(req.passkey) && ValidEmail(req.email.value)
    requires |req.passkey.value| != 6 || exists i :: 0 <= i < |req.passkey.value| && !IsDigit(req.passkey.value[i])
    ensures Handle(cfg, req, result) == Exchange(BadRequest(PasskeyFormatMessage), None)
  {
    ValidPasskeyIff(req.passkey.value);
  }

  /** The provider is reached exactly when both fields are present, the
      email matches the email pattern and the passkey is six ASCII digits. */
  lemma SentOnlyWhenPatternsMatch(cfg: Config, req: Request, result: SendResult)
    ensures Handle(cfg, req, result).sent.Some? <==>
      (Truthy(req.email) && Truthy(req.passkey) && MatchesEmailPattern(req.email.value)
       && |req.passkey.value| == 6 && forall i :: 0 <= i < 6 ==> IsDigit(req.passkey.value[i]))
  {
    if Truthy(req.email) && Truthy(req.passkey) {
      ValidEmailMatchesPattern(req.email.value);
      ValidPasskeyIff(req.passkey.value);
    }
  }

  /** A refused request does not depend on the provider at all. */
  lemma ProviderIgnoredOnRejection(cfg: Config, req: Request, a: SendResult, b: SendResult)
    requires Handle(cfg, req, a).sent.None?
    ensures Handle(cfg, req, a) == Handle(cfg, req, b)
  {
  }

  /** For an accepted request the provider's answer decides the response:
      an error gives 502 with its details, success gives 200 with the id and
      an exception gives 500. */
  lemma ProviderDecidesOutcome(cfg: Config, req: Request, result: SendResult)
    requires Validate(req).Accepted?
    ensures var r := Handle(cfg, req, result).response;
      match result
      case ProviderError(d) => r == UpstreamError(d) && Status(r) == 502 && ErrorField(r) == Some(UpstreamMessage)
      case Sent(id) => r == Ok(id) && Status(r) == 200 && ErrorField(r).None?
      case Threw => r == InternalError && Status(r) == 500 && ErrorField(r) == Some(InternalMessage)
  {
  }

  /** Documented refusals: five digits, a malformed email, and both at once. */
  lemma DocumentedRefusals(cfg: Config, result: SendResult)
    ensures Handle(cfg, Request(Some("a@b.com"), None, Some("12345")), result).response
      == BadRequest(PasskeyFormatMessage)
    ensures Handle(cfg, Request(Some("bad"), None, Some("123456")), result).response
      == BadRequest(EmailFormatMessage)
    ensures Handle(cfg, Request(Some("bad"), None, Some("12")), result).response
      == BadRequest(EmailFormatMessage)
  {
    AcceptsPlainAddress();
    RejectsMissingParts();
    PasskeyExamples();
  }

  /** The documented success: a well-formed request and a provider that
      returns an id give 200 with that id. */
  lemma DocumentedSuccess(cfg: Config, id: string)
    ensures Handle(cfg, Request(Some("a@b.com"), None, Some("123456")), Sent(Some(id))).response
      == Ok(Some(id))
  {
    AcceptsPlainAddress();
    PasskeyExamples();
  }

  /** The process environment the server reads at startup. */
  datatype Env = Env(resendApiKey: Option<string>, fromEmail: Option<string>, port: Option<string>)

  datatype Startup = Exit(code: int) | Listen(config: Config)

  /** The server listens only when both the provider key and the sender
      address are set and non-empty; otherwise the process exits with 1.
      The port defaults to 3000. */
  function Start(env: Env): (s: Startup)
    ensures s.Listen? <==> Truthy(env.resendApiKey) && Truthy(env.fromEmail)
    ensures s.Exit? ==> s.code == 1
    ensures s.Listen? ==>
      Some(s.config.resendApiKey) == env.resendApiKey && s.config.resendApiKey != ""
      && Some(s.config.fromEmail) == env.fromEmail && s.config.fromEmail != ""
      && s.config.port == OrElse(env.port, "3000")
  {
    if !Truthy(env.resendApiKey) || !Truthy(env.fromEmail) then Exit(1)
    else Listen(Config(env.resendApiKey.value, env.fromEmail.value, OrElse(env.port, "3000")))
  }
}
