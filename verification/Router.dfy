/** The router's decisions over credentials, allow-list and tokens: who may connect where, and the
    token endpoints under `/auth/`. Requests are taken as already parsed. */
module Router {
  import opened Text
  import opened Target
  import opened Auth
  import opened TokenStore

  const ANONYMOUS := "anonymous"

  // ----- connecting ---------------------------------------------------------------------------

  /** What a request is let in as, or whether the refusal offers a Bearer challenge with an error. */
  datatype Decision = Accepted(user: string) | Rejected(bearerPresented: bool)

  /** An access token is worth something only while `HasUser` holds of the user it names. */
  function VerifiedUser(settings: Settings, verified: Option<string>): Option<string> {
    if verified.Some? && HasUser(settings.expected, verified.value) then verified else None
  }

  /** `authorize_request`. The header is absent or not visible ASCII when `authorization` is `None`. */
  function Authorize(cfg: Config, settings: Settings, s: Store, now: Instant, path: string,
                     authorization: Option<string>): Decision {
    if AllowsAnonymous(settings.targets, path) then Accepted(ANONYMOUS)
    else match authorization
      case None => Rejected(false)
      case Some(a) =>
        match BearerToken(a)
        case Some(token) =>
          (match VerifiedUser(settings, VerifyAnswer(cfg, s, now, token))
           case Some(user) => Accepted(user)
           case None => Rejected(true))
        case None =>
          match BasicUser(settings.expected, a)
          case Some(user) => Accepted(user)
          case None => Rejected(false)
  }

  const HEALTH_CHECK_PATH := "/"

  datatype Route = HealthCheck | Proxy(target: Target)

  /** `capture_requested_target`: where an accepted request goes; `None` is a 400. */
  function CaptureTarget(path: string): Option<Route> {
    if path == HEALTH_CHECK_PATH then Some(HealthCheck)
    else match ParseTarget(path)
      case Some(target) => Some(Proxy(target))
      case None => None
  }

  /** Which upstream an accepted path asks for: the protocol by its prefix, the host and port as the rest
      says. `/` is the health check; anything else is a bad request. */
  lemma CaptureExactly(path: string, host: string, port: u16)
    ensures CaptureTarget("/tcp:" + path) == Some(Proxy(Target(Tcp, host, port)))
            <==> ParseHostPort(path) == Some((host, port))
    ensures CaptureTarget("/udp:" + path) == Some(Proxy(Target(Udp, host, port)))
            <==> ParseHostPort(path) == Some((host, port))
    ensures CaptureTarget(path).None? <==>
              path != "/" && !(exists rest, h, p :: WritesHostPort(rest, h, p)
                                && (path == "/tcp:" + rest || path == "/udp:" + rest))
    ensures CaptureTarget(path) == Some(HealthCheck) <==> path == "/"
  {
    hide ParseHostPort, WritesHostPort;
    assert ("/tcp:" + path)[5..] == path && ("/udp:" + path)[5..] == path;
    if ParseTarget(path).Some? {
      var t := ParseTarget(path).value;
      ParseTargetExactly(path, t);
      var rest :| WritesHostPort(rest, t.host, t.port)
                  && path == (match t.protocol case Tcp => "/tcp:" case Udp => "/udp:") + rest;
      assert path == "/tcp:" + rest || path == "/udp:" + rest;
    }
    forall rest, h, p | WritesHostPort(rest, h, p) && (path == "/tcp:" + rest || path == "/udp:" + rest)
      ensures ParseTarget(path).Some?
    {
      ParseTargetExactly(path, Target(if path == "/tcp:" + rest then Tcp else Udp, h, p));
    }
  }

  datatype Handshake = Routed(user: string, route: Route) | BadPath | Unauthorized(bearerPresented: bool)

  function HandshakeAnswer(cfg: Config, settings: Settings, s: Store, now: Instant, path: string,
                           authorization: Option<string>): Handshake {
    match Authorize(cfg, settings, s, now, path, authorization)
    case Rejected(bearer) => Unauthorized(bearer)
    case Accepted(user) =>
      match CaptureTarget(path)
      case Some(route) => Routed(user, route)
      case None => BadPath
  }

  // ----- the token endpoints ------------------------------------------------------------------

  /** A plain request under `/auth/`, with the random numbers its call would draw. */
  datatype Request = Request(
    path: string,
    isPost: bool,
    hasBody: bool,
    authorization: Option<string>,
    family: Option<AccessToken.u64>,
    drawn: Option<string>)

  datatype Response =
    | NotFound
    | MethodNotAllowed
    | BadRequest
    | BasicChallenge
    | BearerChallenge(invalidToken: bool)
    | TokenPair(user: string, tokens: IssuedTokens)
    | TooManyLogins
    | ServerError
    | NoContent

  /** The answer to a request that makes no call of the token service. */
  function Refusal(settings: Settings, r: Request): Option<Response> {
    if r.path !in {"/auth/token", "/auth/refresh", "/auth/revoke"} then Some(NotFound)
    else if !r.isPost then Some(MethodNotAllowed)
    else if r.hasBody then Some(BadRequest)
    else if r.path == "/auth/token" then
      if r.authorization.Some? && BasicUser(settings.expected, r.authorization.value).Some? then None
      else Some(BasicChallenge)
    else
      if r.authorization.Some? && BearerToken(r.authorization.value).Some? then None
      else Some(BearerChallenge(false))
  }

  /** The call of the token service that any other request makes. */
  function CallOf(settings: Settings, r: Request): Event
    requires Refusal(settings, r).None?
  {
    var a := r.authorization.value;
    if r.path == "/auth/token" then Login(BasicUser(settings.expected, a).value, r.family, r.drawn)
    else if r.path == "/auth/refresh" then
      Refresh(BearerToken(a).value, user => HasUser(settings.expected, user), r.drawn)
    else Revoke(BearerToken(a).value)
  }

  function Respond(answer: Answer): Response {
    match answer
    case Granted(user, tokens) => TokenPair(user, tokens)
    case Refused(Invalid) => BearerChallenge(true)
    case Refused(Reused(_)) => BearerChallenge(true)
    case Refused(Full) => TooManyLogins
    case Refused(Random) => ServerError
    case Revoked(_) => NoContent
    case Verified(_) => ServerError
  }

  function AuthStep(cfg: Config, settings: Settings, s: Store, now: Instant, r: Request)
    : (Store, Response)
  {
    match Refusal(settings, r)
    case Some(response) => (s, response)
    case None =>
      var (s', answer) := Step(cfg, s, now, CallOf(settings, r));
      (s', Respond(answer))
  }
}
