/** The configuration object that requests and reloads share, and the two request handlers. */
module AuthConfig {
  import opened Text
  import opened Auth
  import opened Router
  import opened TokenStore
  import opened TokenService

  class AuthConfig {
    const fixedAuthorizations: seq<string>
    const fixedAnonymousTargets: seq<string>
    const tokens: TokenService
    var expectedAuthorizations: seq<string>
    var anonymousTargets: seq<string>

    ghost function View(): Settings
      reads this
    {
      Settings(fixedAuthorizations, expectedAuthorizations, fixedAnonymousTargets, anonymousTargets)
    }

    constructor (settings: Settings, tokens: TokenService)
      ensures View() == settings && this.tokens == tokens
    {
      fixedAuthorizations, expectedAuthorizations := settings.fixed, settings.expected;
      fixedAnonymousTargets, anonymousTargets := settings.fixedTargets, settings.targets;
      this.tokens := tokens;
    }

    /** Replaces the credentials by the fixed ones and those of `file`; on any error they stay. */
    method ReloadAuthFile(file: Option<string>) returns (r: ReloadResult)
      modifies this`expectedAuthorizations
      ensures (View(), r) == ReloadAuth(old(View()), file)
    {
      var entries := LoadCredentials(file);
      if entries.None? {
        return Failed;
      }
      var next := fixedAuthorizations;
      next := next + Encoded(entries.value);
      if next == [] {
        return Failed;
      }
      if expectedAuthorizations == next {
        return Unchanged;
      }
      expectedAuthorizations := next;
      r := Changed;
    }

    method ReloadAnonymousTargetFile(file: Option<string>) returns (r: ReloadResult)
      modifies this`anonymousTargets
      ensures (View(), r) == ReloadTargets(old(View()), file)
    {
      var entries := LoadTargets(file);
      if entries.None? {
        return Failed;
      }
      var next := fixedAnonymousTargets;
      next := next + Addrs(entries.value);
      if anonymousTargets == next {
        return Unchanged;
      }
      anonymousTargets := next;
      r := Changed;
    }

    method VerifyAccessToken(token: string, now: Instant) returns (user: Option<string>)
      ensures user == VerifiedUser(View(), VerifyAnswer(tokens.cfg, tokens.View(), now, token))
    {
      user := tokens.VerifyAccess(token, now);
      if user.Some? && !HasUser(expectedAuthorizations, user.value) {
        user := None;
      }
    }
  }

  /** Without a configuration everybody is let in anonymously. */
  method AuthorizeRequest(auth: AuthConfig?, path: string, authorization: Option<string>,
                          now: Instant) returns (d: Decision)
    ensures auth == null ==> d == Accepted(ANONYMOUS)
    ensures auth != null ==>
              d == Authorize(auth.tokens.cfg, auth.View(), auth.tokens.View(), now, path, authorization)
  {
    if auth == null {
      return Accepted(ANONYMOUS);
    }
    if AllowsAnonymous(auth.anonymousTargets, path) {
      return Accepted(ANONYMOUS);
    }
    if authorization.None? {
      return Rejected(false);
    }
    var bearerPresented := false;
    var authorizedUser: Option<string> := None;
    match BearerToken(authorization.value) {
      case Some(token) =>
        bearerPresented := true;
        authorizedUser := auth.VerifyAccessToken(token, now);
      case None =>
        authorizedUser := BasicUser(auth.expectedAuthorizations, authorization.value);
    }
    match authorizedUser {
      case Some(user) => d := Accepted(user);
      case None => d := Rejected(bearerPresented);
    }
  }

  /** Answers a plain request under `/auth/`; there are no endpoints without a configuration. */
  method HandleAuthRequest(auth: AuthConfig?, r: Request, now: Instant) returns (response: Response)
    modifies if auth == null then {} else {auth.tokens}
    ensures auth == null ==> response == NotFound
    ensures auth != null ==>
              (auth.tokens.View(), response)
              == AuthStep(auth.tokens.cfg, auth.View(), old(auth.tokens.View()), now, r)
  {
    if auth == null {
      return NotFound;
    }
    var refusal := Refusal(
      Settings(auth.fixedAuthorizations, auth.expectedAuthorizations,
               auth.fixedAnonymousTargets, auth.anonymousTargets), r);
    if refusal.Some? {
      return refusal.value;
    }
    var authorization, expected := r.authorization.value, auth.expectedAuthorizations;
    var answer: Answer;
    if r.path == "/auth/token" {
      answer := auth.tokens.Login(BasicUser(expected, authorization).value, now, r.family, r.drawn);
    } else if r.path == "/auth/refresh" {
      answer := auth.tokens.Refresh(BearerToken(authorization).value,
                                    user => HasUser(expected, user), now, r.drawn);
    } else {
      var known := auth.tokens.Revoke(BearerToken(authorization).value, now);
      answer := Revoked(known);
    }
    response := Respond(answer);
  }
}
