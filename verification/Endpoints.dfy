/** What each request gets, in terms of its own fields, what is configured and what happened before, for
    every state that a run of the router reaches. */
module Endpoints {
  import opened Text
  import opened Target
  import opened Auth
  import opened Router
  import opened AccessToken
  import opened TokenStore
  import opened Ledger
  import opened TokenRuns
  import opened RouterRuns

  /** A plain request that asks for `path` the way the endpoints want to be asked. */
  predicate Asks(e: RouterEvent, path: string) {
    e.Plain? && e.request.path == path && e.request.isPost && !e.request.hasBody
  }

  predicate BearsToken(a: Option<string>, t: string) {
    a.Some? && BearerToken(a.value) == Some(t)
  }

  // ----- refusals ------------------------------------------------------------------------------

  /** What is refused before the token service is asked, in this order; it changes nothing. */
  lemma RefusedExactly(u: Setup, moments: seq<Moment>, i: nat)
    requires RouterRun(u, moments) && i < |moments| && moments[i].event.Plain?
    ensures var r, response := moments[i].event.request, ResponseAt(u, moments, i);
            var credentials := WorldAt(u, moments, i).meaning.Credentials();
            var known := r.path in {"/auth/token", "/auth/refresh", "/auth/revoke"};
            && (response.NotFound? <==> !known)
            && (response.MethodNotAllowed? <==> known && !r.isPost)
            && (response.BadRequest? <==> known && r.isPost && r.hasBody)
            && (response.BasicChallenge? <==>
                  Asks(moments[i].event, "/auth/token") && !NamesUser(credentials, r.authorization))
            && (response == BearerChallenge(false) <==>
                  (Asks(moments[i].event, "/auth/refresh") || Asks(moments[i].event, "/auth/revoke"))
                  && forall t :: !BearsToken(r.authorization, t))
            && (response.NotFound? || response.MethodNotAllowed? || response.BadRequest?
                || response.BasicChallenge? || response == BearerChallenge(false) ==>
                  WorldAt(u, moments, i + 1) == WorldAt(u, moments, i))
  {
    hide RouterRun, WorldAt, BearerToken, NamesUser, BasicUser;
    ReachableRouter(u, moments, i);
    var w, m := WorldAt(u, moments, i), moments[i];
    WorldNext(u, moments, i);
    NamedUserExactly(w, m.event.request.authorization);
    RefusalExactly(u.cfg, w.settings, w.store, m.now, m.event.request);
    if Refusal(w.settings, m.event.request).Some? {
      RefusedChangesNothing(u.cfg, w, m);
    }
    if m.event.request.authorization.Some? {
      var t := BearerToken(m.event.request.authorization.value);
      assert t.Some? ==> BearsToken(m.event.request.authorization, t.value);
    }
  }

  /** The header encodes `user:password` for a configured pair. */
  predicate NamesUser(credentials: seq<string>, a: Option<string>) {
    a.Some? && exists c :: c in credentials && ValidCredential(c) && a.value == EncodeCredential(c)
  }

  lemma NamedUserExactly(w: RouterWorld, a: Option<string>)
    requires Means(w.settings, w.meaning)
    ensures a.Some? && BasicUser(w.settings.expected, a.value).Some? <==> NamesUser(w.meaning.Credentials(), a)
  {
    hide BasicUser, ValidCredential, EncodeCredential, Encoded;
    var cs := w.meaning.Credentials();
    if a.Some? {
      if BasicUser(w.settings.expected, a.value).Some? {
        BasicLoginIsExact(cs, a.value, BasicUser(w.settings.expected, a.value).value);
      }
      if NamesUser(cs, a) {
        var c :| c in cs && ValidCredential(c) && a.value == EncodeCredential(c);
        CredentialInParts(c);
        BasicLoginIsExact(cs, a.value, UserOf(c));
      }
    }
  }

  lemma CredentialInParts(c: string)
    requires ValidCredential(c)
    ensures ':' !in UserOf(c) && exists password :: c == UserOf(c) + ":" + password
  {
    assert c == UserOf(c) + ":" + SplitOnce(c, ':').value.1;
  }

  lemma RefusalExactly(cfg: Config, settings: Settings, s: Store, now: Instant, r: Request)
    ensures var response := AuthStep(cfg, settings, s, now, r).1;
            var known := r.path in {"/auth/token", "/auth/refresh", "/auth/revoke"};
            && (response.NotFound? <==> !known)
            && (response.MethodNotAllowed? <==> known && !r.isPost)
            && (response.BadRequest? <==> known && r.isPost && r.hasBody)
            && (response.BasicChallenge? <==>
                  Asks(Plain(r), "/auth/token")
                  && !(r.authorization.Some? && BasicUser(settings.expected, r.authorization.value).Some?))
            && (response == BearerChallenge(false) <==>
                  (Asks(Plain(r), "/auth/refresh") || Asks(Plain(r), "/auth/revoke"))
                  && !(r.authorization.Some? && BearerToken(r.authorization.value).Some?))
            && (Refusal(settings, r).Some? <==>
                  response.NotFound? || response.MethodNotAllowed? || response.BadRequest?
                  || response.BasicChallenge? || response == BearerChallenge(false))
  {
    hide Step, BasicUser, BearerToken, HasUser;
  }

  lemma RefusedChangesNothing(cfg: Config, w: RouterWorld, m: Moment)
    requires m.event.Plain? && Refusal(w.settings, m.event.request).Some?
    ensures Next(cfg, w, m) == w
  {
    hide Step, CallOf, Refusal;
  }

  // ----- the three endpoints -------------------------------------------------------------------

  /** A login with the header of a configured pair: a pair for that user whose refresh token is the one
      that was drawn, or the reason why there is none. */
  lemma LoginIsAnswered(u: Setup, moments: seq<Moment>, i: nat, user: string, password: string)
    requires RouterRun(u, moments) && i < |moments| && Asks(moments[i].event, "/auth/token")
    requires ':' !in user && user + ":" + password in WorldAt(u, moments, i).meaning.Credentials()
    requires moments[i].event.request.authorization == Some(EncodeCredential(user + ":" + password))
    ensures var r, response, now := moments[i].event.request, ResponseAt(u, moments, i), moments[i].now;
            if r.family.None? then response == ServerError
            else if |LedgerAt(u, moments, i).Remembered(now)| >= MAX_RECORDS then response == TooManyLogins
            else if r.drawn.None? then response == ServerError
            else response.TokenPair? && response.user == user && response.tokens.refreshToken == r.drawn.value
  {
    hide RouterRun, WorldAt, EncodeCredential, BasicUser, Step, WellFormed, Recorded, Encoded, Allows,
         TokenCall, AuthStep, ResponseAt, TimedRun, After;
    ReachableRouter(u, moments, i);
    MomentStep(u, moments, i);
    var w, m := WorldAt(u, moments, i), moments[i];
    BasicLoginIsExact(w.meaning.Credentials(), m.event.request.authorization.value, user);
    LoginCalls(w.settings, m.event.request, user);
    ResponseIsAnswer(u, moments, i);
    var e := Login(user, m.event.request.family, m.event.request.drawn);
    LoginAnswer(u.cfg, LedgerAt(u, moments, i), m.now, e, Step(u.cfg, w.store, m.now, e).1);
  }

  lemma LoginAnswer(cfg: Config, l: Ledger, now: Instant, e: Event, a: Answer)
    requires e.Login? && Allows(cfg, l, now, e, a)
    ensures if e.family.None? then a == Answer.Refused(Random)
            else if |l.Remembered(now)| >= MAX_RECORDS then a == Answer.Refused(Full)
            else if e.drawn.None? then a == Answer.Refused(Random)
            else a.Granted? && a.user == e.user && a.tokens.refreshToken == e.drawn.value
  {
    hide Mint;
  }

  lemma LoginCalls(settings: Settings, r: Request, user: string)
    requires Asks(Plain(r), "/auth/token") && r.authorization.Some?
    requires BasicUser(settings.expected, r.authorization.value) == Some(user)
    ensures TokenCall(settings, Plain(r)) == Some(Login(user, r.family, r.drawn))
  {
    hide BasicUser, BearerToken, HasUser;
  }

  /** A refresh with the bearer token `t`: a pair for the user of a live, unexpired token, if they are
      configured; or the reason why there is none. */
  lemma RefreshIsAnswered(u: Setup, moments: seq<Moment>, i: nat, t: string)
    requires RouterRun(u, moments) && i < |moments| && Asks(moments[i].event, "/auth/refresh")
    requires BearsToken(moments[i].event.request.authorization, t)
    ensures var w, l, m := WorldAt(u, moments, i), LedgerAt(u, moments, i), moments[i];
            var r, response := m.event.request, ResponseAt(u, moments, i);
            if |l.Remembered(m.now)| >= MAX_RECORDS then response == TooManyLogins
            else if l.Fresh(t, m.now) && l.Active(t)
                    && Configured(w.meaning.Credentials(), l.UserOf(l.issued[t].family)) then
              if r.drawn.None? then response == ServerError
              else response.TokenPair? && response.user == l.UserOf(l.issued[t].family)
                   && response.tokens.refreshToken == r.drawn.value
            else response == BearerChallenge(true)
  {
    hide RouterRun, WorldAt, Step, WellFormed, Recorded, BearerToken, Configured, HasUser, TokenCall;
    ReachableRouter(u, moments, i);
    MomentStep(u, moments, i);
    var w, m, l := WorldAt(u, moments, i), moments[i], LedgerAt(u, moments, i);
    RefreshCalls(w.settings, m.event, t);
    ResponseIsAnswer(u, moments, i);
    var e := TokenCall(w.settings, m.event).value;
    if t in l.issued {
      ExistsMeansConfigured(w, l.UserOf(l.issued[t].family));
    }
    RefreshAnswer(u.cfg, l, m.now, e, Step(u.cfg, w.store, m.now, e).1);
  }

  lemma RefreshAnswer(cfg: Config, l: Ledger, now: Instant, e: Event, a: Answer)
    requires WellFormed(cfg, l) && e.Refresh? && Allows(cfg, l, now, e, a)
    ensures if |l.Remembered(now)| >= MAX_RECORDS then a == Answer.Refused(Full)
            else if l.Fresh(e.token, now) && l.Active(e.token)
                    && e.userExists(l.UserOf(l.issued[e.token].family)) then
              if e.drawn.None? then a == Answer.Refused(Random)
              else a.Granted? && a.user == l.UserOf(l.issued[e.token].family)
                   && a.tokens.refreshToken == e.drawn.value
            else a == Answer.Refused(Invalid) || (a.Refused? && a.error.Reused?)
  {
    hide Mint;
    if e.token in l.issued {
      assert l.issued[e.token].family in l.logins;
    }
  }

  /** A logout with the bearer token `t` ends the login of `t`, when `t` is unexpired and was not dropped;
      it is answered alike whatever `t` is. */
  lemma LogoutRevokes(u: Setup, moments: seq<Moment>, i: nat, t: string)
    requires RouterRun(u, moments) && i < |moments| && Asks(moments[i].event, "/auth/revoke")
    requires BearsToken(moments[i].event.request.authorization, t)
    ensures var l, l' := LedgerAt(u, moments, i), LedgerAt(u, moments, i + 1);
            && ResponseAt(u, moments, i) == NoContent
            && (l.Fresh(t, moments[i].now) && (l.Active(t) || t in l.used) ==>
                  l'.dead == l.dead + {l.issued[t].family})
            && (t !in l.issued ==> l' == l)
  {
    hide RouterRun, WorldAt, Step, WellFormed, BearerToken, TokenCall;
    MomentStep(u, moments, i);
    RevokeCalls(WorldAt(u, moments, i).settings, moments[i].event.request, t);
    ResponseIsAnswer(u, moments, i);
  }

  lemma RevokeCalls(settings: Settings, r: Request, t: string)
    requires Asks(Plain(r), "/auth/revoke") && BearsToken(r.authorization, t)
    ensures TokenCall(settings, Plain(r)) == Some(Revoke(t))
  {
    hide BasicUser, BearerToken, HasUser;
  }

  /** And then it stays ended: no access token of that login lets anybody in off the allow-list, and no
      refresh token of it gets another pair. */
  lemma LoggedOutForGood(u: Setup, moments: seq<Moment>, i: nat, j: nat, t: string, token: string, user: string)
    requires RouterRun(u, moments) && i < j < |moments| && Asks(moments[i].event, "/auth/revoke")
    requires BearsToken(moments[i].event.request.authorization, t)
    requires var l := LedgerAt(u, moments, i); l.Fresh(t, moments[i].now) && (l.Active(t) || t in l.used)
    ensures var w, m, f := WorldAt(u, moments, j), moments[j], LedgerAt(u, moments, i).issued[t].family;
            && (m.event.Connect? && BearsToken(m.event.authorization, token)
                && !AllowsAnonymous(w.settings.targets, m.event.path)
                && Open(u.cfg.sign, token).Some? && Open(u.cfg.sign, token).value.family == f ==>
                  Authorize(u.cfg, w.settings, w.store, m.now, m.event.path, m.event.authorization)
                  != Accepted(user))
            && (Asks(m.event, "/auth/refresh") && BearsToken(m.event.request.authorization, token)
                && token in LedgerAt(u, moments, j).issued
                && LedgerAt(u, moments, j).issued[token].family == f ==>
                  !ResponseAt(u, moments, j).TokenPair?)
  {
    hide RouterRun, WorldAt, BearerToken, AllowsAnonymous, Authorize, Open, Mint, Configured, AuthStep;
    LogoutRevokes(u, moments, i, t);
    MomentsGrow(u, moments, i + 1, j);
    var m := moments[j];
    if m.event.Connect? && BearsToken(m.event.authorization, token)
       && !AllowsAnonymous(WorldAt(u, moments, j).settings.targets, m.event.path) {
      BearerDecision(u, moments, j, token, user);
      forall p | token == Mint(u.cfg.sign, p) ensures Open(u.cfg.sign, token) == Some(p) {
        OpenMint(u.cfg.sign, p);
      }
    }
    if Asks(m.event, "/auth/refresh") && BearsToken(m.event.request.authorization, token) {
      RefreshIsAnswered(u, moments, j, token);
    }
  }

  // ----- connections ---------------------------------------------------------------------------

  /** Who is let in is routed as their path says, and who is not is told whether a bearer token was
      presented. */
  lemma HandshakeExactly(cfg: Config, settings: Settings, s: Store, now: Instant, path: string,
                         authorization: Option<string>)
    ensures var decision := Authorize(cfg, settings, s, now, path, authorization);
            var answer := HandshakeAnswer(cfg, settings, s, now, path, authorization);
            && (answer.BadPath? <==> decision.Accepted? && CaptureTarget(path).None?)
            && (forall user, route :: answer == Routed(user, route) <==>
                  decision == Accepted(user) && CaptureTarget(path) == Some(route))
            && (answer.Unauthorized? <==> decision.Rejected?)
            && (answer.Unauthorized? ==>
                  (answer.bearerPresented <==> exists t :: BearsToken(authorization, t)))
  {
    hide CaptureTarget, AllowsAnonymous, BearerToken, VerifyAnswer, BasicUser, HasUser;
    if authorization.Some? && BearerToken(authorization.value).Some? {
      assert BearsToken(authorization, BearerToken(authorization.value).value);
    }
  }

  /** A target on the allow-list is open to everybody, whatever they present. */
  lemma AllowListIsOpen(u: Setup, moments: seq<Moment>, i: nat, target: Target, listed: string)
    requires RouterRun(u, moments) && i < |moments| && moments[i].event.Connect?
    requires ParseTarget(moments[i].event.path) == Some(target)
    requires listed in WorldAt(u, moments, i).meaning.Targets()
    requires ParseHostPort(listed) == Some((target.host, target.port))
    ensures var w, m := WorldAt(u, moments, i), moments[i];
            HandshakeAnswer(u.cfg, w.settings, w.store, m.now, m.event.path, m.event.authorization)
            == Routed(ANONYMOUS, Proxy(target))
  {
    hide RouterRun, WorldAt, ParseHostPort, ParseTarget, VerifyAnswer, BearerToken, BasicUser;
    ReachableRouter(u, moments, i);
    AnonymousExactly(WorldAt(u, moments, i).meaning, moments[i].event.path);
    assert moments[i].event.path != "/" by { RootIsNoTarget(); }
  }

  lemma RootIsNoTarget()
    ensures ParseTarget("/") == None
  {
  }

  // ----- reloads -------------------------------------------------------------------------------

  /** The file loads and leaves at least one credential. */
  predicate Leaves(fixed: seq<string>, file: Option<string>) {
    LoadCredentials(file).Some? && fixed + LoadCredentials(file).value != []
  }

  /** The event puts a file of credentials, or of targets, into force. */
  predicate LoadsCredentials(u: Setup, e: RouterEvent) {
    e.ReloadCredentials? && Leaves(u.meaning.fixed, e.file)
  }

  predicate LoadsTargets(e: RouterEvent) {
    e.ReloadAllowList? && LoadTargets(e.file).Some?
  }

  lemma OneMomentLoads(u: Setup, moments: seq<Moment>, i: nat)
    requires RouterRun(u, moments) && i < |moments|
    ensures var before, after := WorldAt(u, moments, i).meaning, WorldAt(u, moments, i + 1).meaning;
            var e := moments[i].event;
            && after.loaded == (if LoadsCredentials(u, e) then LoadCredentials(e.file).value else before.loaded)
            && after.loadedTargets == (if LoadsTargets(e) then LoadTargets(e.file).value else before.loadedTargets)
  {
    hide RouterRun, WorldAt, LoadTargets, LoadCredentials, TokenCall, AuthStep, ReloadAuth, ReloadTargets;
    ReachableRouter(u, moments, i);
    WorldNext(u, moments, i);
  }

  /** What is configured beside the fixed entries is the last file that could be put into force. */
  lemma {:induction false} LastCredentialsCount(u: Setup, moments: seq<Moment>, k: nat, i: nat)
    requires RouterRun(u, moments) && k < i <= |moments| && LoadsCredentials(u, moments[k].event)
    requires forall j :: k < j < i ==> !LoadsCredentials(u, moments[j].event)
    ensures WorldAt(u, moments, i).meaning.loaded == LoadCredentials(moments[k].event.file).value
    decreases i
  {
    hide RouterRun, WorldAt, LoadCredentials;
    OneMomentLoads(u, moments, i - 1);
    if k < i - 1 {
      LastCredentialsCount(u, moments, k, i - 1);
    }
  }

  lemma {:induction false} LastTargetsCount(u: Setup, moments: seq<Moment>, k: nat, i: nat)
    requires RouterRun(u, moments) && k < i <= |moments| && LoadsTargets(moments[k].event)
    requires forall j :: k < j < i ==> !LoadsTargets(moments[j].event)
    ensures WorldAt(u, moments, i).meaning.loadedTargets == LoadTargets(moments[k].event.file).value
    decreases i
  {
    hide RouterRun, WorldAt, LoadTargets;
    OneMomentLoads(u, moments, i - 1);
    if k < i - 1 {
      LastTargetsCount(u, moments, k, i - 1);
    }
  }
}
