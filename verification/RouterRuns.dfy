/** Whole runs of the router: connections, token requests and reloads of both files, in any order. */
module RouterRuns {
  import opened Text
  import opened Target
  import opened Auth
  import opened Router
  import opened AccessToken
  import opened TokenStore
  import opened Ledger
  import opened TokenRuns

  /** `Plain` is a request under `/auth/`. A plain `GET /` or `HEAD /` is no event of its own: it is
      decided as a `Connect` to `/` is, and changes nothing either. */
  datatype RouterEvent =
    | Plain(request: Request)
    | Connect(path: string, authorization: Option<string>)
    | ReloadCredentials(file: Option<string>)
    | ReloadAllowList(file: Option<string>)

  datatype Moment = Moment(now: Instant, event: RouterEvent)

  /** The router's state, and beside it what was configured and which token calls were made. */
  datatype RouterWorld = RouterWorld(settings: Settings, store: Store, meaning: Meaning, calls: seq<Call>)

  /** The call of the token service that an event makes, if it makes one. */
  function TokenCall(settings: Settings, e: RouterEvent): Option<Event> {
    match e
    case Plain(r) => if Refusal(settings, r).None? then Some(CallOf(settings, r)) else None
    case Connect(path, authorization) =>
      if AllowsAnonymous(settings.targets, path) || authorization.None? then None
      else (match BearerToken(authorization.value)
            case Some(token) => Some(Verify(token))
            case None => None)
    case _ => None
  }

  function Next(cfg: Config, w: RouterWorld, m: Moment): RouterWorld {
    var call := TokenCall(w.settings, m.event);
    var calls := if call.Some? then w.calls + [Call(m.now, call.value)] else w.calls;
    match m.event
    case Plain(r) => w.(store := AuthStep(cfg, w.settings, w.store, m.now, r).0, calls := calls)
    case Connect(_, _) => w.(calls := calls)
    case ReloadCredentials(file) =>
      w.(settings := ReloadAuth(w.settings, file).0, meaning := AfterReloadAuth(w.meaning, file))
    case ReloadAllowList(file) =>
      w.(settings := ReloadTargets(w.settings, file).0, meaning := AfterReloadTargets(w.meaning, file))
  }

  /** The setting of a run: the service's parameters and the configuration it was built from. */
  datatype Setup = Setup(cfg: Config, start: Instant, settings: Settings, meaning: Meaning)

  function WorldAt(u: Setup, moments: seq<Moment>, i: nat): RouterWorld
    requires i <= |moments|
  {
    if i == 0 then RouterWorld(u.settings, EmptyStore(u.start), u.meaning, [])
    else Next(u.cfg, WorldAt(u, moments, i - 1), moments[i - 1])
  }

  /** The facts about tokens before moment `i`. */
  function LedgerAt(u: Setup, moments: seq<Moment>, i: nat): Ledger
    requires i <= |moments|
  {
    After(u.cfg, u.start, WorldAt(u, moments, i).calls).ledger
  }

  /** Draws do not repeat, the clock does not run backwards, tags are not forged. */
  ghost predicate RouterRun(u: Setup, moments: seq<Moment>) {
    && InjectiveHash(u.cfg)
    && Means(u.settings, u.meaning)
    && forall i :: 0 <= i < |moments| ==>
         FairCall(u.cfg, u.start, WorldAt(u, moments, i).calls, moments[i].now,
                  TokenCall(WorldAt(u, moments, i).settings, moments[i].event))
  }

  // ----- every reachable state ----------------------------------------------------------------

  /** The router's store is the one its token calls lead to. */
  lemma StoreFollows(cfg: Config, start: Instant, w: RouterWorld, m: Moment)
    requires w.store == After(cfg, start, w.calls).store
    ensures Next(cfg, w, m).store == After(cfg, start, Next(cfg, w, m).calls).store
  {
    hide Step, After, ReloadAuth, ReloadTargets, CallOf, Refusal, AllowsAnonymous, BearerToken;
    var call := TokenCall(w.settings, m.event);
    if call.Some? {
      AfterOneMore(cfg, start, w.calls, Call(m.now, call.value));
      if m.event.Connect? {
        VerifyChangesNothing(cfg, w.store, m.now, call.value);
      }
    }
  }

  lemma NextMeans(cfg: Config, w: RouterWorld, m: Moment)
    requires Means(w.settings, w.meaning)
    ensures Means(Next(cfg, w, m).settings, Next(cfg, w, m).meaning)
    ensures Next(cfg, w, m).meaning.fixed == w.meaning.fixed
    ensures Next(cfg, w, m).meaning.fixedTargets == w.meaning.fixedTargets
  {
    hide Means, AuthStep, ReloadAuth, ReloadTargets, TokenCall;
    match m.event
    case ReloadCredentials(file) => ReloadAuthMeans(w.settings, w.meaning, file);
    case ReloadAllowList(file) => ReloadTargetsMeans(w.settings, w.meaning, file);
    case _ =>
  }

  /** In every reachable state the credential list is the fixed one followed by the last file that
      loaded, and never empty; likewise the allow-list; and the token store is in a state that a
      run of the token service reaches. */
  lemma {:induction false} ReachableRouter(u: Setup, moments: seq<Moment>, i: nat)
    requires RouterRun(u, moments) && i <= |moments|
    ensures var w := WorldAt(u, moments, i);
            && Means(w.settings, w.meaning)
            && TimedRun(u.cfg, u.start, w.calls)
            && w.store == After(u.cfg, u.start, w.calls).store
            && w.meaning.fixed == u.meaning.fixed && w.meaning.fixedTargets == u.meaning.fixedTargets
  {
    hide Means, TimedRun, InjectiveHash, TokenCall, AuthStep, ReloadAuth, ReloadTargets;
    if i > 0 {
      ReachableRouter(u, moments, i - 1);
      var w, m := WorldAt(u, moments, i - 1), moments[i - 1];
      StoreFollows(u.cfg, u.start, w, m);
      NextMeans(u.cfg, w, m);
      NoReloadCalls(w.settings, m.event);
      if TokenCall(w.settings, m.event).Some? {
        RunExtends(u.cfg, u.start, w.calls, Call(m.now, TokenCall(w.settings, m.event).value));
      }
    } else {
      NoCalls(u.cfg, u.start);
    }
  }

  lemma NoReloadCalls(settings: Settings, e: RouterEvent)
    ensures e.ReloadCredentials? || e.ReloadAllowList? ==> TokenCall(settings, e).None?
  {
  }

  lemma VerifyChangesNothing(cfg: Config, s: Store, now: Instant, e: Event)
    requires e.Verify?
    ensures Step(cfg, s, now, e) == (s, Verified(VerifyAnswer(cfg, s, now, e.token)))
  {
  }

  // ----- who may connect ----------------------------------------------------------------------

  /** What the service answers for a bearer token that is presented now. */
  lemma VerifiedExactly(u: Setup, moments: seq<Moment>, i: nat, token: string)
    requires RouterRun(u, moments) && i < |moments|
    requires TokenCall(WorldAt(u, moments, i).settings, moments[i].event) == Some(Verify(token))
    ensures var l := LedgerAt(u, moments, i);
            Verified(VerifyAnswer(u.cfg, WorldAt(u, moments, i).store, moments[i].now, token))
            == Expected(u.cfg, l, moments[i].now, Verify(token))
  {
    hide InjectiveHash, Expected, VerifyAnswer, Step;
    ReachableRouter(u, moments, i);
    var w := WorldAt(u, moments, i);
    var more := w.calls + [Call(moments[i].now, Verify(token))];
    RunExtends(u.cfg, u.start, w.calls, Call(moments[i].now, Verify(token)));
    assert more[..|w.calls|] == w.calls;
    ForgettingIsInvisible(u.cfg, u.start, more, |w.calls|);
    VerifyChangesNothing(u.cfg, w.store, moments[i].now, Verify(token));
  }

  lemma VerifiedIsMinted(cfg: Config, l: Ledger, now: Instant, token: string, user: string)
    ensures Expected(cfg, l, now, Verify(token)) == Verified(Some(user))
            <==> exists p :: p in l.minted && token == Mint(cfg.sign, p) && p.user == user
                             && cfg.Unix(now) < p.expires && p.family !in l.dead
  {
    hide Open, Mint;
    if Open(cfg.sign, token).Some? {
      MintOpen(cfg.sign, token);
    }
    forall p | token == Mint(cfg.sign, p) ensures Open(cfg.sign, token) == Some(p) {
      OpenMint(cfg.sign, p);
    }
  }

  lemma PresentsBearer(settings: Settings, e: RouterEvent, token: string)
    requires e.Connect? && e.authorization.Some? && BearerToken(e.authorization.value) == Some(token)
    requires !AllowsAnonymous(settings.targets, e.path)
    ensures TokenCall(settings, e) == Some(Verify(token))
  {
    hide AllowsAnonymous, BearerToken;
  }

  /** The one way in with a bearer token. */
  lemma AuthorizeBearer(cfg: Config, settings: Settings, s: Store, now: Instant, path: string, a: string,
                        token: string, user: string)
    requires BearerToken(a) == Some(token) && !AllowsAnonymous(settings.targets, path)
    ensures Authorize(cfg, settings, s, now, path, Some(a)) == Accepted(user) <==>
              VerifyAnswer(cfg, s, now, token) == Some(user) && HasUser(settings.expected, user)
  {
    hide AllowsAnonymous, BearerToken, VerifyAnswer, HasUser;
  }

  /** A bearer token for a target that is not anonymous lets `user` in if and only if it was minted
      for that user, has not expired, belongs to a login that was never revoked, and the user is
      configured now; for any history of logins, refreshes, revocations, reloads and time. */
  lemma BearerDecision(u: Setup, moments: seq<Moment>, i: nat, token: string, user: string)
    requires RouterRun(u, moments) && i < |moments| && moments[i].event.Connect?
    requires var e := moments[i].event; e.authorization.Some? && BearerToken(e.authorization.value) == Some(token)
    requires !AllowsAnonymous(WorldAt(u, moments, i).settings.targets, moments[i].event.path)
    ensures var w, l, m := WorldAt(u, moments, i), LedgerAt(u, moments, i), moments[i];
            Authorize(u.cfg, w.settings, w.store, m.now, m.event.path, m.event.authorization)
              == Accepted(user)
            <==>
            && Configured(w.meaning.Credentials(), user)
            && exists p :: p in l.minted && token == Mint(u.cfg.sign, p) && p.user == user
                           && u.cfg.Unix(m.now) < p.expires && p.family !in l.dead
  {
    hide InjectiveHash, TimedRun, AllowsAnonymous, BearerToken, VerifyAnswer, Mint, Expected, HasUser,
         Configured, Authorize, RouterRun, WorldAt, LedgerAt;
    ReachableRouter(u, moments, i);
    PresentsBearer(WorldAt(u, moments, i).settings, moments[i].event, token);
    VerifiedExactly(u, moments, i, token);
    var w, l, m := WorldAt(u, moments, i), LedgerAt(u, moments, i), moments[i];
    AuthorizeBearer(u.cfg, w.settings, w.store, m.now, m.event.path, m.event.authorization.value, token,
                    user);
    HasUserExactly(w.meaning.Credentials(), user);
    VerifiedIsMinted(u.cfg, l, m.now, token, user);
  }

  /** A Basic header for such a target lets `user` in if and only if it encodes a pair
      `user:password` that is configured now. */
  lemma BasicDecision(u: Setup, moments: seq<Moment>, i: nat, a: string, user: string)
    requires RouterRun(u, moments) && i < |moments| && moments[i].event.Connect?
    requires moments[i].event.authorization == Some(a) && BearerToken(a).None?
    requires !AllowsAnonymous(WorldAt(u, moments, i).settings.targets, moments[i].event.path)
    ensures var w, m := WorldAt(u, moments, i), moments[i];
            Authorize(u.cfg, w.settings, w.store, m.now, m.event.path, m.event.authorization)
              == Accepted(user)
            <==> ':' !in user && exists password ::
                   && user + ":" + password in w.meaning.Credentials()
                   && a == EncodeCredential(user + ":" + password)
  {
    hide InjectiveHash, TimedRun, AllowsAnonymous, BearerToken;
    ReachableRouter(u, moments, i);
    BasicLoginIsExact(WorldAt(u, moments, i).meaning.Credentials(), a, user);
  }

  lemma GrantedUserExists(cfg: Config, s: Store, now: Instant, e: Event)
    requires Step(cfg, s, now, e).1.Granted?
    ensures e.Login? ==> Step(cfg, s, now, e).1.user == e.user
    ensures e.Refresh? ==> e.userExists(Step(cfg, s, now, e).1.user)
  {
    hide Tokens, ForceSwept;
  }

  /** While a user is missing from the configuration, nothing they hold is worth anything: neither
      their password nor any access token lets them in, and neither gets or renews a pair. Tokens
      handed out before the removal included. */
  lemma RemovedUserIsOut(u: Setup, moments: seq<Moment>, i: nat, user: string)
    requires RouterRun(u, moments) && i < |moments|
    requires !Configured(WorldAt(u, moments, i).meaning.Credentials(), user)
    ensures var w, m := WorldAt(u, moments, i), moments[i];
            && (m.event.Connect? && !AllowsAnonymous(w.settings.targets, m.event.path) ==>
                  Authorize(u.cfg, w.settings, w.store, m.now, m.event.path, m.event.authorization)
                  != Accepted(user))
            && (m.event.Plain? ==>
                  var response := AuthStep(u.cfg, w.settings, w.store, m.now, m.event.request).1;
                  response.TokenPair? ==> response.user != user)
  {
    hide InjectiveHash, TimedRun, AllowsAnonymous, Authorize, AuthStep, Next;
    ReachableRouter(u, moments, i);
    var w, m := WorldAt(u, moments, i), moments[i];
    if m.event.Connect? && !AllowsAnonymous(w.settings.targets, m.event.path) {
      UnknownUserCannotConnect(u.cfg, w.settings, w.meaning.Credentials(), w.store, m.now, m.event.path,
                               m.event.authorization, user);
    }
    if m.event.Plain? {
      UnknownUserGetsNoPair(u.cfg, w.settings, w.meaning.Credentials(), w.store, m.now,
                            m.event.request, user);
    }
  }

  lemma UnknownUserCannotConnect(cfg: Config, settings: Settings, credentials: seq<string>, s: Store,
                                 now: Instant, path: string, authorization: Option<string>,
                                 user: string)
    requires AllValid(credentials) && settings.expected == Encoded(credentials)
    requires !Configured(credentials, user) && !AllowsAnonymous(settings.targets, path)
    ensures Authorize(cfg, settings, s, now, path, authorization) != Accepted(user)
  {
    hide AllowsAnonymous, BearerToken, VerifyAnswer, HasUser, Configured, BasicUser, Encoded;
    HasUserExactly(credentials, user);
    if authorization.Some? {
      BasicLoginIsExact(credentials, authorization.value, user);
    }
  }

  lemma UnknownUserGetsNoPair(cfg: Config, settings: Settings, credentials: seq<string>, s: Store,
                              now: Instant, r: Request, user: string)
    requires AllValid(credentials) && settings.expected == Encoded(credentials)
    requires !Configured(credentials, user)
    ensures var response := AuthStep(cfg, settings, s, now, r).1;
            response.TokenPair? ==> response.user != user
  {
    hide BearerToken, HasUser, Configured, Step;
    HasUserExactly(credentials, user);
    if Refusal(settings, r).None? {
      var e := CallOf(settings, r);
      if Step(cfg, s, now, e).1.Granted? {
        GrantedUserExists(cfg, s, now, e);
        OnlyIssuesGrant(cfg, s, now, e);
        if e.Login? {
          BasicLoginIsExact(credentials, r.authorization.value, e.user);
        }
      }
    }
  }

  lemma OnlyIssuesGrant(cfg: Config, s: Store, now: Instant, e: Event)
    requires Step(cfg, s, now, e).1.Granted?
    ensures e.Login? || e.Refresh?
  {
    GrantedNeedsDraw(cfg, s, now, e);
  }

  /** The request carries a bearer token or Basic credentials that are good now. */
  predicate HasCredentials(cfg: Config, w: RouterWorld, m: Moment)
    requires m.event.Connect?
  {
    m.event.authorization.Some? &&
    var a := m.event.authorization.value;
    match BearerToken(a)
    case Some(token) =>
      VerifiedUser(w.settings, VerifyAnswer(cfg, w.store, m.now, token)).Some?
    case None => BasicUser(w.settings.expected, a).Some?
  }

  /** Whoever has no valid credentials and still reaches an upstream reaches one whose host and port
      are on the allow-list as it is at that moment; the health check is not for them. */
  lemma AnonymousDialsStayOnTheList(u: Setup, moments: seq<Moment>, i: nat)
    requires RouterRun(u, moments) && i < |moments| && moments[i].event.Connect?
    requires !HasCredentials(u.cfg, WorldAt(u, moments, i), moments[i])
    ensures var w, m := WorldAt(u, moments, i), moments[i];
            match HandshakeAnswer(u.cfg, w.settings, w.store, m.now, m.event.path, m.event.authorization)
            case Routed(_, HealthCheck) => false
            case Routed(user, Proxy(target)) =>
              && user == ANONYMOUS
              && (exists t :: t in w.meaning.Targets() && ParseHostPort(t) == Some((target.host, target.port)))
            case _ => true
  {
    hide InjectiveHash, TimedRun, BearerToken, VerifyAnswer, BasicUser, HasUser, ParseHostPort;
    ReachableRouter(u, moments, i);
    var w, m := WorldAt(u, moments, i), moments[i];
    AnonymousExactly(w.meaning, m.event.path);
    RootIsNeverAnonymous(w.settings.targets);
  }

  // ----- users who come back ------------------------------------------------------------------

  /** What one moment does to the facts. */
  lemma MomentStep(u: Setup, moments: seq<Moment>, k: nat)
    requires RouterRun(u, moments) && k < |moments|
    ensures var w, m, l := WorldAt(u, moments, k), moments[k], LedgerAt(u, moments, k);
            && WellFormed(u.cfg, l) && After(u.cfg, u.start, w.calls).clock <= m.now
            && match TokenCall(w.settings, m.event)
               case None => WorldAt(u, moments, k + 1).calls == w.calls
               case Some(e) =>
                 var a := Step(u.cfg, w.store, m.now, e).1;
                 && DrawsFresh(l, e) && Allows(u.cfg, l, m.now, e, a)
                 && After(u.cfg, u.start, WorldAt(u, moments, k + 1).calls)
                    == World(Step(u.cfg, w.store, m.now, e).0, Recorded(u.cfg, l, m.now, e, a), m.now)
  {
    hide Step, InjectiveHash, TokenCall, Means, Sound, WellFormed, Recorded, Allows, Next, After,
         TimedRun, AnswerAt;
    ReachableRouter(u, moments, k);
    var w, m := WorldAt(u, moments, k), moments[k];
    NextCalls(u.cfg, w, m);
    FactsAreWellFormed(u.cfg, u.start, w.calls);
    if TokenCall(w.settings, m.event).Some? {
      var c := Call(m.now, TokenCall(w.settings, m.event).value);
      RunExtends(u.cfg, u.start, w.calls, c);
      AfterOneMore(u.cfg, u.start, w.calls, c);
      ForgettingIsInvisible(u.cfg, u.start, w.calls + [c], |w.calls|);
      assert (w.calls + [c])[..|w.calls|] == w.calls;
    }
  }

  lemma NextCalls(cfg: Config, w: RouterWorld, m: Moment)
    ensures Next(cfg, w, m).calls
            == match TokenCall(w.settings, m.event)
               case None => w.calls
               case Some(e) => w.calls + [Call(m.now, e)]
  {
    hide TokenCall, AuthStep, ReloadAuth, ReloadTargets;
    NoReloadCalls(w.settings, m.event);
  }

  lemma FactsAreWellFormed(cfg: Config, start: Instant, calls: seq<Call>)
    requires TimedRun(cfg, start, calls)
    ensures WellFormed(cfg, After(cfg, start, calls).ledger)
  {
    hide Sound, WellFormed, InjectiveHash;
    ReachableInvariant(cfg, start, calls, |calls|);
    assert calls[..|calls|] == calls;
  }

  /** Moment `k` asks to exchange the refresh token `t`. */
  predicate PresentsAt(u: Setup, moments: seq<Moment>, k: nat, t: string)
    requires k < |moments|
  {
    moments[k].event.Plain? && AsksRefresh(moments[k].event.request, t)
  }

  /** `POST /auth/refresh` without a body, with `t` as its bearer token. */
  predicate AsksRefresh(r: Request, t: string) {
    && r.path == "/auth/refresh" && r.isPost && !r.hasBody
    && r.authorization.Some? && BearerToken(r.authorization.value) == Some(t)
  }

  /** That is the only request that presents a refresh token to be exchanged. */
  lemma RefreshCalls(settings: Settings, e: RouterEvent, t: string)
    ensures var call := TokenCall(settings, e);
            && (e.Plain? && AsksRefresh(e.request, t) <==> call.Some? && call.value.Refresh? && call.value.token == t)
            && (e.Plain? && AsksRefresh(e.request, t) ==>
                  && call.value.drawn == e.request.drawn
                  && forall user :: call.value.userExists(user) <==> HasUser(settings.expected, user))
  {
    hide BearerToken, BasicUser, HasUser, AllowsAnonymous;
  }

  function ResponseAt(u: Setup, moments: seq<Moment>, k: nat): Response
    requires k < |moments| && moments[k].event.Plain?
  {
    var w, m := WorldAt(u, moments, k), moments[k];
    AuthStep(u.cfg, w.settings, w.store, m.now, m.event.request).1
  }

  predicate SpendsAt(u: Setup, moments: seq<Moment>, k: nat, t: string)
    requires k < |moments|
  {
    && PresentsAt(u, moments, k, t)
    && LedgerAt(u, moments, k).Fresh(t, moments[k].now)
    && ResponseAt(u, moments, k) != TooManyLogins
  }

  lemma ResponseIsAnswer(u: Setup, moments: seq<Moment>, k: nat)
    requires k < |moments| && moments[k].event.Plain?
    requires TokenCall(WorldAt(u, moments, k).settings, moments[k].event).Some?
    ensures var w, m := WorldAt(u, moments, k), moments[k];
            var a := Step(u.cfg, w.store, m.now, TokenCall(w.settings, m.event).value).1;
            ResponseAt(u, moments, k) == Respond(a)
  {
    hide Step, Refusal, CallOf;
  }

  lemma OnlyPlainPresents(settings: Settings, e: RouterEvent)
    ensures TokenCall(settings, e).Some? && TokenCall(settings, e).value.Refresh? ==> e.Plain?
  {
  }

  /** One moment keeps a live token live unless it spends it. */
  lemma MomentKeepsLive(u: Setup, moments: seq<Moment>, k: nat, t: string)
    requires RouterRun(u, moments) && k < |moments|
    ensures var l, l' := LedgerAt(u, moments, k), LedgerAt(u, moments, k + 1);
            && Grows(l, l')
            && (l'.Active(t) && t in l.issued ==> l.Active(t))
            && (l.Active(t) && l.issued[t].family !in l'.dead ==>
                  (l'.Active(t) <==> !SpendsAt(u, moments, k, t)))
  {
    hide Step, InjectiveHash, TokenCall, Recorded, Allows, AuthStep, WellFormed, RouterRun, WorldAt,
         ResponseAt, After, PresentsAt, Respond, Grows;
    MomentStep(u, moments, k);
    var w, m, l := WorldAt(u, moments, k), moments[k], LedgerAt(u, moments, k);
    var call := TokenCall(w.settings, m.event);
    PresentsIsCall(u, moments, k, t);
    if call.Some? {
      var a := Step(u.cfg, w.store, m.now, call.value).1;
      RecordedGrows(u.cfg, l, m.now, call.value, a);
      OnlyFullIsTooMany(a);
      if m.event.Plain? {
        ResponseIsAnswer(u, moments, k);
      }
      StaysLive(u.cfg, l, m.now, call.value, a, t);
    } else {
      GrowsItself(l);
    }
  }

  lemma StaysLive(cfg: Config, l: Ledger, now: Instant, e: Event, a: Answer, t: string)
    requires WellFormed(cfg, l) && DrawsFresh(l, e) && Allows(cfg, l, now, e, a)
    ensures var l' := Recorded(cfg, l, now, e, a);
            && (l'.Active(t) && t in l.issued ==> l.Active(t))
            && (l.Active(t) && l.issued[t].family !in l'.dead ==>
                  (l'.Active(t) <==> !(e.Refresh? && e.token == t && l.Fresh(t, now) && a != Answer.Refused(Full))))
  {
    hide Recorded, Allows, WellFormed;
    RecordedGrows(cfg, l, now, e, a);
    if l.Active(t) {
      PresentationSpends(cfg, l, now, e, a, t);
    }
  }

  lemma GrowsItself(l: Ledger)
    ensures Grows(l, l)
  {
  }

  lemma OnlyFullIsTooMany(a: Answer)
    ensures Respond(a) == TooManyLogins <==> a == Answer.Refused(Full)
  {
  }

  lemma PresentsIsCall(u: Setup, moments: seq<Moment>, k: nat, t: string)
    requires k < |moments|
    ensures var call := TokenCall(WorldAt(u, moments, k).settings, moments[k].event);
            PresentsAt(u, moments, k, t) <==>
              moments[k].event.Plain? && call.Some? && call.value.Refresh? && call.value.token == t
    ensures var call := TokenCall(WorldAt(u, moments, k).settings, moments[k].event);
            call.Some? && call.value.Refresh? ==> moments[k].event.Plain?
  {
    hide TokenCall, WorldAt, AsksRefresh;
    RefreshCalls(WorldAt(u, moments, k).settings, moments[k].event, t);
    OnlyPlainPresents(WorldAt(u, moments, k).settings, moments[k].event);
  }

  lemma {:induction false} MomentsGrow(u: Setup, moments: seq<Moment>, i: nat, j: nat)
    requires RouterRun(u, moments) && i <= j <= |moments|
    ensures Grows(LedgerAt(u, moments, i), LedgerAt(u, moments, j))
    ensures After(u.cfg, u.start, WorldAt(u, moments, i).calls).clock
            <= After(u.cfg, u.start, WorldAt(u, moments, j).calls).clock
  {
    hide RouterRun, WorldAt, After, Step, TokenCall, Recorded, WellFormed, Allows;
    if i < j {
      MomentsGrow(u, moments, i, j - 1);
      MomentStep(u, moments, j - 1);
      MomentKeepsLive(u, moments, j - 1, "");
    }
  }

  lemma KeptByGrowth(l: Ledger, l': Ledger, t: string)
    requires Grows(l, l')
    ensures t in l.issued ==> t in l'.issued && l'.issued[t] == l.issued[t]
    ensures l.dead <= l'.dead
  {
  }

  lemma {:induction false} LiveUntilSpent(u: Setup, moments: seq<Moment>, i: nat, j: nat, t: string)
    requires RouterRun(u, moments) && i <= j <= |moments| && LedgerAt(u, moments, i).Active(t)
    requires LedgerAt(u, moments, i).issued[t].family !in LedgerAt(u, moments, j).dead
    ensures LedgerAt(u, moments, j).Active(t) <==>
              forall k :: i <= k < j ==> !SpendsAt(u, moments, k, t)
  {
    hide RouterRun, WorldAt, SpendsAt, LedgerAt, Grows;
    if i < j {
      MomentsGrow(u, moments, i, j - 1);
      MomentKeepsLive(u, moments, j - 1, t);
      KeptByGrowth(LedgerAt(u, moments, i), LedgerAt(u, moments, j - 1), t);
      KeptByGrowth(LedgerAt(u, moments, j - 1), LedgerAt(u, moments, j), t);
      LiveUntilSpent(u, moments, i, j - 1, t);
    }
  }

  /** Moment `j` presents `t` in time, when its user is configured and its login not revoked, and when
      there is room and a random number. */
  predicate WelcomeAt(u: Setup, moments: seq<Moment>, j: nat, t: string)
    requires j < |moments|
  {
    var w, l, m := WorldAt(u, moments, j), LedgerAt(u, moments, j), moments[j];
    && PresentsAt(u, moments, j, t) && m.event.request.drawn.Some?
    && l.Fresh(t, m.now) && l.issued[t].family !in l.dead
    && Configured(w.meaning.Credentials(), l.UserOf(l.issued[t].family))
    && |l.Remembered(m.now)| < MAX_RECORDS
  }

  /** Removing a user ends a refresh token of theirs only if it is presented while they are gone: when
      they are configured again, a token that was live at any earlier moment `i` is exchanged if and
      only if each time it was presented since then it was refused for want of room. */
  lemma RemovalEndsTokenExactly(u: Setup, moments: seq<Moment>, i: nat, j: nat, t: string)
    requires RouterRun(u, moments) && i <= j < |moments|
    requires LedgerAt(u, moments, i).Active(t) && WelcomeAt(u, moments, j, t)
    ensures ResponseAt(u, moments, j).TokenPair? <==>
              forall k :: i <= k < j && PresentsAt(u, moments, k, t) ==>
                ResponseAt(u, moments, k) == TooManyLogins
  {
    hide RouterRun, WorldAt, ResponseAt, LedgerAt, TokenCall, Configured;
    MomentsGrow(u, moments, i, j);
    LiveUntilSpent(u, moments, i, j, t);
    forall k | i <= k < j
      ensures SpendsAt(u, moments, k, t) <==>
                PresentsAt(u, moments, k, t) && ResponseAt(u, moments, k) != TooManyLogins
    {
      if PresentsAt(u, moments, k, t) {
        PresentedInTime(u, moments, i, k, j, t);
      }
    }
    WelcomeIsServed(u, moments, j, t);
  }

  lemma PresentedInTime(u: Setup, moments: seq<Moment>, i: nat, k: nat, j: nat, t: string)
    requires RouterRun(u, moments) && i <= k < j < |moments|
    requires t in LedgerAt(u, moments, i).issued && PresentsAt(u, moments, k, t)
    requires LedgerAt(u, moments, j).Fresh(t, moments[j].now)
    ensures LedgerAt(u, moments, k).Fresh(t, moments[k].now)
  {
    hide RouterRun, WorldAt, After, Step, TokenCall, Recorded, WellFormed, Allows;
    RefreshCalls(WorldAt(u, moments, k).settings, moments[k].event, t);
    MomentsGrow(u, moments, i, k);
    MomentsGrow(u, moments, k + 1, j);
    MomentsGrow(u, moments, k, j);
    MomentStep(u, moments, k);
    MomentStep(u, moments, j);
  }

  lemma WelcomeIsServed(u: Setup, moments: seq<Moment>, j: nat, t: string)
    requires RouterRun(u, moments) && j < |moments| && WelcomeAt(u, moments, j, t)
    ensures ResponseAt(u, moments, j).TokenPair? <==> LedgerAt(u, moments, j).Active(t)
  {
    hide RouterRun, WorldAt, After, Step, Recorded, WellFormed, Allows, Configured, BearerToken, BasicUser,
         HasUser, Means, TimedRun, ResponseAt;
    RefreshCalls(WorldAt(u, moments, j).settings, moments[j].event, t);
    MomentStep(u, moments, j);
    ResponseIsAnswer(u, moments, j);
    ReachableRouter(u, moments, j);
    var w, l, m := WorldAt(u, moments, j), LedgerAt(u, moments, j), moments[j];
    var e := TokenCall(w.settings, m.event).value;
    var user := l.UserOf(l.issued[t].family);
    ExistsMeansConfigured(w, user);
    assert e.userExists(user) && e.drawn.Some?;
    WelcomeIsGranted(u.cfg, l, Call(m.now, e), Step(u.cfg, w.store, m.now, e).1);
  }

  lemma ExistsMeansConfigured(w: RouterWorld, user: string)
    requires Means(w.settings, w.meaning)
    ensures HasUser(w.settings.expected, user) <==> Configured(w.meaning.Credentials(), user)
  {
    HasUserExactly(w.meaning.Credentials(), user);
  }

  const ALICE := "alice:a"
  const BOB := "bob:b"

  function OnlyAlice(): Settings { Settings([], Encoded([ALICE]), [], []) }

  function OnlyBob(): Settings { Settings([], Encoded([BOB]), [], []) }

  /** Alice logs in, a reload leaves Bob alone, another one Alice, and she refreshes her login. */
  function AliceGoesAndReturns(f: AccessToken.u64, mine: string, next: string, back: Instant): seq<Moment> {
    [Moment(0, Plain(Request("/auth/token", true, false, Some(EncodeCredential(ALICE)), Some(f), Some(mine)))),
     Moment(0, ReloadCredentials(Some(BOB))),
     Moment(0, ReloadCredentials(Some(ALICE))),
     Moment(back, Plain(Request("/auth/refresh", true, false, Some("Bearer " + mine), None, Some(next))))]
  }

  lemma ACredential(user: string, password: string)
    requires ':' !in user && user != "" && password != ""
    ensures ValidCredential(user + ":" + password) && UserOf(user + ":" + password) == user
  {
    SplitOnceAt(user, ':', password);
  }

  lemma OneLine(c: string)
    requires ValidCredential(c) && '\n' !in c && IsTrimmed(c) && c != "" && c[0] != '#'
    ensures LoadCredentials(Some(c)) == Some([c])
  {
    hide ValidCredential, Trim;
    TrimOfTrimmed(c);
    assert Split(c, '\n') == [c] && [c][1..] == [];
    assert Auth.Entries([]) == [] && Auth.Entries([c]) == [c];
  }

  lemma TwoCredentials()
    ensures ValidCredential(ALICE) && UserOf(ALICE) == "alice"
    ensures ValidCredential(BOB) && UserOf(BOB) == "bob"
    ensures LoadCredentials(Some(ALICE)) == Some([ALICE]) && LoadCredentials(Some(BOB)) == Some([BOB])
  {
    hide ValidCredential, UserOf, LoadCredentials;
    assert ALICE == "alice" + ":" + "a" && BOB == "bob" + ":" + "b";
    ACredential("alice", "a");
    ACredential("bob", "b");
    OneLine(ALICE);
    OneLine(BOB);
  }

  /** The two configurations differ, and each is what the other's reload leads to. */
  lemma AliceOrBob()
    ensures Means(OnlyAlice(), Meaning([], [ALICE], [], []))
    ensures ReloadAuth(OnlyAlice(), Some(BOB)).0 == OnlyBob()
    ensures AfterReloadAuth(Meaning([], [ALICE], [], []), Some(BOB)) == Meaning([], [BOB], [], [])
    ensures ReloadAuth(OnlyBob(), Some(ALICE)).0 == OnlyAlice()
    ensures AfterReloadAuth(Meaning([], [BOB], [], []), Some(ALICE)) == Meaning([], [ALICE], [], [])
    ensures BasicUser(OnlyAlice().expected, EncodeCredential(ALICE)) == Some("alice")
    ensures HasUser(OnlyAlice().expected, "alice") && !Configured([BOB], "alice")
  {
    hide ValidCredential, UserOf, EncodeCredential, LoadCredentials, BasicUsername, ValidTarget;
    TwoCredentials();
    UsernameOfEncoded(ALICE);
    HasUserExactly([ALICE], "alice");
    assert [ALICE][0] in [ALICE] && Encoded([ALICE])[0] in Encoded([ALICE]);
    assert [] + [ALICE] == [ALICE] && [] + [BOB] == [BOB];
    assert [] + Encoded([ALICE]) == Encoded([ALICE]) && [] + Encoded([BOB]) == Encoded([BOB]);
  }

  lemma AliceLogsIn(cfg: Config, f: AccessToken.u64, mine: string)
    ensures var r := Request("/auth/token", true, false, Some(EncodeCredential(ALICE)), Some(f), Some(mine));
            && TokenCall(OnlyAlice(), Plain(r)) == Some(Login("alice", Some(f), Some(mine)))
            && var (s, response) := AuthStep(cfg, OnlyAlice(), EmptyStore(0), 0, r);
            && s == Started(cfg, f, "alice", mine)
            && response.TokenPair? && response.user == "alice" && response.tokens.refreshToken == mine
  {
    hide EncodeCredential, BasicUser, HasUser, Step, Started;
    AliceOrBob();
    FirstLogin(cfg, f, "alice", mine);
  }

  lemma AliceRefreshes(cfg: Config, f: AccessToken.u64, mine: string, next: string, back: Instant)
    requires mine != "" && IsTrimmed(mine) && back < cfg.refreshTtl && back < MAX_FAMILY_LIFETIME
    ensures var r := Request("/auth/refresh", true, false, Some("Bearer " + mine), None, Some(next));
            && TokenCall(OnlyAlice(), Plain(r)).Some?
            && var e := TokenCall(OnlyAlice(), Plain(r)).value;
            && e.Refresh? && e.token == mine && e.drawn == Some(next)
            && var response := AuthStep(cfg, OnlyAlice(), Started(cfg, f, "alice", mine), back, r).1;
            && response.TokenPair? && response.user == "alice"
  {
    hide HasUser, TokenCall, AuthStep, OnlyAlice, Started, AsksRefresh;
    AliceIsThere();
    BearerAsks(mine, next);
    var r := Request("/auth/refresh", true, false, Some("Bearer " + mine), None, Some(next));
    FirstRefreshServed(cfg, OnlyAlice(), f, "alice", mine, back, r, next);
  }

  lemma AliceIsThere()
    ensures HasUser(OnlyAlice().expected, "alice")
  {
    hide HasUser;
    AliceOrBob();
  }

  lemma BearerAsks(mine: string, next: string)
    requires mine != "" && IsTrimmed(mine)
    ensures AsksRefresh(Request("/auth/refresh", true, false, Some("Bearer " + mine), None, Some(next)), mine)
  {
    hide BearerToken;
    BearerOf(mine);
  }

  lemma FirstRefreshServed(cfg: Config, settings: Settings, f: AccessToken.u64, user: string, mine: string,
                           back: Instant, r: Request, next: string)
    requires AsksRefresh(r, mine) && r.drawn == Some(next) && HasUser(settings.expected, user)
    requires back < cfg.refreshTtl && back < MAX_FAMILY_LIFETIME
    ensures TokenCall(settings, Plain(r)).Some?
    ensures var e := TokenCall(settings, Plain(r)).value;
            e.Refresh? && e.token == mine && e.drawn == Some(next)
    ensures var response := AuthStep(cfg, settings, Started(cfg, f, user, mine), back, r).1;
            response.TokenPair? && response.user == user
  {
    hide HasUser, AsksRefresh, TokenCall, AuthStep, Step, Started;
    RefreshCalls(settings, Plain(r), mine);
    var e := TokenCall(settings, Plain(r)).value;
    FirstRefresh(cfg, f, user, mine, e.userExists, next, back);
    assert e == Refresh(mine, e.userExists, Some(next));
    ResponseToCall(cfg, settings, Started(cfg, f, user, mine), back, r);
  }

  lemma ResponseToCall(cfg: Config, settings: Settings, s: Store, now: Instant, r: Request)
    requires TokenCall(settings, Plain(r)).Some?
    ensures AuthStep(cfg, settings, s, now, r).1 == Respond(Step(cfg, s, now, TokenCall(settings, Plain(r)).value).1)
  {
    hide Step, Refusal, CallOf;
  }

  lemma BearerOf(token: string)
    requires token != "" && IsTrimmed(token)
    ensures BearerToken("Bearer " + token) == Some(token)
  {
    TrimOfTrimmed(token);
    SplitOnceAt("Bearer", ' ', token);
    assert "Bearer " + token == "Bearer" + [' '] + token;
  }

  lemma FairForAlice(cfg: Config, f: AccessToken.u64, mine: string, next: string, back: Instant, e: Event)
    requires mine != next && e.Refresh? && e.drawn == Some(next)
    ensures var login := Call(0, Login("alice", Some(f), Some(mine)));
            && FairCall(cfg, 0, [], 0, Some(login.event))
            && FairCall(cfg, 0, [login], 0, None)
            && FairCall(cfg, 0, [login], back, Some(e))
  {
    hide Step, Started, Recorded, After;
    FirstDrawIsFresh(cfg, Call(0, Login("alice", Some(f), Some(mine))));
    FirstFacts(cfg, f, "alice", mine);
  }

  function AliceSetup(cfg: Config): Setup {
    Setup(cfg, 0, OnlyAlice(), Meaning([], [ALICE], [], []))
  }

  lemma WorldNext(u: Setup, moments: seq<Moment>, i: nat)
    requires i < |moments|
    ensures WorldAt(u, moments, i + 1) == Next(u.cfg, WorldAt(u, moments, i), moments[i])
  {
  }

  lemma NextReload(cfg: Config, w: RouterWorld, now: Instant, file: Option<string>)
    ensures Next(cfg, w, Moment(now, ReloadCredentials(file)))
            == w.(settings := ReloadAuth(w.settings, file).0, meaning := AfterReloadAuth(w.meaning, file))
  {
    hide ReloadAuth, AfterReloadAuth;
  }

  lemma NextPlain(cfg: Config, w: RouterWorld, now: Instant, r: Request)
    requires TokenCall(w.settings, Plain(r)).Some?
    ensures Next(cfg, w, Moment(now, Plain(r)))
            == w.(store := AuthStep(cfg, w.settings, w.store, now, r).0,
                  calls := w.calls + [Call(now, TokenCall(w.settings, Plain(r)).value)])
  {
    hide AuthStep, TokenCall;
  }

  /** A login, two reloads of which the second undoes the first, and something more: only the settings
      change after the login. */
  lemma WorldsOfReturn(u: Setup, moments: seq<Moment>, login: Event, s: Store, without: Option<string>,
                       back: Option<string>, gone: Settings, less: Meaning)
    requires |moments| == 4 && moments[0].event.Plain?
    requires TokenCall(u.settings, moments[0].event) == Some(login)
    requires AuthStep(u.cfg, u.settings, EmptyStore(u.start), moments[0].now, moments[0].event.request).0 == s
    requires moments[1].event == ReloadCredentials(without) && moments[2].event == ReloadCredentials(back)
    requires ReloadAuth(u.settings, without).0 == gone && AfterReloadAuth(u.meaning, without) == less
    requires ReloadAuth(gone, back).0 == u.settings && AfterReloadAuth(less, back) == u.meaning
    ensures var calls := [Call(moments[0].now, login)];
            && WorldAt(u, moments, 0) == RouterWorld(u.settings, EmptyStore(u.start), u.meaning, [])
            && WorldAt(u, moments, 1) == RouterWorld(u.settings, s, u.meaning, calls)
            && WorldAt(u, moments, 2) == RouterWorld(gone, s, less, calls)
            && WorldAt(u, moments, 3) == RouterWorld(u.settings, s, u.meaning, calls)
  {
    hide TokenCall, AuthStep, ReloadAuth, AfterReloadAuth, Next, EmptyStore;
    var w0 := WorldAt(u, moments, 0);
    assert w0.calls + [Call(moments[0].now, login)] == [Call(moments[0].now, login)];
    NextPlain(u.cfg, w0, moments[0].now, moments[0].event.request);
    WorldNext(u, moments, 0);
    NextReload(u.cfg, WorldAt(u, moments, 1), moments[1].now, without);
    WorldNext(u, moments, 1);
    NextReload(u.cfg, WorldAt(u, moments, 2), moments[2].now, back);
    WorldNext(u, moments, 2);
  }

  lemma ReturnIsFair(u: Setup, moments: seq<Moment>, login: Event, s: Store, without: Option<string>,
                     back: Option<string>, gone: Settings, less: Meaning, refresh: Event)
    requires |moments| == 4 && moments[0].event.Plain?
    requires TokenCall(u.settings, moments[0].event) == Some(login)
    requires AuthStep(u.cfg, u.settings, EmptyStore(u.start), moments[0].now, moments[0].event.request).0 == s
    requires moments[1].event == ReloadCredentials(without) && moments[2].event == ReloadCredentials(back)
    requires ReloadAuth(u.settings, without).0 == gone && AfterReloadAuth(u.meaning, without) == less
    requires ReloadAuth(gone, back).0 == u.settings && AfterReloadAuth(less, back) == u.meaning
    requires TokenCall(u.settings, moments[3].event) == Some(refresh)
    requires InjectiveHash(u.cfg) && Means(u.settings, u.meaning)
    requires FairCall(u.cfg, u.start, [], moments[0].now, Some(login))
    requires var calls := [Call(moments[0].now, login)];
             && FairCall(u.cfg, u.start, calls, moments[1].now, None)
             && FairCall(u.cfg, u.start, calls, moments[2].now, None)
             && FairCall(u.cfg, u.start, calls, moments[3].now, Some(refresh))
    ensures RouterRun(u, moments)
  {
    hide TokenCall, AuthStep, ReloadAuth, AfterReloadAuth, EmptyStore, Means, InjectiveHash, FairCall,
         WorldAt;
    WorldsOfReturn(u, moments, login, s, without, back, gone, less);
    NoReloadCalls(u.settings, moments[1].event);
    NoReloadCalls(gone, moments[2].event);
  }

  lemma AliceWorlds(cfg: Config, f: AccessToken.u64, mine: string, next: string, back: Instant)
    ensures var u, moments := AliceSetup(cfg), AliceGoesAndReturns(f, mine, next, back);
            var calls := [Call(0, Login("alice", Some(f), Some(mine)))];
            var s := Started(cfg, f, "alice", mine);
            && WorldAt(u, moments, 0) == RouterWorld(OnlyAlice(), EmptyStore(0), u.meaning, [])
            && WorldAt(u, moments, 1) == RouterWorld(OnlyAlice(), s, u.meaning, calls)
            && WorldAt(u, moments, 2) == RouterWorld(OnlyBob(), s, Meaning([], [BOB], [], []), calls)
            && WorldAt(u, moments, 3) == RouterWorld(OnlyAlice(), s, u.meaning, calls)
  {
    hide OnlyAlice, OnlyBob, TokenCall, AuthStep, Started, WorldAt, ReloadAuth, AfterReloadAuth,
         EncodeCredential, EmptyStore;
    AliceOrBob();
    AliceLogsIn(cfg, f, mine);
    WorldsOfReturn(AliceSetup(cfg), AliceGoesAndReturns(f, mine, next, back),
                   Login("alice", Some(f), Some(mine)), Started(cfg, f, "alice", mine), Some(BOB),
                   Some(ALICE), OnlyBob(), Meaning([], [BOB], [], []));
  }

  lemma AliceIsFair(cfg: Config, f: AccessToken.u64, mine: string, next: string, back: Instant)
    requires InjectiveHash(cfg) && mine != next && mine != "" && IsTrimmed(mine)
    requires back < cfg.refreshTtl && back < MAX_FAMILY_LIFETIME
    ensures RouterRun(AliceSetup(cfg), AliceGoesAndReturns(f, mine, next, back))
  {
    hide OnlyAlice, OnlyBob, TokenCall, AuthStep, Means, InjectiveHash, FairCall, ReloadAuth,
         AfterReloadAuth, EncodeCredential, EmptyStore, RouterRun, Started;
    var moments := AliceGoesAndReturns(f, mine, next, back);
    AliceOrBob();
    AliceLogsIn(cfg, f, mine);
    AliceRefreshes(cfg, f, mine, next, back);
    var refresh := TokenCall(OnlyAlice(), moments[3].event).value;
    FairForAlice(cfg, f, mine, next, back, refresh);
    ReturnIsFair(AliceSetup(cfg), moments, Login("alice", Some(f), Some(mine)),
                 Started(cfg, f, "alice", mine), Some(BOB), Some(ALICE), OnlyBob(),
                 Meaning([], [BOB], [], []), refresh);
  }

  /** A run in which a user is removed and comes back, and a refresh token from before works. */
  lemma RemovedUserReturns(cfg: Config, f: AccessToken.u64, mine: string, next: string, back: Instant)
    requires InjectiveHash(cfg) && mine != next && mine != "" && IsTrimmed(mine)
    requires back < cfg.refreshTtl && back < MAX_FAMILY_LIFETIME
    ensures var u, moments := AliceSetup(cfg), AliceGoesAndReturns(f, mine, next, back);
            && RouterRun(u, moments)
            && ResponseAt(u, moments, 0).TokenPair? && ResponseAt(u, moments, 0).user == "alice"
            && ResponseAt(u, moments, 0).tokens.refreshToken == mine
            && !Configured(WorldAt(u, moments, 2).meaning.Credentials(), "alice")
            && ResponseAt(u, moments, 3).TokenPair? && ResponseAt(u, moments, 3).user == "alice"
  {
    hide OnlyAlice, OnlyBob, AuthStep, InjectiveHash, Configured, Started, WorldAt, EncodeCredential,
         EmptyStore, RouterRun;
    AliceIsFair(cfg, f, mine, next, back);
    AliceOrBob();
    AliceLogsIn(cfg, f, mine);
    AliceWorlds(cfg, f, mine, next, back);
    AliceRefreshes(cfg, f, mine, next, back);
    assert [] + [BOB] == [BOB];
  }

  // ----- where accepted tokens come from ------------------------------------------------------

  /** Moment `k` answered with a pair for `user` whose access token is `token`. */
  predicate HandedOut(u: Setup, moments: seq<Moment>, k: nat, user: string, token: string)
    requires k < |moments|
  {
    var w, m := WorldAt(u, moments, k), moments[k];
    m.event.Plain? &&
    var response := AuthStep(u.cfg, w.settings, w.store, m.now, m.event.request).1;
    response.TokenPair? && response.user == user && response.tokens.accessToken == token
  }

  lemma NothingMintedYet(u: Setup, moments: seq<Moment>)
    ensures LedgerAt(u, moments, 0).minted == {}
  {
  }

  lemma {:induction false} MintedWasHandedOut(u: Setup, moments: seq<Moment>, i: nat, p: Payload)
    returns (k: nat)
    requires RouterRun(u, moments) && i <= |moments| && p in LedgerAt(u, moments, i).minted
    ensures k < i && HandedOut(u, moments, k, p.user, Mint(u.cfg.sign, p))
  {
    hide InjectiveHash, TokenCall, Next, Means, Mint, HandedOut, FairCall;
    if i == 0 {
      NothingMintedYet(u, moments);
      assert false;
    } else {
      if p in LedgerAt(u, moments, i - 1).minted {
        k := MintedWasHandedOut(u, moments, i - 1, p);
      } else {
        k := i - 1;
        NewPayloadIsHandedOut(u, moments, k, p);
      }
    }
  }

  lemma NewPayloadIsHandedOut(u: Setup, moments: seq<Moment>, k: nat, p: Payload)
    requires RouterRun(u, moments) && k < |moments|
    requires p in LedgerAt(u, moments, k + 1).minted && p !in LedgerAt(u, moments, k).minted
    ensures HandedOut(u, moments, k, p.user, Mint(u.cfg.sign, p))
  {
    hide InjectiveHash, Step, Means, Mint, CallOf, Refusal, ReloadAuth, ReloadTargets, Recorded,
         AllowsAnonymous, BearerToken, Run, After;
    ReachableRouter(u, moments, k);
    var w, m := WorldAt(u, moments, k), moments[k];
    var call := TokenCall(w.settings, m.event);
    assert call.Some?;
    var c := Call(m.now, call.value);
    var more := w.calls + [c];
    RunExtends(u.cfg, u.start, w.calls, c);
    assert more[..|w.calls|] == w.calls && more[..|more|] == more;
    NewPayloadIsGranted(u.cfg, u.start, more, |w.calls|, p);
    if m.event.Connect? {
      VerifyChangesNothing(u.cfg, w.store, m.now, call.value);
      assert false;
    }
  }

  /** A bearer token that lets anyone in for such a target is, character by character, one that the
      router handed to that very user in an earlier answer. */
  lemma AcceptedBearerWasHandedOut(u: Setup, moments: seq<Moment>, i: nat, token: string, user: string)
    returns (k: nat)
    requires RouterRun(u, moments) && i < |moments| && moments[i].event.Connect?
    requires var e := moments[i].event; e.authorization.Some? && BearerToken(e.authorization.value) == Some(token)
    requires !AllowsAnonymous(WorldAt(u, moments, i).settings.targets, moments[i].event.path)
    requires var w, m := WorldAt(u, moments, i), moments[i];
             Authorize(u.cfg, w.settings, w.store, m.now, m.event.path, m.event.authorization)
             == Accepted(user)
    ensures k < i && HandedOut(u, moments, k, user, token)
  {
    hide InjectiveHash, Authorize, Mint, BearerToken, AllowsAnonymous;
    BearerDecision(u, moments, i, token, user);
    var p :| p in LedgerAt(u, moments, i).minted && token == Mint(u.cfg.sign, p) && p.user == user;
    k := MintedWasHandedOut(u, moments, i, p);
  }
}
