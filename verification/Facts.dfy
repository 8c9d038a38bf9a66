/** What the ledger holds is what the answers said: every fact in it is a call of the run, and the
    times in it are clock readings. So the theorems that speak of the ledger speak of calls. */
module Facts {
  import opened Text
  import opened AccessToken
  import opened TokenStore
  import opened Ledger
  import opened Simulation
  import opened TokenRuns

  // ----- what each call adds ------------------------------------------------------------------

  /** Call `k` handed out the refresh token `t`. */
  predicate HandsOut(cfg: Config, start: Instant, calls: seq<Call>, k: nat, t: string)
    requires k < |calls|
  {
    var a := AnswerAt(cfg, start, calls, k);
    a.Granted? && a.tokens.refreshToken == t
  }

  /** Call `k` retired `t`. */
  predicate Retires(cfg: Config, start: Instant, calls: seq<Call>, k: nat, t: string)
    requires k < |calls|
  {
    Presented(calls[k], t) && Exchanged(AnswerAt(cfg, start, calls, k))
  }

  /** Call `k` was the login that began `f`. */
  predicate Begins(cfg: Config, start: Instant, calls: seq<Call>, k: nat, f: u64)
    requires k < |calls|
  {
    var e := calls[k].event;
    e.Login? && e.family == Some(f) && AnswerAt(cfg, start, calls, k).Granted?
  }

  /** The answer to a call, from the inputs of the call. */
  lemma GrantedAnswer(cfg: Config, start: Instant, calls: seq<Call>, k: nat)
    requires Run(cfg, start, calls) && k < |calls| && AnswerAt(cfg, start, calls, k).Granted?
    ensures var e, a, l := calls[k].event, AnswerAt(cfg, start, calls, k), At(cfg, start, calls, k).ledger;
            && ((e.Login? && e.family.Some? && a.user == e.user)
                || (e.Refresh? && l.Active(e.token) && l.issued[e.token].family in l.logins
                    && a.user == l.UserOf(l.issued[e.token].family)))
            && e.drawn.Some? && a.tokens.refreshToken == e.drawn.value
  {
    hide Step, Sound, WellFormed, InjectiveHash, Mint;
    ReachableInvariant(cfg, start, calls, k);
    var w, c := At(cfg, start, calls, k), calls[k];
    GrantedNeedsDraw(cfg, w.store, c.now, c.event);
    if c.event.Refresh? {
      ExchangedWasActive(cfg, start, calls, k);
      ExchangeNames(cfg, w.store, w.ledger, c.now, c.event);
    } else {
      LoginNames(cfg, w.store, c.now, c.event);
    }
  }

  lemma OneCallAdds(cfg: Config, start: Instant, calls: seq<Call>, k: nat)
    requires Run(cfg, start, calls) && k < |calls|
    ensures var l, l' := At(cfg, start, calls, k).ledger, At(cfg, start, calls, k + 1).ledger;
            && (forall t :: t in l'.issued <==> t in l.issued || HandsOut(cfg, start, calls, k, t))
            && (forall t :: t in l'.used <==> t in l.used || Retires(cfg, start, calls, k, t))
            && (forall f :: f in l'.dead <==> f in l.dead || RevokedAt(cfg, start, calls, k, f))
            && (forall f :: f in l'.logins <==> f in l.logins || Begins(cfg, start, calls, k, f))
  {
    hide Step, Sound, InjectiveHash, Tokens;
    NextLedger(cfg, start, calls, k);
    ReachableInvariant(cfg, start, calls, k);
    var l, e, a := At(cfg, start, calls, k).ledger, calls[k].event, AnswerAt(cfg, start, calls, k);
    if a.Granted? {
      GrantedAnswer(cfg, start, calls, k);
    }
    if e.Refresh? && Exchanged(a) {
      ExchangedWasActive(cfg, start, calls, k);
    }
    RecordedAdds(cfg, l, calls[k].now, e, a);
  }

  lemma RecordedAdds(cfg: Config, l: Ledger, now: Instant, e: Event, a: Answer)
    requires WellFormed(cfg, l)
    requires a.Granted? ==> (e.Login? && e.family.Some? && e.drawn.Some?)
                            || (e.Refresh? && e.token in l.issued && e.drawn.Some?)
    requires a.Granted? ==> a.tokens.refreshToken == e.drawn.value
    requires e.Refresh? && Exchanged(a) ==> e.token in l.issued
    ensures var l' := Recorded(cfg, l, now, e, a);
            && (forall t :: t in l'.issued <==> t in l.issued || (a.Granted? && a.tokens.refreshToken == t))
            && (forall t :: t in l'.used <==> t in l.used || (e.Refresh? && e.token == t && Exchanged(a)))
            && (forall f :: f in l'.dead <==> f in l.dead || Ends(l, e, a, f))
            && (forall f :: f in l'.logins <==>
                  f in l.logins || (e.Login? && e.family == Some(f) && a.Granted?))
  {
  }

  // ----- the facts are the calls ---------------------------------------------------------------

  /** In every run, for arbitrary clock readings: the tokens issued are those that were handed out, the
      tokens used those that were retired, the logins revoked those that a logout or a reuse revoked,
      and the logins those that were begun. */
  lemma {:induction false} FactsAreCalls(cfg: Config, start: Instant, calls: seq<Call>, i: nat, t: string,
                                         f: u64)
    requires Run(cfg, start, calls) && i <= |calls|
    ensures var l := At(cfg, start, calls, i).ledger;
            && (t in l.issued <==> exists k :: 0 <= k < i && HandsOut(cfg, start, calls, k, t))
            && (t in l.used <==> exists k :: 0 <= k < i && Retires(cfg, start, calls, k, t))
            && (f in l.dead <==> exists k :: 0 <= k < i && RevokedAt(cfg, start, calls, k, f))
            && (f in l.logins <==> exists k :: 0 <= k < i && Begins(cfg, start, calls, k, f))
  {
    hide Run, HandsOut, Retires, RevokedAt, Begins;
    if i > 0 {
      FactsAreCalls(cfg, start, calls, i - 1, t, f);
      OneCallAdds(cfg, start, calls, i - 1);
    }
  }

  // ----- times ---------------------------------------------------------------------------------

  /** A login is on record under its user, as of the moment of the call. */
  lemma BeginsAtItsCall(cfg: Config, start: Instant, calls: seq<Call>, k: nat, i: nat, f: u64)
    requires Run(cfg, start, calls) && k < i <= |calls| && Begins(cfg, start, calls, k, f)
    ensures var l := At(cfg, start, calls, i).ledger;
            f in l.logins && l.logins[f].user == calls[k].event.user && l.logins[f].at == calls[k].now
  {
    hide Step;
    GrantedAnswer(cfg, start, calls, k);
    NextLedger(cfg, start, calls, k);
    FactsStay(cfg, start, calls, k + 1, i);
  }

  /** `n` seconds are the whole seconds in `d`. */
  predicate WholeSeconds(n: nat, d: nat) {
    n * SECOND <= d < (n + 1) * SECOND
  }

  /** What a pair is: tokens of one login for its user. The refresh token lives for `refresh_ttl`, cut
      off at `MAX_FAMILY_LIFETIME` after the login; and the lifetimes reported are the whole seconds of
      what was granted. */
  predicate PairOk(cfg: Config, l: Ledger, now: Instant, a: Answer)
    requires a.Granted?
  {
    var t, token := a.tokens.refreshToken, Open(cfg.sign, a.tokens.accessToken);
    && t in l.issued && l.issued[t].family in l.logins && token.Some?
    && var f, expires := l.issued[t].family, l.issued[t].expires;
    var last := l.logins[f].at + MAX_FAMILY_LIFETIME;
    && l.logins[f].user == a.user
    && token.value.family == f && token.value.user == a.user && token.value in l.minted
    && expires <= now + cfg.refreshTtl && expires <= last
    && (expires == now + cfg.refreshTtl || expires == last)
    && WholeSeconds(a.tokens.accessExpiresIn, cfg.accessTtl)
    && (now <= expires ==> WholeSeconds(a.tokens.refreshExpiresIn, expires - now))
  }

  lemma TokensOk(cfg: Config, l: Ledger, now: Instant, f: u64, family: Family, t: string)
    ensures var a := Granted(family.user, Tokens(cfg, f, family.user, now, family.Deadline(), t));
            PairOk(cfg, Extend(cfg, l, now, f, family, t), now, a)
  {
    hide Open, Mint;
    OpenMint(cfg.sign, Payload(f, cfg.AccessExpiry(now), family.user));
  }

  lemma GrantedIsExtended(cfg: Config, start: Instant, calls: seq<Call>, k: nat)
    returns (l: Ledger, f: u64, family: Family)
    requires Run(cfg, start, calls) && k < |calls| && AnswerAt(cfg, start, calls, k).Granted?
    ensures var e, now := calls[k].event, calls[k].now;
            && (e.Login? || e.Refresh?) && e.drawn.Some?
            && AnswerAt(cfg, start, calls, k)
               == Granted(family.user, Tokens(cfg, f, family.user, now, family.Deadline(), e.drawn.value))
            && At(cfg, start, calls, k + 1).ledger == Extend(cfg, l, now, f, family, e.drawn.value)
  {
    hide Step, Sound, WellFormed, InjectiveHash, Tokens, Extend;
    GrantedAnswer(cfg, start, calls, k);
    NextLedger(cfg, start, calls, k);
    ReachableInvariant(cfg, start, calls, k);
    var w, c := At(cfg, start, calls, k), calls[k];
    if c.event.Refresh? {
      ExchangeNames(cfg, w.store, w.ledger, c.now, c.event);
      f := w.ledger.issued[c.event.token].family;
      family := w.ledger.logins[f];
      l := w.ledger.(used := w.ledger.used + {c.event.token});
    } else {
      LoginNames(cfg, w.store, c.now, c.event);
      f, family, l := c.event.family.value, Family(c.event.user, c.now, []), w.ledger;
    }
  }

  /** Every pair that is handed out is such a pair. */
  lemma PairsAreOk(cfg: Config, start: Instant, calls: seq<Call>, k: nat)
    requires Run(cfg, start, calls) && k < |calls| && AnswerAt(cfg, start, calls, k).Granted?
    ensures PairOk(cfg, At(cfg, start, calls, k + 1).ledger, calls[k].now, AnswerAt(cfg, start, calls, k))
  {
    hide Run, At, AnswerAt, Extend, Tokens, PairOk;
    var l, f, family := GrantedIsExtended(cfg, start, calls, k);
    TokensOk(cfg, l, calls[k].now, f, family, calls[k].event.drawn.value);
  }

  lemma SecondsApart(cfg: Config, from: Instant, now: Instant)
    requires (from + cfg.epoch + cfg.accessTtl) / SECOND < TWO_64
    ensures var life := cfg.accessTtl - cfg.accessTtl % SECOND;
            && (now + SECOND <= from + life ==> cfg.Unix(now) < cfg.AccessExpiry(from))
            && (now >= from + life ==> cfg.Unix(now) >= cfg.AccessExpiry(from))
  {
    var q := cfg.accessTtl / SECOND;
    assert cfg.accessTtl == q * SECOND + cfg.accessTtl % SECOND;
    assert cfg.Unix(from) + q < TWO_64;
    assert cfg.AccessExpiry(from) == cfg.Unix(from) + q;
  }

  /** An access token lives for `access_ttl`, in whole seconds. Presented while its login is not revoked,
      it is accepted for its user as long as a second of that is left, and it is not any more when
      nothing is. (Which of the two it is within the last second depends on how the clock is rounded.) */
  lemma AccessTokenLives(cfg: Config, start: Instant, calls: seq<Call>, k: nat, j: nat)
    requires TimedRun(cfg, start, calls) && k < j < |calls|
    requires AnswerAt(cfg, start, calls, k).Granted?
    requires calls[j].event == Verify(AnswerAt(cfg, start, calls, k).tokens.accessToken)
    requires (calls[k].now + cfg.epoch + cfg.accessTtl) / SECOND < TWO_64
    ensures var a, life := AnswerAt(cfg, start, calls, k), cfg.accessTtl - cfg.accessTtl % SECOND;
            var t := a.tokens.refreshToken;
            && t in At(cfg, start, calls, k + 1).ledger.issued
            && var f := At(cfg, start, calls, k + 1).ledger.issued[t].family;
            var dead := f in At(cfg, start, calls, j).ledger.dead;
            && (!dead && calls[j].now + SECOND <= calls[k].now + life ==>
                  AnswerAt(cfg, start, calls, j) == Verified(Some(a.user)))
            && (dead || calls[j].now >= calls[k].now + life ==>
                  AnswerAt(cfg, start, calls, j) == Verified(None))
  {
    hide TimedRun, Run, At, AnswerAt, Open;
    RunOfTimed(cfg, start, calls);
    PairsAreOk(cfg, start, calls, k);
    HandedOutIsAccepted(cfg, start, calls, k, j);
    SecondsApart(cfg, calls[k].now, calls[j].now);
  }

  /** A logout with an unexpired token says exactly whether the token is one of the login's, live or
      spent, and then ends the login; one with a token that was never handed out changes nothing. */
  lemma LogoutEnds(cfg: Config, start: Instant, calls: seq<Call>, j: nat)
    requires TimedRun(cfg, start, calls) && j < |calls| && calls[j].event.Revoke?
    ensures var l, l' := At(cfg, start, calls, j).ledger, At(cfg, start, calls, j + 1).ledger;
            var t := calls[j].event.token;
            && (l.Fresh(t, calls[j].now) && (l.Active(t) || t in l.used) ==>
                  AnswerAt(cfg, start, calls, j) == Revoked(true) && l'.dead == l.dead + {l.issued[t].family})
            && (l.Fresh(t, calls[j].now) && !l.Active(t) && t !in l.used ==>
                  AnswerAt(cfg, start, calls, j) == Revoked(false) && l' == l)
            && (t !in l.issued ==> AnswerAt(cfg, start, calls, j) == Revoked(false) && l' == l)
  {
    hide Step, InjectiveHash, TimedRun, Run, At;
    ForgettingIsInvisible(cfg, start, calls, j);
    NextLedger(cfg, start, calls, j);
  }
}
