/** The reference: a ledger that never forgets anything, and the relation that makes the token
    store an implementation of it. The ledger knows tokens themselves, the store only their hashes;
    the ledger keeps every fact for ever, the store drops facts as soon as it dares. */
module Ledger {
  import opened Text
  import opened AccessToken
  import opened TokenStore

  /** A login: whose it is, when it happened, and all its refresh tokens in the order issued. */
  datatype Family = Family(user: string, at: Instant, chain: seq<string>)
  {
    function Deadline(): Instant { at + MAX_FAMILY_LIFETIME }
  }

  datatype Grant = Grant(family: u64, expires: Instant)

  datatype Ledger = Ledger(
    logins: map<u64, Family>,
    issued: map<string, Grant>,   // every refresh token ever handed out
    used: set<string>,            // exchanged for a new pair
    dropped: set<string>,         // presented in time, but their user was gone
    dead: set<u64>,               // revoked families
    minted: set<Payload>)         // every payload ever signed
  {
    /** Not exchanged, not dropped, and of a login that was not revoked. */
    predicate Active(t: string) {
      t in issued && t !in used && t !in dropped && issued[t].family !in dead
    }

    predicate Fresh(t: string, now: Instant) {
      t in issued && now < issued[t].expires
    }

    function UserOf(f: u64): string {
      if f in logins then logins[f].user else ""
    }

    /** The tokens that must still be remembered at `now`. */
    function Remembered(now: Instant): set<string> {
      set t | t in issued && Fresh(t, now) && (Active(t) || t in used)
    }
  }

  const EMPTY: Ledger := Ledger(map[], map[], {}, {}, {}, {})

  // ----- what the ledger answers --------------------------------------------------------------

  /** The answer to everything but a revocation is determined by the facts alone. */
  function Expected(cfg: Config, l: Ledger, now: Instant, e: Event): Answer {
    match e
    case Login(user, family, drawn) =>
      if family.None? then Refused(Random)
      else if |l.Remembered(now)| >= MAX_RECORDS then Refused(Full)
      else if drawn.None? then Refused(Random)
      else Granted(user, Tokens(cfg, family.value, user, now, now + MAX_FAMILY_LIFETIME, drawn.value))
    case Refresh(t, userExists, drawn) =>
      if |l.Remembered(now)| >= MAX_RECORDS then Refused(Full)
      else if !l.Fresh(t, now) then Refused(Invalid)
      else
        var f := l.issued[t].family;
        var user := l.UserOf(f);
        if t in l.used then Refused(Reused(user))
        else if !l.Active(t) || f !in l.logins || !userExists(user) then Refused(Invalid)
        else if drawn.None? then Refused(Random)
        else Granted(user, Tokens(cfg, f, user, now, l.logins[f].Deadline(), drawn.value))
    case Revoke(t) => Revoked(l.Fresh(t, now) && (l.Active(t) || t in l.used))
    case Verify(token) =>
      Verified(
        match Open(cfg.sign, token)
        case None => None
        case Some(p) =>
          if p in l.minted && cfg.Unix(now) < p.expires && p.family !in l.dead then Some(p.user)
          else None)
  }

  /** Revoking an expired token that could still be remembered: the store's answer then depends on
      whether a sweep came first. */
  predicate Undetermined(l: Ledger, now: Instant, e: Event) {
    e.Revoke? && e.token in l.issued && !l.Fresh(e.token, now) && (l.Active(e.token) || e.token in l.used)
  }

  predicate Allows(cfg: Config, l: Ledger, now: Instant, e: Event, a: Answer) {
    a == Expected(cfg, l, now, e) || (Undetermined(l, now, e) && a.Revoked?)
  }

  // ----- what the ledger writes down ----------------------------------------------------------

  function Extend(cfg: Config, l: Ledger, now: Instant, f: u64, family: Family, t: string): Ledger {
    l.(logins := l.logins[f := family.(chain := family.chain + [t])],
       issued := l.issued[t := Grant(f, cfg.RefreshExpiry(now, family.Deadline()))],
       minted := l.minted + {Payload(f, cfg.AccessExpiry(now), family.user)})
  }

  /** The new facts of a call that was answered with `a`. */
  function Recorded(cfg: Config, l: Ledger, now: Instant, e: Event, a: Answer): Ledger {
    match e
    case Login(user, family, drawn) =>
      if a.Granted? && family.Some? && drawn.Some? then
        Extend(cfg, l, now, family.value, Family(user, now, []), drawn.value)
      else l
    case Refresh(t, userExists, drawn) =>
      if t !in l.issued || l.issued[t].family !in l.logins then l
      else
        var f := l.issued[t].family;
        (match a {
           case Granted(_, _) =>
             if drawn.None? then l
             else Extend(cfg, l.(used := l.used + {t}), now, f, l.logins[f], drawn.value)
           case Refused(Random) => l.(used := l.used + {t})
           case Refused(Reused(_)) => l.(dead := l.dead + {f})
           case Refused(Invalid) =>
             if l.Active(t) && l.Fresh(t, now) then l.(dropped := l.dropped + {t}) else l
           case _ => l
         })
    case Revoke(t) =>
      if a == Revoked(true) && t in l.issued then l.(dead := l.dead + {l.issued[t].family}) else l
    case Verify(_) => l
  }

  // ----- what can be assumed of a call --------------------------------------------------------

  ghost predicate InjectiveHash(cfg: Config) {
    forall s: string, t: string :: cfg.hash(s) == cfg.hash(t) ==> s == t
  }

  /** Random draws never repeat an earlier one. */
  predicate DrawsFresh(l: Ledger, e: Event) {
    match e
    case Login(_, family, drawn) =>
      (family.Some? ==> family.value !in l.logins) && (drawn.Some? ==> drawn.value !in l.issued)
    case Refresh(_, _, drawn) => drawn.Some? ==> drawn.value !in l.issued
    case _ => true
  }

  /** The MAC is ideal: nobody presents a right tag for a payload that was not signed. */
  predicate Unforged(cfg: Config, l: Ledger, e: Event) {
    e.Verify? && Open(cfg.sign, e.token).Some? ==> Open(cfg.sign, e.token).value in l.minted
  }

  // ----- invariants of the ledger -------------------------------------------------------------

  predicate GrantsOk(l: Ledger) {
    forall t :: t in l.issued ==>
      var g := l.issued[t];
      && g.family in l.logins
      && t in l.logins[g.family].chain
      && g.expires <= l.logins[g.family].Deadline()
  }

  /** All tokens of a login but the last one were exchanged. */
  predicate ChainsOk(l: Ledger) {
    forall f, i :: f in l.logins && 0 <= i < |l.logins[f].chain| ==>
      var t := l.logins[f].chain[i];
      && t in l.issued && l.issued[t].family == f
      && (i < |l.logins[f].chain| - 1 ==> t in l.used)
  }

  predicate MintedOk(cfg: Config, l: Ledger) {
    forall p :: p in l.minted ==>
      && p.family in l.logins
      && p.user == l.logins[p.family].user
      && p.expires <= cfg.Unix(l.logins[p.family].Deadline() + cfg.accessTtl)
  }

  ghost predicate WellFormed(cfg: Config, l: Ledger) {
    && GrantsOk(l)
    && ChainsOk(l)
    && MintedOk(cfg, l)
    && l.used <= l.issued.Keys
    && l.dropped <= l.issued.Keys
    && l.dead <= l.logins.Keys
    && l.used !! l.dropped
  }

  /** No access token outlives `access_ttl` from the last clock reading. */
  predicate MintedBy(cfg: Config, l: Ledger, clock: Instant) {
    forall p :: p in l.minted ==> p.expires <= cfg.Unix(clock + cfg.accessTtl)
  }

  // ----- the relation -------------------------------------------------------------------------

  function Hashes(cfg: Config, ts: set<string>): set<Hash> {
    set t | t in ts :: cfg.hash(t)
  }

  predicate LiveSound(cfg: Config, s: Store, l: Ledger, t: string)
    requires cfg.hash(t) in s.refresh
  {
    l.Active(t) && l.issued[t].family in l.logins && s.refresh[cfg.hash(t)] == RecordOf(l, t)
  }

  predicate SpentSound(cfg: Config, s: Store, l: Ledger, t: string)
    requires cfg.hash(t) in s.spent
  {
    t in l.used && t in l.issued && s.spent[cfg.hash(t)] == SpentOf(l, t)
  }

  /** Everything the store holds is a fact of the ledger. Says nothing about time. */
  ghost predicate Sound(cfg: Config, s: Store, l: Ledger) {
    && (forall t: string :: cfg.hash(t) in s.refresh ==> LiveSound(cfg, s, l, t))
    && (forall t: string :: cfg.hash(t) in s.spent ==> SpentSound(cfg, s, l, t))
    && s.refresh.Keys <= Hashes(cfg, l.issued.Keys)
    && s.spent.Keys <= Hashes(cfg, l.issued.Keys)
    && s.revoked.Keys <= l.dead
  }

  function RecordOf(l: Ledger, t: string): RefreshRecord
    requires t in l.issued && l.issued[t].family in l.logins
  {
    var g := l.issued[t];
    RefreshRecord(g.family, l.UserOf(g.family), g.expires, l.logins[g.family].Deadline())
  }

  function SpentOf(l: Ledger, t: string): SpentRecord
    requires t in l.issued
  {
    SpentRecord(l.issued[t].family, l.UserOf(l.issued[t].family), l.issued[t].expires)
  }

  /** Everything the store may have forgotten by `clock` no longer matters: the tokens have expired,
      and so has every access token of a revoked family that is not listed any more. */
  ghost predicate Complete(cfg: Config, s: Store, l: Ledger, clock: Instant) {
    && (forall t :: t in l.issued && l.Fresh(t, clock) && l.Active(t) ==> cfg.hash(t) in s.refresh)
    && (forall t :: t in l.used && l.Fresh(t, clock) ==> cfg.hash(t) in s.spent)
    && (forall p :: p in l.minted && p.family in l.dead ==>
          if p.family in s.revoked then p.expires <= cfg.Unix(s.revoked[p.family])
          else p.expires <= cfg.Unix(clock))
  }

  ghost predicate Simulates(cfg: Config, s: Store, l: Ledger, clock: Instant) {
    && WellFormed(cfg, l) && MintedBy(cfg, l, clock)
    && Sound(cfg, s, l) && Complete(cfg, s, l, clock)
  }

  // ----- sweeping -----------------------------------------------------------------------------

  /** `s'` is `s` with some facts dropped, all of them out of date at `now`. */
  ghost predicate Trimmed(s: Store, s': Store, now: Instant) {
    && (forall h :: h in s'.refresh ==> h in s.refresh && s'.refresh[h] == s.refresh[h])
    && (forall h :: h in s.refresh && now < s.refresh[h].expires && now < s.refresh[h].familyDeadline
          ==> h in s'.refresh)
    && (forall h :: h in s'.spent ==> h in s.spent && s'.spent[h] == s.spent[h])
    && (forall h :: h in s.spent && now < s.spent[h].expires ==> h in s'.spent)
    && (forall f :: f in s'.revoked ==> f in s.revoked && s'.revoked[f] == s.revoked[f])
    && (forall f :: f in s.revoked && now < s.revoked[f] ==> f in s'.revoked)
  }

  lemma ForceSweptTrims(s: Store, now: Instant)
    ensures Trimmed(s, ForceSwept(s, now), now)
  {
  }

  lemma RoomMadeTrims(s: Store, now: Instant)
    ensures Trimmed(s, RoomMade(s, now), now)
  {
    ForceSweptTrims(s, now);
  }

  lemma SweptAndRoomMadeTrims(s: Store, now: Instant)
    ensures Trimmed(s, RoomMade(Swept(s, now), now), now)
  {
    ForceSweptTrims(s, now);
    RoomMadeTrims(Swept(s, now), now);
  }

  lemma TrimKeepsSound(cfg: Config, s: Store, s': Store, l: Ledger, now: Instant)
    requires Sound(cfg, s, l) && Trimmed(s, s', now)
    ensures Sound(cfg, s', l)
  {
  }

  lemma UnixMonotone(cfg: Config, a: Instant, b: Instant)
    requires a <= b
    ensures cfg.Unix(a) <= cfg.Unix(b)
  {
  }

  /** Forgetting what is out of date is safe. */
  lemma TrimKeepsComplete(cfg: Config, s: Store, s': Store, l: Ledger, clock: Instant, now: Instant)
    requires Sound(cfg, s, l) && WellFormed(cfg, l)
    requires Complete(cfg, s, l, clock) && clock <= now && Trimmed(s, s', now)
    ensures Complete(cfg, s', l, now)
  {
    forall p | p in l.minted && p.family in l.dead
      ensures if p.family in s'.revoked then p.expires <= cfg.Unix(s'.revoked[p.family])
              else p.expires <= cfg.Unix(now)
    {
      UnixMonotone(cfg, clock, now);
      if p.family in s.revoked && p.family !in s'.revoked {
        UnixMonotone(cfg, s.revoked[p.family], now);
      }
    }
  }

  // ----- the four ways a call changes the facts -----------------------------------------------

  /** The token of a live record is the last one its login was given. */
  lemma ActiveIsLast(cfg: Config, l: Ledger, t: string)
    requires WellFormed(cfg, l) && l.Active(t)
    ensures l.issued[t].family in l.logins
    ensures var chain := l.logins[l.issued[t].family].chain;
            chain != [] && t == chain[|chain| - 1]
  {
    var chain := l.logins[l.issued[t].family].chain;
    var i :| 0 <= i < |chain| && chain[i] == t;
    assert i == |chain| - 1;
  }

  function Retired(cfg: Config, s: Store, l: Ledger, t: string): Store
    requires t in l.issued
  {
    s.(refresh := s.refresh - {cfg.hash(t)}, spent := s.spent[cfg.hash(t) := SpentOf(l, t)])
  }

  /** Retiring a live token. */
  lemma UseKeepsSound(cfg: Config, s: Store, l: Ledger, t: string)
    requires InjectiveHash(cfg) && WellFormed(cfg, l) && Sound(cfg, s, l)
    requires l.Active(t)
    ensures WellFormed(cfg, l.(used := l.used + {t}))
    ensures Sound(cfg, Retired(cfg, s, l, t), l.(used := l.used + {t}))
  {
    var s', l' := Retired(cfg, s, l, t), l.(used := l.used + {t});
    forall u: string | cfg.hash(u) in s'.refresh ensures LiveSound(cfg, s', l', u) {
      assert LiveSound(cfg, s, l, u);
    }
    forall u: string | cfg.hash(u) in s'.spent ensures SpentSound(cfg, s', l', u) {
      assert u == t || SpentSound(cfg, s, l, u);
    }
  }

  ghost predicate CanExtend(l: Ledger, now: Instant, f: u64, family: Family, t: string) {
    && t !in l.issued && f !in l.dead && now <= family.Deadline()
    && (if f in l.logins then l.logins[f] == family else family.chain == [])
    && (forall u :: u in family.chain ==> u in l.used)
  }

  /** Handing out a new token to a login all of whose tokens are used. */
  lemma ExtendKeepsWellFormed(cfg: Config, l: Ledger, now: Instant, f: u64, family: Family, t: string)
    requires WellFormed(cfg, l) && CanExtend(l, now, f, family, t)
    ensures WellFormed(cfg, Extend(cfg, l, now, f, family, t))
  {
    var l' := Extend(cfg, l, now, f, family, t);
    AccessExpiryBound(cfg, now);
    UnixMonotone(cfg, now + cfg.accessTtl, family.Deadline() + cfg.accessTtl);
    assert MintedOk(cfg, l');
    assert ChainsOk(l');
    assert l'.logins[f].chain[|family.chain|] == t;
    forall u | u in l.issued ensures u in l'.logins[l.issued[u].family].chain {
      var g := l.issued[u].family;
      var i :| 0 <= i < |l.logins[g].chain| && l.logins[g].chain[i] == u;
      assert l'.logins[g].chain[i] == u;
    }
  }

  lemma KnownFacts(cfg: Config, l: Ledger)
    requires WellFormed(cfg, l)
    ensures l.used <= l.issued.Keys && l.dropped <= l.issued.Keys
    ensures forall t :: t in l.issued ==> l.issued[t].family in l.logins
  {
  }

  /** What the store files for the new token. */
  lemma ExtendedRecord(cfg: Config, l: Ledger, now: Instant, f: u64, family: Family, t: string)
    ensures var l' := Extend(cfg, l, now, f, family, t);
            && t in l'.issued && l'.issued[t].family in l'.logins
            && RecordOf(l', t) == RefreshRecord(f, family.user, cfg.RefreshExpiry(now, family.Deadline()),
                                                family.Deadline())
  {
  }

  lemma ExtendKeepsSound(cfg: Config, s: Store, l: Ledger, now: Instant, f: u64, family: Family,
                         t: string)
    requires InjectiveHash(cfg) && WellFormed(cfg, l) && Sound(cfg, s, l)
    requires CanExtend(l, now, f, family, t)
    ensures var l' := Extend(cfg, l, now, f, family, t);
            Sound(cfg, s.(refresh := s.refresh[cfg.hash(t) := RecordOf(l', t)]), l')
  {
    hide WellFormed, Extend, RecordOf, SpentOf;
    var l' := Extend(cfg, l, now, f, family, t);
    ExtendedRecord(cfg, l, now, f, family, t);
    var s' := s.(refresh := s.refresh[cfg.hash(t) := RecordOf(l', t)]);
    KnownFacts(cfg, l);
    ExtendKeepsOthers(cfg, l, now, f, family, t);
    forall u: string | cfg.hash(u) in s'.refresh ensures LiveSound(cfg, s', l', u) {
      assert u == t || LiveSound(cfg, s, l, u);
    }
    forall u: string | cfg.hash(u) in s'.spent ensures SpentSound(cfg, s', l', u) {
      assert SpentSound(cfg, s, l, u);
    }
  }

  /** A new token leaves everything that is known of the others as it was. */
  lemma ExtendKeepsOthers(cfg: Config, l: Ledger, now: Instant, f: u64, family: Family, t: string)
    requires WellFormed(cfg, l) && CanExtend(l, now, f, family, t)
    ensures var l' := Extend(cfg, l, now, f, family, t);
            && l'.issued.Keys == l.issued.Keys + {t}
            && l'.used == l.used && l'.dropped == l.dropped && l'.dead == l.dead
            && l'.issued[t].family == f
            && (forall u :: u in l.issued ==>
                  && l'.issued[u] == l.issued[u]
                  && l.issued[u].family in l.logins && l'.issued[u].family in l'.logins
                  && RecordOf(l', u) == RecordOf(l, u) && SpentOf(l', u) == SpentOf(l, u))
  {
  }

  lemma AccessExpiryBound(cfg: Config, now: Instant)
    ensures cfg.AccessExpiry(now) <= cfg.Unix(now) + cfg.accessTtl / SECOND
    ensures cfg.AccessExpiry(now) <= cfg.Unix(now + cfg.accessTtl)
  {
  }

  /** Revoking a login. */
  lemma KillKeepsSound(cfg: Config, s: Store, l: Ledger, now: Instant, f: u64)
    requires WellFormed(cfg, l) && Sound(cfg, s, l) && f in l.logins
    ensures WellFormed(cfg, l.(dead := l.dead + {f}))
    ensures Sound(cfg, FamilyRevoked(cfg, s, f, now), l.(dead := l.dead + {f}))
  {
  }

  /** Dropping a record, with or without writing it down. */
  lemma DropKeepsSound(cfg: Config, s: Store, l: Ledger, t: string, l': Ledger)
    requires InjectiveHash(cfg) && WellFormed(cfg, l) && Sound(cfg, s, l) && t in l.issued.Keys - l.used
    requires l' == l || l' == l.(dropped := l.dropped + {t})
    ensures WellFormed(cfg, l')
    ensures Sound(cfg, s.(refresh := s.refresh - {cfg.hash(t)}), l')
  {
    var s' := s.(refresh := s.refresh - {cfg.hash(t)});
    forall u: string | cfg.hash(u) in s'.refresh ensures LiveSound(cfg, s', l', u) {
      assert LiveSound(cfg, s, l, u);
    }
    forall u: string | cfg.hash(u) in s'.spent ensures SpentSound(cfg, s', l', u) {
      assert SpentSound(cfg, s, l, u);
    }
  }

  // ----- one step, any clock ------------------------------------------------------------------

  ghost predicate Invariant(cfg: Config, s: Store, l: Ledger) {
    InjectiveHash(cfg) && WellFormed(cfg, l) && Sound(cfg, s, l)
  }

  lemma DeadWereLogins(cfg: Config, l: Ledger)
    requires WellFormed(cfg, l)
    ensures l.dead <= l.logins.Keys
  {
  }

  lemma LiveIsSound(cfg: Config, s: Store, l: Ledger, t: string)
    requires Sound(cfg, s, l) && cfg.hash(t) in s.refresh
    ensures LiveSound(cfg, s, l, t)
  {
  }

  lemma SpentIsSound(cfg: Config, s: Store, l: Ledger, t: string)
    requires WellFormed(cfg, l) && Sound(cfg, s, l) && cfg.hash(t) in s.spent
    ensures SpentSound(cfg, s, l, t) && l.issued[t].family in l.logins
  {
  }

  lemma LoginKeepsSound(cfg: Config, s: Store, l: Ledger, now: Instant, e: Event)
    requires Invariant(cfg, s, l) && DrawsFresh(l, e) && e.Login?
    ensures var (s', a) := Step(cfg, s, now, e); Invariant(cfg, s', Recorded(cfg, l, now, e, a))
  {
    hide Sound, WellFormed, InjectiveHash, Trimmed, ForceSwept, Tokens, Extend, RecordOf;
    var s1 := RoomMade(s, now);
    RoomMadeTrims(s, now);
    TrimKeepsSound(cfg, s, s1, l, now);
    if s1.Count() < MAX_RECORDS && e.family.Some? && e.drawn.Some? {
      var f, family := e.family.value, Family(e.user, now, []);
      assert f !in l.dead by { DeadWereLogins(cfg, l); }
      ExtendedRecord(cfg, l, now, f, family, e.drawn.value);
      ExtendKeepsWellFormed(cfg, l, now, f, family, e.drawn.value);
      ExtendKeepsSound(cfg, s1, l, now, f, family, e.drawn.value);
    }
  }

  lemma RevokeKeepsSound(cfg: Config, s: Store, l: Ledger, now: Instant, e: Event)
    requires Invariant(cfg, s, l) && e.Revoke?
    ensures var (s', a) := Step(cfg, s, now, e); Invariant(cfg, s', Recorded(cfg, l, now, e, a))
  {
    hide Sound, WellFormed, InjectiveHash, Trimmed, ForceSwept, Tokens;
    var t := e.token;
    if cfg.hash(t) in s.refresh {
      LiveIsSound(cfg, s, l, t);
      KillKeepsSound(cfg, s, l, now, l.issued[t].family);
    } else if cfg.hash(t) in s.spent {
      SpentIsSound(cfg, s, l, t);
      KillKeepsSound(cfg, s, l, now, l.issued[t].family);
    }
  }

  lemma ExchangeDropsSoundly(cfg: Config, s: Store, l: Ledger, now: Instant, e: Event)
    requires Invariant(cfg, s, l) && e.Refresh? && cfg.hash(e.token) in s.refresh
    requires var record := s.refresh[cfg.hash(e.token)];
             now >= record.expires || now >= record.familyDeadline || !e.userExists(record.user)
    ensures var (s', a) := Exchange(cfg, s, now, e.token, e.userExists, e.drawn);
            Invariant(cfg, s', Recorded(cfg, l, now, e, a))
  {
    hide Sound, WellFormed, InjectiveHash, Trimmed, ForceSwept, Tokens;
    LiveIsSound(cfg, s, l, e.token);
    DropKeepsSound(cfg, s, l, e.token, Recorded(cfg, l, now, e, Refused(Invalid)));
  }

  lemma ExchangeKillsSoundly(cfg: Config, s: Store, l: Ledger, now: Instant, e: Event)
    requires Invariant(cfg, s, l) && e.Refresh? && cfg.hash(e.token) !in s.refresh
    ensures var (s', a) := Exchange(cfg, s, now, e.token, e.userExists, e.drawn);
            Invariant(cfg, s', Recorded(cfg, l, now, e, a))
  {
    hide Sound, WellFormed, InjectiveHash, Trimmed, ForceSwept, Tokens;
    var h := cfg.hash(e.token);
    if h in s.spent {
      SpentIsSound(cfg, s, l, e.token);
      KillKeepsSound(cfg, s, l, now, l.issued[e.token].family);
    } else if l.Active(e.token) {
      var l' := Recorded(cfg, l, now, e, Refused(Invalid));
      DropKeepsSound(cfg, s, l, e.token, l');
      assert s.refresh - {h} == s.refresh;
    }
  }

  lemma ExchangeRotatesSoundly(cfg: Config, s: Store, l: Ledger, now: Instant, e: Event)
    requires Invariant(cfg, s, l) && DrawsFresh(l, e) && e.Refresh? && cfg.hash(e.token) in s.refresh
    requires var record := s.refresh[cfg.hash(e.token)];
             now < record.expires && now < record.familyDeadline && e.userExists(record.user)
    ensures var (s', a) := Exchange(cfg, s, now, e.token, e.userExists, e.drawn);
            Invariant(cfg, s', Recorded(cfg, l, now, e, a))
  {
    hide Sound, WellFormed, InjectiveHash, Trimmed, ForceSwept, Tokens;
    var t := e.token;
    LiveIsSound(cfg, s, l, t);
    UseKeepsSound(cfg, s, l, t);
    if e.drawn.Some? {
      var f, l1 := l.issued[t].family, l.(used := l.used + {t});
      UsedUpChain(cfg, l, t);
      ExtendKeepsWellFormed(cfg, l1, now, f, l.logins[f], e.drawn.value);
      ExtendKeepsSound(cfg, Retired(cfg, s, l, t), l1, now, f, l.logins[f], e.drawn.value);
    }
  }

  lemma UsedUpChain(cfg: Config, l: Ledger, t: string)
    requires WellFormed(cfg, l) && l.Active(t)
    ensures l.issued[t].family in l.logins
    ensures forall u :: u in l.logins[l.issued[t].family].chain ==> u in l.used + {t}
  {
    ActiveIsLast(cfg, l, t);
    var chain := l.logins[l.issued[t].family].chain;
    forall u | u in chain ensures u in l.used + {t} {
      var i :| 0 <= i < |chain| && chain[i] == u;
    }
  }

  /** The invariant part of the simulation: it needs no assumption on the clock, nor on forgery. */
  lemma StepKeepsSound(cfg: Config, s: Store, l: Ledger, now: Instant, e: Event)
    requires Invariant(cfg, s, l) && DrawsFresh(l, e)
    ensures var (s', a) := Step(cfg, s, now, e); Invariant(cfg, s', Recorded(cfg, l, now, e, a))
  {
    hide Sound, WellFormed, InjectiveHash, Trimmed, ForceSwept, Tokens;
    match e
    case Login(_, _, _) => LoginKeepsSound(cfg, s, l, now, e);
    case Revoke(_) => RevokeKeepsSound(cfg, s, l, now, e);
    case Verify(_) =>
    case Refresh(t, userExists, _) =>
      var s1 := RoomMade(Swept(s, now), now);
      SweptAndRoomMadeTrims(s, now);
      TrimKeepsSound(cfg, s, s1, l, now);
      var h := cfg.hash(t);
      if s1.Count() < MAX_RECORDS {
        if h !in s1.refresh {
          ExchangeKillsSoundly(cfg, s1, l, now, e);
        } else if now < s1.refresh[h].expires && now < s1.refresh[h].familyDeadline
                  && userExists(s1.refresh[h].user) {
          ExchangeRotatesSoundly(cfg, s1, l, now, e);
        } else {
          ExchangeDropsSoundly(cfg, s1, l, now, e);
        }
      }
  }
}
