/** The token store gives the answers of the ledger that never forgets. Here the clock matters: it
    does not run backwards, and Unix time is the same clock rounded down. */
module Simulation {
  import opened Text
  import opened AccessToken
  import opened TokenStore
  import opened Ledger

  // ----- how much must be remembered ----------------------------------------------------------

  function KeysOf(s: Store): set<Hash> {
    s.refresh.Keys + s.spent.Keys
  }

  lemma {:induction false} HashesCount(cfg: Config, ts: set<string>)
    requires InjectiveHash(cfg)
    ensures |Hashes(cfg, ts)| == |ts|
  {
    if ts != {} {
      var t :| t in ts;
      var rest := ts - {t};
      HashesCount(cfg, rest);
      assert Hashes(cfg, ts) == Hashes(cfg, rest) + {cfg.hash(t)};
      assert cfg.hash(t) !in Hashes(cfg, rest);
    }
  }

  lemma LiveIsNotSpent(cfg: Config, s: Store, l: Ledger, t: string)
    requires Sound(cfg, s, l) && cfg.hash(t) in s.refresh
    ensures cfg.hash(t) !in s.spent
  {
    LiveIsSound(cfg, s, l, t);
  }

  /** A live token is not also spent, so the two maps share no key. */
  lemma KeysAreDisjoint(cfg: Config, s: Store, l: Ledger)
    requires Sound(cfg, s, l)
    ensures s.refresh.Keys !! s.spent.Keys
    ensures |KeysOf(s)| == s.Count()
  {
    forall h | h in s.refresh ensures h !in s.spent {
      var t :| t in l.issued && cfg.hash(t) == h;
      LiveIsNotSpent(cfg, s, l, t);
    }
    assert |s.refresh.Keys| == |s.refresh| && |s.spent.Keys| == |s.spent|;
  }

  lemma RememberedAreKept(cfg: Config, s: Store, l: Ledger, now: Instant)
    requires Complete(cfg, s, l, now)
    ensures Hashes(cfg, l.Remembered(now)) <= KeysOf(s)
  {
  }

  lemma SweptAreRemembered(cfg: Config, s: Store, l: Ledger, now: Instant)
    requires Sound(cfg, s, l)
    requires forall h :: h in s.refresh ==> now < s.refresh[h].expires
    requires forall h :: h in s.spent ==> now < s.spent[h].expires
    ensures KeysOf(s) <= Hashes(cfg, l.Remembered(now))
  {
    forall h | h in KeysOf(s) ensures h in Hashes(cfg, l.Remembered(now)) {
      var t :| t in l.issued && cfg.hash(t) == h;
      if h in s.refresh {
        assert LiveSound(cfg, s, l, t);
      } else {
        assert SpentSound(cfg, s, l, t);
      }
      assert t in l.Remembered(now);
    }
  }

  /** The store finds itself full exactly when that many tokens are worth remembering: lingering
      records never make it refuse, and forgetting never makes room it should not have. */
  lemma FullExactly(cfg: Config, s: Store, l: Ledger, now: Instant)
    requires Invariant(cfg, s, l) && Complete(cfg, s, l, now)
    ensures RoomMade(s, now).Count() >= MAX_RECORDS <==> |l.Remembered(now)| >= MAX_RECORDS
  {
    hide Sound, WellFormed, InjectiveHash, Complete, Trimmed;
    var all := Hashes(cfg, l.Remembered(now));
    HashesCount(cfg, l.Remembered(now));
    RememberedAreKept(cfg, s, l, now);
    KeysAreDisjoint(cfg, s, l);
    SubsetIsSmaller(all, KeysOf(s));
    if s.Count() >= MAX_RECORDS {
      var s' := ForceSwept(s, now);
      ForceSweptTrims(s, now);
      TrimKeepsSound(cfg, s, s', l, now);
      TrimKeepsComplete(cfg, s, s', l, now, now);
      RememberedAreKept(cfg, s', l, now);
      SweptAreRemembered(cfg, s', l, now);
      KeysAreDisjoint(cfg, s', l);
      assert KeysOf(s') == all;
    }
  }

  // ----- completeness is kept -----------------------------------------------------------------

  lemma MintedByLater(cfg: Config, l: Ledger, clock: Instant, now: Instant)
    requires MintedBy(cfg, l, clock) && clock <= now
    ensures MintedBy(cfg, l, now)
  {
    UnixMonotone(cfg, clock + cfg.accessTtl, now + cfg.accessTtl);
  }

  lemma UseKeepsComplete(cfg: Config, s: Store, l: Ledger, now: Instant, t: string)
    requires InjectiveHash(cfg) && Complete(cfg, s, l, now) && l.Active(t)
    ensures Complete(cfg, Retired(cfg, s, l, t), l.(used := l.used + {t}), now)
  {
  }

  lemma ExtendKeepsComplete(cfg: Config, s: Store, l: Ledger, now: Instant, f: u64, family: Family,
                            t: string)
    requires WellFormed(cfg, l) && Complete(cfg, s, l, now) && MintedBy(cfg, l, now)
    requires CanExtend(l, now, f, family, t)
    ensures var l' := Extend(cfg, l, now, f, family, t);
            && Complete(cfg, s.(refresh := s.refresh[cfg.hash(t) := RecordOf(l', t)]), l', now)
            && MintedBy(cfg, l', now)
  {
    AccessExpiryBound(cfg, now);
  }

  /** A revocation is listed until the last access token of its login has expired: a token minted
      now expires no later than `now + access_ttl`, both rounded down. */
  lemma KillKeepsComplete(cfg: Config, s: Store, l: Ledger, now: Instant, f: u64)
    requires Sound(cfg, s, l) && Complete(cfg, s, l, now) && MintedBy(cfg, l, now)
    ensures Complete(cfg, FamilyRevoked(cfg, s, f, now), l.(dead := l.dead + {f}), now)
  {
    var s' := FamilyRevoked(cfg, s, f, now);
    forall t | t in l.issued && l.Fresh(t, now) && l.(dead := l.dead + {f}).Active(t)
      ensures cfg.hash(t) in s'.refresh
    {
      assert LiveSound(cfg, s, l, t);
    }
  }

  lemma DropKeepsComplete(cfg: Config, s: Store, l: Ledger, now: Instant, t: string, l': Ledger)
    requires InjectiveHash(cfg) && Complete(cfg, s, l, now)
    requires l' == l.(dropped := l.dropped + {t}) || (l' == l && !(t in l.issued && l.Fresh(t, now)))
    ensures Complete(cfg, s.(refresh := s.refresh - {cfg.hash(t)}), l', now)
  {
    var s' := s.(refresh := s.refresh - {cfg.hash(t)});
    forall u | u in l'.issued && l'.Fresh(u, now) && l'.Active(u) ensures cfg.hash(u) in s'.refresh {
      assert u != t;
    }
  }

  // ----- one step -----------------------------------------------------------------------------

  /** What one answered call keeps and what it may answer. */
  ghost predicate Simulated(cfg: Config, s: Store, l: Ledger, now: Instant, e: Event, s': Store,
                            a: Answer) {
    && Allows(cfg, l, now, e, a)
    && Complete(cfg, s', Recorded(cfg, l, now, e, a), now)
    && MintedBy(cfg, Recorded(cfg, l, now, e, a), now)
  }

  lemma LoginSimulates(cfg: Config, s: Store, l: Ledger, now: Instant, e: Event)
    requires Invariant(cfg, s, l) && Complete(cfg, s, l, now) && MintedBy(cfg, l, now)
    requires DrawsFresh(l, e) && e.Login?
    ensures var (s', a) := Step(cfg, s, now, e); Simulated(cfg, s, l, now, e, s', a)
  {
    hide Sound, WellFormed, InjectiveHash, Complete, Trimmed, ForceSwept, Tokens, MintedBy,
         Extend, RecordOf, RoomMade;
    FullExactly(cfg, s, l, now);
    RoomMadeTrims(s, now);
    TrimKeepsSound(cfg, s, RoomMade(s, now), l, now);
    TrimKeepsComplete(cfg, s, RoomMade(s, now), l, now, now);
    if Step(cfg, s, now, e).1.Granted? {
      DeadWereLogins(cfg, l);
      ExtendedRecord(cfg, l, now, e.family.value, Family(e.user, now, []), e.drawn.value);
      ExtendKeepsComplete(cfg, RoomMade(s, now), l, now, e.family.value, Family(e.user, now, []),
                          e.drawn.value);
    }
  }

  lemma RevokeSimulates(cfg: Config, s: Store, l: Ledger, now: Instant, e: Event)
    requires Invariant(cfg, s, l) && Complete(cfg, s, l, now) && MintedBy(cfg, l, now)
    requires e.Revoke?
    ensures var (s', a) := Step(cfg, s, now, e); Simulated(cfg, s, l, now, e, s', a)
  {
    hide Sound, WellFormed, InjectiveHash, Complete;
    var t := e.token;
    KeptWhileFresh(cfg, s, l, now, t);
    if cfg.hash(t) in s.refresh {
      LiveIsSound(cfg, s, l, t);
      KillKeepsComplete(cfg, s, l, now, l.issued[t].family);
    } else if cfg.hash(t) in s.spent {
      SpentIsSound(cfg, s, l, t);
      KillKeepsComplete(cfg, s, l, now, l.issued[t].family);
    }
  }

  lemma KeptWhileFresh(cfg: Config, s: Store, l: Ledger, now: Instant, t: string)
    requires Complete(cfg, s, l, now)
    ensures l.Fresh(t, now) && l.Active(t) ==> cfg.hash(t) in s.refresh
    ensures l.Fresh(t, now) && t in l.used ==> cfg.hash(t) in s.spent
  {
  }

  lemma GrantInTime(cfg: Config, l: Ledger, t: string)
    requires WellFormed(cfg, l) && t in l.issued
    ensures l.issued[t].family in l.logins
    ensures l.issued[t].expires <= l.logins[l.issued[t].family].Deadline()
  {
  }

  /** An access token is refused because of a revocation exactly when it should be. */
  lemma VerifySimulates(cfg: Config, s: Store, l: Ledger, now: Instant, e: Event)
    requires Invariant(cfg, s, l) && Complete(cfg, s, l, now) && MintedBy(cfg, l, now)
    requires Unforged(cfg, l, e) && e.Verify?
    ensures var (s', a) := Step(cfg, s, now, e); Simulated(cfg, s, l, now, e, s', a)
  {
    hide Mint, Open;
  }

  /** The part of a refresh after its sweep. */
  lemma ExchangeSimulates(cfg: Config, s: Store, l: Ledger, now: Instant, e: Event)
    requires Invariant(cfg, s, l) && Complete(cfg, s, l, now) && MintedBy(cfg, l, now)
    requires DrawsFresh(l, e) && e.Refresh? && |l.Remembered(now)| < MAX_RECORDS
    ensures var (s', a) := Exchange(cfg, s, now, e.token, e.userExists, e.drawn);
            Simulated(cfg, s, l, now, e, s', a)
  {
    hide Sound, WellFormed, InjectiveHash, Complete, Tokens;
    var t, h := e.token, cfg.hash(e.token);
    KeptWhileFresh(cfg, s, l, now, t);
    if h in s.refresh {
      LiveIsSound(cfg, s, l, t);
      UsedUpChain(cfg, l, t);
      GrantInTime(cfg, l, t);
      var f := l.issued[t].family;
      if !l.Fresh(t, now) || !e.userExists(l.UserOf(f)) {
        DropKeepsComplete(cfg, s, l, now, t, Recorded(cfg, l, now, e, Refused(Invalid)));
      } else {
        UseKeepsComplete(cfg, s, l, now, t);
        UseKeepsSound(cfg, s, l, t);
        var s1, l1 := Retired(cfg, s, l, t), l.(used := l.used + {t});
        if e.drawn.Some? {
          ExtendKeepsComplete(cfg, s1, l1, now, f, l.logins[f], e.drawn.value);
        }
      }
    } else if h in s.spent {
      SpentIsSound(cfg, s, l, t);
      if l.Fresh(t, now) {
        KillKeepsComplete(cfg, s, l, now, l.issued[t].family);
      }
    }
  }

  lemma RefreshSimulates(cfg: Config, s: Store, l: Ledger, now: Instant, e: Event)
    requires Invariant(cfg, s, l) && Complete(cfg, s, l, now) && MintedBy(cfg, l, now)
    requires DrawsFresh(l, e) && e.Refresh?
    ensures var (s', a) := Step(cfg, s, now, e); Simulated(cfg, s, l, now, e, s', a)
  {
    hide Sound, WellFormed, InjectiveHash, Complete, Trimmed, ForceSwept, Tokens;
    var s0, s1 := Swept(s, now), RoomMade(Swept(s, now), now);
    ForceSweptTrims(s, now);
    if s0 != s {
      TrimKeepsSound(cfg, s, s0, l, now);
      TrimKeepsComplete(cfg, s, s0, l, now, now);
    }
    RoomMadeTrims(s0, now);
    TrimKeepsSound(cfg, s0, s1, l, now);
    TrimKeepsComplete(cfg, s0, s1, l, now, now);
    FullExactly(cfg, s0, l, now);
    if s1.Count() < MAX_RECORDS {
      ExchangeSimulates(cfg, s1, l, now, e);
    }
  }

  lemma TimePasses(cfg: Config, s: Store, l: Ledger, clock: Instant, now: Instant)
    requires Simulates(cfg, s, l, clock) && clock <= now
    ensures Simulates(cfg, s, l, now)
  {
    MintedByLater(cfg, l, clock, now);
    TrimKeepsComplete(cfg, s, s, l, clock, now);
  }

  /** The simulation: a call of the store is answered as the ledger answers it, and the store goes
      on standing for the ledger with the new facts written down. */
  lemma StepSimulates(cfg: Config, s: Store, l: Ledger, clock: Instant, now: Instant, e: Event)
    requires InjectiveHash(cfg) && Simulates(cfg, s, l, clock) && clock <= now
    requires DrawsFresh(l, e) && Unforged(cfg, l, e)
    ensures var (s', a) := Step(cfg, s, now, e);
            && Allows(cfg, l, now, e, a)
            && Simulates(cfg, s', Recorded(cfg, l, now, e, a), now)
  {
    hide Sound, WellFormed, InjectiveHash, Complete, MintedBy, Step, Recorded, Allows;
    TimePasses(cfg, s, l, clock, now);
    StepKeepsSound(cfg, s, l, now, e);
    match e
    case Login(_, _, _) => LoginSimulates(cfg, s, l, now, e);
    case Refresh(_, _, _) => RefreshSimulates(cfg, s, l, now, e);
    case Revoke(_) => RevokeSimulates(cfg, s, l, now, e);
    case Verify(_) => VerifySimulates(cfg, s, l, now, e);
  }
}
