/** Whole runs of the token service: any calls by any clients, in any order. */
module TokenRuns {
  import opened Text
  import opened AccessToken
  import opened TokenStore
  import opened Ledger
  import opened Simulation

  datatype Call = Call(now: Instant, event: Event)

  /** The service's state, and beside it the ledger of everything that ever happened. */
  datatype World = World(store: Store, ledger: Ledger, clock: Instant)

  /** The world after `calls`, for a service built at `start`. */
  function After(cfg: Config, start: Instant, calls: seq<Call>): World {
    if calls == [] then World(EmptyStore(start), EMPTY, start)
    else
      var w, c := After(cfg, start, calls[..|calls| - 1]), calls[|calls| - 1];
      var (s, a) := Step(cfg, w.store, c.now, c.event);
      World(s, Recorded(cfg, w.ledger, c.now, c.event, a), c.now)
  }

  /** The world in which call `i` finds the service. */
  function At(cfg: Config, start: Instant, calls: seq<Call>, i: nat): World
    requires i <= |calls|
  {
    After(cfg, start, calls[..i])
  }

  function AnswerAt(cfg: Config, start: Instant, calls: seq<Call>, i: nat): Answer
    requires i < |calls|
  {
    Step(cfg, At(cfg, start, calls, i).store, calls[i].now, calls[i].event).1
  }

  /** Hashing is injective and random draws do not repeat. Nothing is said about the clock. */
  ghost predicate Run(cfg: Config, start: Instant, calls: seq<Call>) {
    && InjectiveHash(cfg)
    && forall i :: 0 <= i < |calls| ==> DrawsFresh(At(cfg, start, calls, i).ledger, calls[i].event)
  }

  /** Besides, the clock does not run backwards and tags are not forged. */
  ghost predicate TimedRun(cfg: Config, start: Instant, calls: seq<Call>) {
    && Run(cfg, start, calls)
    && forall i :: 0 <= i < |calls| ==>
         && At(cfg, start, calls, i).clock <= calls[i].now
         && Unforged(cfg, At(cfg, start, calls, i).ledger, calls[i].event)
  }

  lemma RunOfTimed(cfg: Config, start: Instant, calls: seq<Call>)
    requires TimedRun(cfg, start, calls)
    ensures Run(cfg, start, calls)
  {
  }

  lemma AtNext(cfg: Config, start: Instant, calls: seq<Call>, i: nat)
    requires i < |calls|
    ensures var w, c := At(cfg, start, calls, i), calls[i];
            var (s, a) := Step(cfg, w.store, c.now, c.event);
            && a == AnswerAt(cfg, start, calls, i)
            && At(cfg, start, calls, i + 1)
               == World(s, Recorded(cfg, w.ledger, c.now, c.event, a), c.now)
  {
    assert calls[..i + 1][..i] == calls[..i];
  }

  // ----- every reachable state ----------------------------------------------------------------

  lemma {:induction false} ReachableInvariant(cfg: Config, start: Instant, calls: seq<Call>, i: nat)
    requires Run(cfg, start, calls) && i <= |calls|
    ensures Invariant(cfg, At(cfg, start, calls, i).store, At(cfg, start, calls, i).ledger)
  {
    if i > 0 {
      ReachableInvariant(cfg, start, calls, i - 1);
      AtNext(cfg, start, calls, i - 1);
      var w, c := At(cfg, start, calls, i - 1), calls[i - 1];
      StepKeepsSound(cfg, w.store, w.ledger, c.now, c.event);
    }
  }

  lemma {:induction false} ReachableSimulates(cfg: Config, start: Instant, calls: seq<Call>, i: nat)
    requires TimedRun(cfg, start, calls) && i <= |calls|
    ensures var w := At(cfg, start, calls, i); Simulates(cfg, w.store, w.ledger, w.clock)
  {
    if i > 0 {
      ReachableSimulates(cfg, start, calls, i - 1);
      AtNext(cfg, start, calls, i - 1);
      var w, c := At(cfg, start, calls, i - 1), calls[i - 1];
      StepSimulates(cfg, w.store, w.ledger, w.clock, c.now, c.event);
    }
  }

  /** Forgetting is invisible. In every run, every call gets the answer of a ledger that never
      deletes anything. The one exception is the revocation of an expired token, whose answer the
      ledger leaves open. */
  lemma ForgettingIsInvisible(cfg: Config, start: Instant, calls: seq<Call>, i: nat)
    requires TimedRun(cfg, start, calls) && i < |calls|
    ensures Allows(cfg, At(cfg, start, calls, i).ledger, calls[i].now, calls[i].event,
                   AnswerAt(cfg, start, calls, i))
  {
    ReachableSimulates(cfg, start, calls, i);
    var w, c := At(cfg, start, calls, i), calls[i];
    StepSimulates(cfg, w.store, w.ledger, w.clock, c.now, c.event);
  }

  /** The refresh tokens that are remembered, live and spent, are bounded in every run, with no
      assumption at all. Revoked logins are not among them; `RevokedList` is about those. */
  lemma {:induction false} BoundedStore(cfg: Config, start: Instant, calls: seq<Call>)
    ensures After(cfg, start, calls).store.Count() <= MAX_RECORDS
  {
    if calls != [] {
      BoundedStore(cfg, start, calls[..|calls| - 1]);
      var w, c := After(cfg, start, calls[..|calls| - 1]), calls[|calls| - 1];
      StepKeepsBound(cfg, w.store, c.now, c.event);
    }
  }

  /** Families are linear: a login never has two live refresh tokens, the live one is the last it
      was given, live and rotated tokens are told apart, every record names the user who logged in,
      and every live record carries the deadline set at the login. */
  lemma LinearFamilies(cfg: Config, start: Instant, calls: seq<Call>, i: nat)
    requires Run(cfg, start, calls) && i <= |calls|
    ensures var w := At(cfg, start, calls, i); var (s, l) := (w.store, w.ledger);
            && s.refresh.Keys !! s.spent.Keys
            && (forall h, k :: h in s.refresh && k in s.refresh ==>
                  s.refresh[h].family == s.refresh[k].family ==> h == k)
            && (forall h :: h in s.refresh ==> IsLatest(cfg, l, h, s.refresh[h]))
            && (forall h :: h in s.spent ==>
                  s.spent[h].family in l.logins && s.spent[h].user == l.logins[s.spent[h].family].user)
  {
    hide Invariant, IsLatest;
    ReachableInvariant(cfg, start, calls, i);
    var w := At(cfg, start, calls, i);
    var s, l := w.store, w.ledger;
    DisjointInInvariant(cfg, s, l);
    forall h | h in s.refresh ensures IsLatest(cfg, l, h, s.refresh[h]) {
      LiveIsLatest(cfg, s, l, h);
    }
    forall h, k | h in s.refresh && k in s.refresh && s.refresh[h].family == s.refresh[k].family
      ensures h == k
    {
      LatestIsOne(cfg, l, h, s.refresh[h], k, s.refresh[k]);
    }
    forall h | h in s.spent
      ensures s.spent[h].family in l.logins && s.spent[h].user == l.logins[s.spent[h].family].user
    {
      SpentIsNamed(cfg, s, l, h);
    }
  }

  lemma DisjointInInvariant(cfg: Config, s: Store, l: Ledger)
    requires Invariant(cfg, s, l)
    ensures s.refresh.Keys !! s.spent.Keys
  {
    hide Sound, WellFormed, InjectiveHash;
    KeysAreDisjoint(cfg, s, l);
  }

  lemma LatestIsOne(cfg: Config, l: Ledger, h: Hash, a: RefreshRecord, k: Hash, b: RefreshRecord)
    requires IsLatest(cfg, l, h, a) && IsLatest(cfg, l, k, b) && a.family == b.family
    ensures h == k
  {
  }

  /** A key of the store is the hash of a token that was handed out. */
  lemma KeyOfToken(cfg: Config, s: Store, l: Ledger, h: Hash) returns (t: string)
    requires Sound(cfg, s, l) && (h in s.refresh || h in s.spent)
    ensures t in l.issued && cfg.hash(t) == h
  {
    assert h in Hashes(cfg, l.issued.Keys);
    t :| t in l.issued && cfg.hash(t) == h;
  }

  lemma LiveIsLatest(cfg: Config, s: Store, l: Ledger, h: Hash)
    requires Invariant(cfg, s, l) && h in s.refresh
    ensures IsLatest(cfg, l, h, s.refresh[h])
  {
    hide Sound, WellFormed, InjectiveHash;
    var t := KeyOfToken(cfg, s, l, h);
    LiveIsSound(cfg, s, l, t);
    ActiveIsLast(cfg, l, t);
    GrantInTime(cfg, l, t);
  }

  lemma SpentIsNamed(cfg: Config, s: Store, l: Ledger, h: Hash)
    requires Invariant(cfg, s, l) && h in s.spent
    ensures s.spent[h].family in l.logins && s.spent[h].user == l.logins[s.spent[h].family].user
  {
    hide Sound, WellFormed, InjectiveHash;
    var t := KeyOfToken(cfg, s, l, h);
    SpentIsSound(cfg, s, l, t);
  }

  /** `record`, filed under `h`, is that of the newest token of its login. */
  predicate IsLatest(cfg: Config, l: Ledger, h: Hash, record: RefreshRecord) {
    && record.family in l.logins
    && var family := l.logins[record.family];
    && family.chain != []
    && h == cfg.hash(family.chain[|family.chain| - 1])
    && record.user == family.user
    && record.familyDeadline == family.Deadline()
    && record.expires <= record.familyDeadline
    && record.family !in l.dead
  }

  // ----- longer runs ---------------------------------------------------------------------------

  lemma NoCalls(cfg: Config, start: Instant)
    requires InjectiveHash(cfg)
    ensures TimedRun(cfg, start, [])
  {
  }

  lemma AfterOneMore(cfg: Config, start: Instant, calls: seq<Call>, c: Call)
    ensures var w := After(cfg, start, calls);
            var (s, a) := Step(cfg, w.store, c.now, c.event);
            && After(cfg, start, calls + [c])
               == World(s, Recorded(cfg, w.ledger, c.now, c.event, a), c.now)
            && AnswerAt(cfg, start, calls + [c], |calls|) == a
  {
    hide Step, Recorded;
    assert (calls + [c])[..|calls|] == calls;
  }

  /** What makes one more call fair: the clock went on, draws are fresh, tags are not forged. */
  ghost predicate FairCall(cfg: Config, start: Instant, calls: seq<Call>, now: Instant,
                           e: Option<Event>) {
    var w := After(cfg, start, calls);
    w.clock <= now && (e.Some? ==> DrawsFresh(w.ledger, e.value) && Unforged(cfg, w.ledger, e.value))
  }

  lemma RunExtends(cfg: Config, start: Instant, calls: seq<Call>, c: Call)
    requires TimedRun(cfg, start, calls) && FairCall(cfg, start, calls, c.now, Some(c.event))
    ensures TimedRun(cfg, start, calls + [c])
  {
    var more := calls + [c];
    forall i | 0 <= i < |more|
      ensures At(cfg, start, more, i).clock <= more[i].now
      ensures DrawsFresh(At(cfg, start, more, i).ledger, more[i].event)
      ensures Unforged(cfg, At(cfg, start, more, i).ledger, more[i].event)
    {
      if i < |calls| {
        assert more[..i] == calls[..i];
        assert At(cfg, start, more, i) == At(cfg, start, calls, i);
      } else {
        assert more[..i] == calls;
      }
    }
  }

  // ----- facts are never taken back -----------------------------------------------------------

  predicate Grows(l: Ledger, l': Ledger) {
    && (forall t :: t in l.issued ==> t in l'.issued && l'.issued[t] == l.issued[t])
    && l.used <= l'.used && l.dropped <= l'.dropped
    && l.dead <= l'.dead && l.minted <= l'.minted
    && (forall f :: f in l.logins ==>
          && f in l'.logins && l'.logins[f].user == l.logins[f].user
          && l'.logins[f].at == l.logins[f].at && l.logins[f].chain <= l'.logins[f].chain)
  }

  lemma RecordedGrows(cfg: Config, l: Ledger, now: Instant, e: Event, a: Answer)
    requires DrawsFresh(l, e)
    ensures Grows(l, Recorded(cfg, l, now, e, a))
  {
  }

  lemma {:induction false} FactsStay(cfg: Config, start: Instant, calls: seq<Call>, i: nat, j: nat)
    requires Run(cfg, start, calls) && i <= j <= |calls|
    ensures Grows(At(cfg, start, calls, i).ledger, At(cfg, start, calls, j).ledger)
  {
    if i < j {
      FactsStay(cfg, start, calls, i, j - 1);
      AtNext(cfg, start, calls, j - 1);
      var w, c := At(cfg, start, calls, j - 1), calls[j - 1];
      RecordedGrows(cfg, w.ledger, c.now, c.event, AnswerAt(cfg, start, calls, j - 1));
    }
  }

  // ----- single use ---------------------------------------------------------------------------

  /** The presented token was retired: for a new pair, or for nothing when the random source failed
      after the old token was already spent. */
  predicate Exchanged(a: Answer) {
    a.Granted? || a == Refused(Random)
  }

  /** A used token, or one of a revoked login, is never exchanged, whatever the clock says. */
  lemma InactiveIsNotExchanged(cfg: Config, s: Store, l: Ledger, now: Instant, e: Event)
    requires Invariant(cfg, s, l) && e.Refresh? && !l.Active(e.token)
    ensures !Exchanged(Step(cfg, s, now, e).1)
  {
    hide Sound, WellFormed, InjectiveHash, Trimmed, ForceSwept, Tokens;
    var s1 := RoomMade(Swept(s, now), now);
    SweptAndRoomMadeTrims(s, now);
    TrimKeepsSound(cfg, s, s1, l, now);
    if cfg.hash(e.token) in s1.refresh {
      LiveIsSound(cfg, s1, l, e.token);
    }
  }

  lemma GrantedNeedsDraw(cfg: Config, s: Store, now: Instant, e: Event)
    requires Step(cfg, s, now, e).1.Granted?
    ensures (e.Login? && e.family.Some? && e.drawn.Some?) || (e.Refresh? && e.drawn.Some?)
  {
  }

  /** What an exchange proves about the token that was presented. */
  lemma ExchangedWasActive(cfg: Config, start: Instant, calls: seq<Call>, i: nat)
    requires Run(cfg, start, calls) && i < |calls|
    requires calls[i].event.Refresh? && Exchanged(AnswerAt(cfg, start, calls, i))
    ensures var l, t := At(cfg, start, calls, i).ledger, calls[i].event.token;
            l.Active(t) && l.issued[t].family in l.logins
    ensures calls[i].event.token in At(cfg, start, calls, i + 1).ledger.used
  {
    hide Step, Sound, WellFormed, InjectiveHash;
    ReachableInvariant(cfg, start, calls, i);
    AtNext(cfg, start, calls, i);
    var w, c := At(cfg, start, calls, i), calls[i];
    if !w.ledger.Active(c.event.token) {
      InactiveIsNotExchanged(cfg, w.store, w.ledger, c.now, c.event);
      assert false;
    }
    ActiveIsLast(cfg, w.ledger, c.event.token);
    if AnswerAt(cfg, start, calls, i).Granted? {
      GrantedNeedsDraw(cfg, w.store, c.now, c.event);
    }
  }

  /** No refresh token is exchanged twice. No assumption on the clock. */
  lemma SingleUse(cfg: Config, start: Instant, calls: seq<Call>, i: nat, j: nat)
    requires Run(cfg, start, calls) && i < j < |calls|
    requires calls[i].event.Refresh? && calls[j].event.Refresh?
    requires calls[i].event.token == calls[j].event.token
    requires Exchanged(AnswerAt(cfg, start, calls, i))
    ensures !Exchanged(AnswerAt(cfg, start, calls, j))
  {
    ExchangedWasActive(cfg, start, calls, i);
    FactsStay(cfg, start, calls, i + 1, j);
    ReachableInvariant(cfg, start, calls, j);
    var w := At(cfg, start, calls, j);
    InactiveIsNotExchanged(cfg, w.store, w.ledger, calls[j].now, calls[j].event);
  }

  /** Reuse is noticed exactly in time. A retired token that comes back before it would have expired
      names its user and revokes the login; one that comes back later is taken for an unknown one and
      revokes nothing, even while its successor lives. Either may find the store full instead. Whatever
      sweeps and other calls lie in between makes no difference. That includes the retry of a client
      whose refresh failed for want of random numbers: its token was spent all the same. */
  lemma ReuseIsDetected(cfg: Config, start: Instant, calls: seq<Call>, i: nat, j: nat)
    requires TimedRun(cfg, start, calls) && i < j < |calls|
    requires calls[i].event.Refresh? && calls[j].event.Refresh?
    requires calls[i].event.token == calls[j].event.token
    requires Exchanged(AnswerAt(cfg, start, calls, i))
    ensures At(cfg, start, calls, i).ledger.Active(calls[i].event.token)
    ensures var l, t := At(cfg, start, calls, i).ledger, calls[i].event.token;
            var f, a := l.issued[t].family, AnswerAt(cfg, start, calls, j);
            var dead, dead' := At(cfg, start, calls, j).ledger.dead, At(cfg, start, calls, j + 1).ledger.dead;
            || (a == Refused(Full) && dead' == dead)
            || (a == Refused(Reused(l.UserOf(f))) && dead' == dead + {f} && l.Fresh(t, calls[j].now))
            || (a == Refused(Invalid) && dead' == dead && !l.Fresh(t, calls[j].now))
  {
    hide Step, Sound, InjectiveHash, Allows, Recorded, WellFormed, TimedRun, Run, At, Exchanged, Grows;
    RunOfTimed(cfg, start, calls);
    ExchangedWasActive(cfg, start, calls, i);
    FactsStay(cfg, start, calls, i, j);
    FactsStay(cfg, start, calls, i + 1, j);
    UsedStays(At(cfg, start, calls, i + 1).ledger, At(cfg, start, calls, j).ledger);
    ReachableInvariant(cfg, start, calls, j);
    ForgettingIsInvisible(cfg, start, calls, j);
    NextLedger(cfg, start, calls, j);
    UsedIsAnswered(cfg, At(cfg, start, calls, i).ledger, At(cfg, start, calls, j).ledger, calls[j].now,
                   calls[j].event, AnswerAt(cfg, start, calls, j));
  }

  lemma UsedStays(l: Ledger, l': Ledger)
    requires Grows(l, l')
    ensures l.used <= l'.used
  {
  }

  lemma NextLedger(cfg: Config, start: Instant, calls: seq<Call>, j: nat)
    requires j < |calls|
    ensures At(cfg, start, calls, j + 1).ledger
            == Recorded(cfg, At(cfg, start, calls, j).ledger, calls[j].now, calls[j].event,
                        AnswerAt(cfg, start, calls, j))
  {
    hide Step, Recorded;
    AtNext(cfg, start, calls, j);
  }

  /** What the ledger answers and records when a used token is presented. */
  lemma UsedIsAnswered(cfg: Config, before: Ledger, l: Ledger, now: Instant, e: Event, a: Answer)
    requires WellFormed(cfg, l) && Allows(cfg, l, now, e, a) && e.Refresh? && e.token in l.used
    requires Grows(before, l) && e.token in before.issued
    requires before.issued[e.token].family in before.logins
    ensures var t, dead' := e.token, Recorded(cfg, l, now, e, a).dead;
            var f := before.issued[t].family;
            || (a == Refused(Full) && dead' == l.dead)
            || (a == Refused(Reused(before.UserOf(f))) && dead' == l.dead + {f} && before.Fresh(t, now))
            || (a == Refused(Invalid) && dead' == l.dead && !before.Fresh(t, now))
  {
    hide Tokens;
    GrantInTime(cfg, l, e.token);
  }

  /** A token presented while its user was missing is gone, even when the user comes back: it is not
      remembered as spent, so presenting it again is no reuse, and the login is not revoked by it. */
  lemma DroppedForGood(cfg: Config, start: Instant, calls: seq<Call>, i: nat, j: nat)
    requires TimedRun(cfg, start, calls) && i < j < |calls|
    requires calls[i].event.Refresh? && calls[j].event.Refresh?
    requires calls[i].event.token == calls[j].event.token
    requires var l, t := At(cfg, start, calls, i).ledger, calls[i].event.token;
             && l.Active(t) && l.Fresh(t, calls[i].now)
             && AnswerAt(cfg, start, calls, i) == Refused(Invalid)
    ensures var a := AnswerAt(cfg, start, calls, j);
            a == Refused(Invalid) || a == Refused(Full)
    ensures At(cfg, start, calls, j + 1).ledger.dead == At(cfg, start, calls, j).ledger.dead
  {
    hide Step, Sound, WellFormed, InjectiveHash, Expected, Recorded;
    ReachableInvariant(cfg, start, calls, i);
    ReachableInvariant(cfg, start, calls, j);
    AtNext(cfg, start, calls, i);
    AtNext(cfg, start, calls, j);
    DropIsRecorded(cfg, At(cfg, start, calls, i).ledger, calls[i].now, calls[i].event);
    FactsStay(cfg, start, calls, i + 1, j);
    ForgettingIsInvisible(cfg, start, calls, j);
    DroppedIsInvalid(cfg, At(cfg, start, calls, j).ledger, calls[j].now, calls[j].event);
  }

  lemma DropIsRecorded(cfg: Config, l: Ledger, now: Instant, e: Event)
    requires WellFormed(cfg, l) && e.Refresh? && l.Active(e.token) && l.Fresh(e.token, now)
    ensures e.token in Recorded(cfg, l, now, e, Refused(Invalid)).dropped
  {
    GrantInTime(cfg, l, e.token);
  }

  lemma DroppedIsInvalid(cfg: Config, l: Ledger, now: Instant, e: Event)
    requires WellFormed(cfg, l) && e.Refresh? && e.token in l.dropped
    ensures var a := Expected(cfg, l, now, e);
            && (a == Refused(Invalid) || a == Refused(Full))
            && Recorded(cfg, l, now, e, a).dead == l.dead
  {
    hide Tokens;
  }

  // ----- what a presentation costs ------------------------------------------------------------

  /** Only presenting a live token in time ends it, unless the store was full; or revoking its
      login. */
  lemma PresentationSpends(cfg: Config, l: Ledger, now: Instant, e: Event, a: Answer, t: string)
    requires WellFormed(cfg, l) && DrawsFresh(l, e) && Allows(cfg, l, now, e, a) && l.Active(t)
    ensures var l' := Recorded(cfg, l, now, e, a);
            && t in l'.issued && l'.issued[t] == l.issued[t]
            && (l'.Active(t) <==>
                  (l.issued[t].family !in l'.dead
                   && !(e.Refresh? && e.token == t && l.Fresh(t, now) && a != Refused(Full))))
  {
    hide Tokens;
  }

  /** Without a new pair, a refresh of a live, unexpired token of a configured user leaves the token
      live if and only if the store was full. The only other way to fail is for want of random
      numbers, and then the token is spent all the same. */
  lemma UngrantedSpends(cfg: Config, start: Instant, calls: seq<Call>, i: nat)
    requires TimedRun(cfg, start, calls) && i < |calls| && calls[i].event.Refresh?
    requires var l, e := At(cfg, start, calls, i).ledger, calls[i].event;
             && l.Active(e.token) && l.Fresh(e.token, calls[i].now)
             && e.userExists(l.UserOf(l.issued[e.token].family))
    requires !AnswerAt(cfg, start, calls, i).Granted?
    ensures var a, t := AnswerAt(cfg, start, calls, i), calls[i].event.token;
            && (a == Refused(Full) || (a == Refused(Random) && calls[i].event.drawn.None?))
            && (At(cfg, start, calls, i + 1).ledger.Active(t) <==> a == Refused(Full))
            && (cfg.hash(t) in At(cfg, start, calls, i + 1).store.refresh <==> a == Refused(Full))
  {
    hide Step, Sound, InjectiveHash, Complete, MintedBy;
    ReachableSimulates(cfg, start, calls, i);
    ForgettingIsInvisible(cfg, start, calls, i);
    AtNext(cfg, start, calls, i);
    ReachableSimulates(cfg, start, calls, i + 1);
    var w, c, a := At(cfg, start, calls, i), calls[i], AnswerAt(cfg, start, calls, i);
    UngrantedAnswer(cfg, w.ledger, c.now, c.event, a);
    PresentationSpends(cfg, w.ledger, c.now, c.event, a, c.event.token);
    LiveExactly(cfg, At(cfg, start, calls, i + 1), c.event.token);
  }

  lemma UngrantedAnswer(cfg: Config, l: Ledger, now: Instant, e: Event, a: Answer)
    requires WellFormed(cfg, l) && Allows(cfg, l, now, e, a) && !a.Granted?
    requires e.Refresh? && l.Active(e.token) && l.Fresh(e.token, now)
    requires e.userExists(l.UserOf(l.issued[e.token].family))
    ensures a == Refused(Full) || (a == Refused(Random) && e.drawn.None?)
    ensures Recorded(cfg, l, now, e, a).dead == l.dead
  {
    hide Tokens;
    GrantInTime(cfg, l, e.token);
  }

  /** An unexpired token is on file as live exactly when the ledger says so. */
  lemma LiveExactly(cfg: Config, w: World, t: string)
    requires Simulates(cfg, w.store, w.ledger, w.clock) && w.ledger.Fresh(t, w.clock)
    ensures cfg.hash(t) in w.store.refresh <==> w.ledger.Active(t)
  {
    if cfg.hash(t) in w.store.refresh {
      LiveIsSound(cfg, w.store, w.ledger, t);
    }
  }

  /** Such a run: the client's retry is taken for reuse, and its login is revoked. */
  lemma FailedDrawThenReuse(cfg: Config, f: u64, user: string, mine: string, anybody: string -> bool,
                            first: Instant, retry: Instant)
    requires InjectiveHash(cfg) && anybody(user)
    requires first <= retry < cfg.refreshTtl && retry < MAX_FAMILY_LIFETIME
    ensures var calls := [Call(0, Login(user, Some(f), Some(mine))),
                          Call(first, Refresh(mine, anybody, None)),
                          Call(retry, Refresh(mine, anybody, None))];
            && TimedRun(cfg, 0, calls)
            && AnswerAt(cfg, 0, calls, 0).Granted?
            && AnswerAt(cfg, 0, calls, 1) == Refused(Random)
            && AnswerAt(cfg, 0, calls, 2) == Refused(Reused(user))
  {
    hide Step, InjectiveHash, Recorded;
    var login := Call(0, Login(user, Some(f), Some(mine)));
    var fails := Call(first, Refresh(mine, anybody, None));
    var again := Call(retry, Refresh(mine, anybody, None));
    var c1, c2 := [login], [login, fails];
    FirstLogin(cfg, f, user, mine);
    FirstRefreshFails(cfg, f, user, mine, anybody, first, retry);
    NoCalls(cfg, 0);
    assert [] + [login] == c1 && c1 + [fails] == c2 && c2 + [again] == [login, fails, again];
    FirstDrawIsFresh(cfg, login);
    RunExtends(cfg, 0, [], login);
    AfterOneMore(cfg, 0, [], login);
    RunExtends(cfg, 0, c1, fails);
    AfterOneMore(cfg, 0, c1, fails);
    RunExtends(cfg, 0, c2, again);
    AfterOneMore(cfg, 0, c2, again);
    assert [login, fails, again][..1] == c1 && [login, fails, again][..2] == c2;
    assert c1[..0] == [] && c2[..1] == c1 && c1[..1] == c1;
    assert [login, fails, again][..0] == [];
  }

  /** The store after a first login at time 0. */
  function Started(cfg: Config, f: u64, user: string, mine: string): Store {
    Store(map[cfg.hash(mine) := RefreshRecord(f, user, cfg.RefreshExpiry(0, MAX_FAMILY_LIFETIME),
                                              MAX_FAMILY_LIFETIME)],
          map[], map[], SWEEP_INTERVAL)
  }

  lemma FirstLogin(cfg: Config, f: u64, user: string, mine: string)
    ensures After(cfg, 0, []) == World(EmptyStore(0), EMPTY, 0)
    ensures var (s, a) := Step(cfg, EmptyStore(0), 0, Login(user, Some(f), Some(mine)));
            && s == Started(cfg, f, user, mine)
            && a.Granted? && a.user == user && a.tokens.refreshToken == mine
  {
  }

  lemma FirstFacts(cfg: Config, f: u64, user: string, mine: string)
    ensures var w := After(cfg, 0, [Call(0, Login(user, Some(f), Some(mine)))]);
            w.store == Started(cfg, f, user, mine) && w.clock == 0 && w.ledger.issued.Keys == {mine}
  {
    hide Step, Tokens;
    var login := Call(0, Login(user, Some(f), Some(mine)));
    FirstLogin(cfg, f, user, mine);
    AfterOneMore(cfg, 0, [], login);
    assert [] + [login] == [login];
  }

  lemma FirstRefresh(cfg: Config, f: u64, user: string, mine: string, known: string -> bool,
                     next: string, back: Instant)
    requires known(user) && back < cfg.refreshTtl && back < MAX_FAMILY_LIFETIME
    ensures var a := Step(cfg, Started(cfg, f, user, mine), back, Refresh(mine, known, Some(next))).1;
            a.Granted? && a.user == user
  {
    hide Tokens, ForceSwept, RoomMade, Swept;
    SweptOf(Started(cfg, f, user, mine), back);
  }

  lemma FirstDrawIsFresh(cfg: Config, c: Call)
    requires c.event.Login?
    ensures FairCall(cfg, 0, [], c.now, Some(c.event))
  {
  }

  lemma FirstRefreshFails(cfg: Config, f: u64, user: string, mine: string, anybody: string -> bool,
                          first: Instant, retry: Instant)
    requires first <= retry < cfg.refreshTtl && retry < MAX_FAMILY_LIFETIME && anybody(user)
    ensures var (s, a) := Step(cfg, Started(cfg, f, user, mine), first, Refresh(mine, anybody, None));
            && a == Refused(Random)
            && Step(cfg, s, retry, Refresh(mine, anybody, None)).1 == Refused(Reused(user))
  {
    hide ForceSwept, FamilyRevoked, RoomMade, Swept;
    var s0, h := Started(cfg, f, user, mine), cfg.hash(mine);
    SweptOf(s0, first);
    var s1 := RoomMade(Swept(s0, first), first);
    assert s1.refresh == s0.refresh && s1.spent == map[];
    var s2 := Step(cfg, s0, first, Refresh(mine, anybody, None)).0;
    assert s2.refresh == map[] && s2.spent == map[h := SpentRecord(f, user, s0.refresh[h].expires)];
    SweptOf(s2, retry);
  }

  /** A store that is far from full and has nothing out of date keeps everything. */
  lemma SweptOf(s: Store, now: Instant)
    requires |s.refresh| + |s.spent| < MAX_RECORDS
    requires forall h :: h in s.refresh ==> now < s.refresh[h].expires && now < s.refresh[h].familyDeadline
    requires forall h :: h in s.spent ==> now < s.spent[h].expires
    ensures var s1 := RoomMade(Swept(s, now), now); s1.refresh == s.refresh && s1.spent == s.spent
  {
    assert ForceSwept(s, now).refresh == s.refresh && ForceSwept(s, now).spent == s.spent;
  }

  /** The store after that login and a first refresh. */
  function Rotated(cfg: Config, f: u64, user: string, mine: string, next: string, first: Instant,
                   nextSweep: Instant): Store {
    Store(map[cfg.hash(next) := RefreshRecord(f, user, cfg.RefreshExpiry(first, MAX_FAMILY_LIFETIME),
                                              MAX_FAMILY_LIFETIME)],
          map[cfg.hash(mine) := SpentRecord(f, user, cfg.RefreshExpiry(0, MAX_FAMILY_LIFETIME))],
          map[], nextSweep)
  }

  lemma RotateFirst(cfg: Config, f: u64, user: string, mine: string, next: string,
                    anybody: string -> bool, first: Instant) returns (nextSweep: Instant)
    requires InjectiveHash(cfg) && mine != next && anybody(user)
    requires first < cfg.refreshTtl && first < MAX_FAMILY_LIFETIME
    ensures var (s, a) := Step(cfg, Started(cfg, f, user, mine), first, Refresh(mine, anybody, Some(next)));
            a.Granted? && s == Rotated(cfg, f, user, mine, next, first, nextSweep)
  {
    hide ForceSwept, RoomMade, Swept, Tokens;
    var s0 := Started(cfg, f, user, mine);
    SweptOf(s0, first);
    NothingRevokedYet(s0, first);
    nextSweep := RoomMade(Swept(s0, first), first).nextSweep;
  }

  lemma NothingRevokedYet(s: Store, now: Instant)
    requires s.revoked == map[]
    ensures RoomMade(Swept(s, now), now).revoked == map[]
  {
  }

  /** The spent token has expired, the live one has not. */
  lemma LateReuse(cfg: Config, s: Store, mine: string, next: string, third: string,
                  anybody: string -> bool, late: Instant)
    requires InjectiveHash(cfg) && mine != next
    requires s.refresh.Keys == {cfg.hash(next)} && s.spent.Keys == {cfg.hash(mine)}
    requires var r := s.refresh[cfg.hash(next)];
             late < r.expires && late < r.familyDeadline && anybody(r.user)
    requires s.spent[cfg.hash(mine)].expires <= late
    ensures var (s1, a1) := Step(cfg, s, late, Refresh(mine, anybody, None));
            var a2 := Step(cfg, s1, late, Refresh(next, anybody, Some(third))).1;
            a1 == Refused(Invalid) && a2.Granted?
  {
    hide ForceSwept, RoomMade, Swept, Tokens, Trimmed, FamilyRevoked;
    TwoAtMost(s, late);
    var s1 := Step(cfg, s, late, Refresh(mine, anybody, None)).0;
    TwoAtMost(s1, late);
  }

  lemma TwoAtMost(s: Store, now: Instant)
    requires |s.refresh.Keys| <= 1 && |s.spent.Keys| <= 1
    ensures var s' := RoomMade(Swept(s, now), now);
            && s'.Count() <= 2 && s'.spent.Keys <= s.spent.Keys && |s'.spent.Keys| <= 1
            && (forall h :: h in s'.spent ==> s'.spent[h] == s.spent[h])
            && ((forall h :: h in s.refresh ==>
                   now < s.refresh[h].expires && now < s.refresh[h].familyDeadline)
                ==> s'.refresh == s.refresh)
  {
    hide ForceSwept;
    KeepsTwo(s, now);
    KeepsTwo(Swept(s, now), now);
  }

  lemma KeepsTwo(s: Store, now: Instant)
    requires |s.refresh.Keys| <= 1 && |s.spent.Keys| <= 1
    ensures var s' := ForceSwept(s, now);
            && s'.refresh.Keys <= s.refresh.Keys && s'.spent.Keys <= s.spent.Keys
            && |s'.refresh| <= 1 && |s'.spent| <= 1 && |s.refresh| <= 1 && |s.spent| <= 1
            && |s'.refresh.Keys| <= 1 && |s'.spent.Keys| <= 1
            && (forall h :: h in s'.spent ==> s'.spent[h] == s.spent[h])
            && ((forall h :: h in s.refresh ==>
                   now < s.refresh[h].expires && now < s.refresh[h].familyDeadline)
                ==> s'.refresh == s.refresh)
  {
    var s' := ForceSwept(s, now);
    SubsetIsSmaller(s'.refresh.Keys, s.refresh.Keys);
    SubsetIsSmaller(s'.spent.Keys, s.spent.Keys);
    assert |s'.refresh| == |s'.refresh.Keys| && |s'.spent| == |s'.spent.Keys|;
    assert |s.refresh| == |s.refresh.Keys| && |s.spent| == |s.spent.Keys|;
  }

  /** A refresh whose draw is none of the tokens so far is fair. */
  lemma OneMoreFair(cfg: Config, start: Instant, calls: seq<Call>, c: Call, tokens: set<string>)
    requires TimedRun(cfg, start, calls) && After(cfg, start, calls).ledger.issued.Keys <= tokens
    requires c.event.Refresh? || FairCall(cfg, start, calls, c.now, Some(c.event))
    requires c.event.Refresh? ==>
               After(cfg, start, calls).clock <= c.now && (c.event.drawn.Some? ==> c.event.drawn.value !in tokens)
    ensures var w := After(cfg, start, calls);
            var (s, a) := Step(cfg, w.store, c.now, c.event);
            var w' := After(cfg, start, calls + [c]);
            && TimedRun(cfg, start, calls + [c])
            && w'.store == s && w'.clock == c.now && AnswerAt(cfg, start, calls + [c], |calls|) == a
            && forall t :: t in w'.ledger.issued ==>
                 t in tokens || ((c.event.Login? || c.event.Refresh?) && c.event.drawn == Some(t))
  {
    hide TimedRun, Step, Recorded;
    RunExtends(cfg, start, calls, c);
    AfterOneMore(cfg, start, calls, c);
    var w := After(cfg, start, calls);
    RecordedIssues(cfg, w.ledger, c.now, c.event, Step(cfg, w.store, c.now, c.event).1);
  }

  lemma RecordedIssues(cfg: Config, l: Ledger, now: Instant, e: Event, a: Answer)
    ensures forall t :: t in Recorded(cfg, l, now, e, a).issued ==>
              t in l.issued || ((e.Login? || e.Refresh?) && e.drawn == Some(t))
  {
  }

  /** A run in which reuse goes unnoticed: the rotated token comes back after its own expiry, while the
      token that replaced it lives, and goes on to be exchanged. */
  lemma LateReuseIsMissed(cfg: Config, f: u64, user: string, mine: string, next: string, third: string,
                          anybody: string -> bool, first: Instant, late: Instant)
    requires InjectiveHash(cfg) && mine != next && next != third && mine != third && anybody(user)
    requires first < cfg.refreshTtl <= late < first + cfg.refreshTtl && late < MAX_FAMILY_LIFETIME
    ensures var calls := [Call(0, Login(user, Some(f), Some(mine))),
                          Call(first, Refresh(mine, anybody, Some(next))),
                          Call(late, Refresh(mine, anybody, None)),
                          Call(late, Refresh(next, anybody, Some(third)))];
            && TimedRun(cfg, 0, calls)
            && AnswerAt(cfg, 0, calls, 1).Granted?
            && AnswerAt(cfg, 0, calls, 2) == Refused(Invalid)
            && AnswerAt(cfg, 0, calls, 3).Granted?
  {
    hide Step, InjectiveHash, Recorded, Started;
    var login := Call(0, Login(user, Some(f), Some(mine)));
    var rotate := Call(first, Refresh(mine, anybody, Some(next)));
    var reuse := Call(late, Refresh(mine, anybody, None));
    var again := Call(late, Refresh(next, anybody, Some(third)));
    var c1, c2, c3 := [login], [login, rotate], [login, rotate, reuse];
    FirstLogin(cfg, f, user, mine);
    var nextSweep := RotateFirst(cfg, f, user, mine, next, anybody, first);
    LateReuse(cfg, Rotated(cfg, f, user, mine, next, first, nextSweep), mine, next, third, anybody, late);
    assert [] + [login] == c1 && c1 + [rotate] == c2 && c2 + [reuse] == c3;
    assert c3 + [again] == [login, rotate, reuse, again];
    NoCalls(cfg, 0);
    FirstDrawIsFresh(cfg, login);
    OneMoreFair(cfg, 0, [], login, {});
    OneMoreFair(cfg, 0, c1, rotate, {mine});
    OneMoreFair(cfg, 0, c2, reuse, {mine, next});
    OneMoreFair(cfg, 0, c3, again, {mine, next});
    assert [login, rotate, reuse, again][..1] == c1 && [login, rotate, reuse, again][..2] == c2;
    assert c2[..1] == c1 && c3[..2] == c2;
  }

  predicate Presented(c: Call, t: string) {
    c.event.Refresh? && c.event.token == t
  }

  lemma {:induction false} ClockForward(cfg: Config, start: Instant, calls: seq<Call>, i: nat, j: nat)
    requires TimedRun(cfg, start, calls) && i <= j < |calls|
    ensures calls[i].now <= calls[j].now
  {
    if i < j {
      ClockForward(cfg, start, calls, i, j - 1);
      AtNext(cfg, start, calls, j - 1);
    }
  }

  /** Call `k` presented `t` in time and was not refused for want of room. */
  predicate Spends(cfg: Config, start: Instant, calls: seq<Call>, k: nat, t: string)
    requires k < |calls|
  {
    && Presented(calls[k], t) && At(cfg, start, calls, k).ledger.Fresh(t, calls[k].now)
    && AnswerAt(cfg, start, calls, k) != Refused(Full)
  }

  lemma {:induction false} LiveUntilPresented(cfg: Config, start: Instant, calls: seq<Call>, i: nat,
                                              j: nat, t: string)
    requires TimedRun(cfg, start, calls) && i <= j <= |calls|
    requires var l := At(cfg, start, calls, i).ledger;
             l.Active(t) && l.issued[t].family !in At(cfg, start, calls, j).ledger.dead
    ensures var l := At(cfg, start, calls, j).ledger;
            && t in l.issued && l.issued[t] == At(cfg, start, calls, i).ledger.issued[t]
            && (l.Active(t) <==> forall k :: i <= k < j ==> !Spends(cfg, start, calls, k, t))
  {
    hide Step, Simulates, InjectiveHash, Allows, Recorded, Spends;
    if i < j {
      FactsStay(cfg, start, calls, j - 1, j);
      LiveUntilPresented(cfg, start, calls, i, j - 1, t);
      OneMoreCall(cfg, start, calls, j - 1, t);
    }
  }

  lemma OneMoreCall(cfg: Config, start: Instant, calls: seq<Call>, j: nat, t: string)
    requires TimedRun(cfg, start, calls) && j < |calls|
    ensures var l, l' := At(cfg, start, calls, j).ledger, At(cfg, start, calls, j + 1).ledger;
            && (t in l.issued ==> t in l'.issued && l'.issued[t] == l.issued[t])
            && (l'.Active(t) && t in l.issued ==> l.Active(t))
            && (l.Active(t) && l.issued[t].family !in l'.dead ==>
                  (l'.Active(t) <==> !Spends(cfg, start, calls, j, t)))
  {
    hide Step, InjectiveHash, Allows, Recorded, Sound, WellFormed, Complete, MintedBy;
    AtNext(cfg, start, calls, j);
    FactsStay(cfg, start, calls, j, j + 1);
    ReachableSimulates(cfg, start, calls, j);
    ForgettingIsInvisible(cfg, start, calls, j);
    var w, c := At(cfg, start, calls, j), calls[j];
    if w.ledger.Active(t) {
      PresentationSpends(cfg, w.ledger, c.now, c.event, AnswerAt(cfg, start, calls, j), t);
    }
  }

  /** What is asked of call `j` so that nothing but the past of its token can stand in the way: it
      presents the token in time, its user is configured and its login not revoked, and there is room
      and a random number. */
  predicate Welcome(l: Ledger, c: Call)
    requires c.event.Refresh?
  {
    && c.event.drawn.Some?
    && l.Fresh(c.event.token, c.now)
    && l.issued[c.event.token].family !in l.dead
    && c.event.userExists(l.UserOf(l.issued[c.event.token].family))
    && |l.Remembered(c.now)| < MAX_RECORDS
  }

  /** Exactly when a live token is exchanged later: if and only if each time it was presented in
      between it was refused for want of room. In particular, a user who is removed and comes back
      finds the token working, unless it was presented while they were gone. */
  lemma LiveTokenIsExchangedExactly(cfg: Config, start: Instant, calls: seq<Call>, i: nat, j: nat)
    requires TimedRun(cfg, start, calls) && i <= j < |calls|
    requires calls[j].event.Refresh? && Welcome(At(cfg, start, calls, j).ledger, calls[j])
    requires At(cfg, start, calls, i).ledger.Active(calls[j].event.token)
    ensures AnswerAt(cfg, start, calls, j).Granted? <==>
              forall k :: i <= k < j && Presented(calls[k], calls[j].event.token) ==>
                AnswerAt(cfg, start, calls, k) == Refused(Full)
  {
    hide Step, Simulates, InjectiveHash, Recorded, Welcome, Sound, WellFormed, Complete, MintedBy;
    var t := calls[j].event.token;
    FactsStay(cfg, start, calls, i, j);
    WelcomeMeans(At(cfg, start, calls, i).ledger, At(cfg, start, calls, j).ledger, calls[j]);
    LiveUntilPresented(cfg, start, calls, i, j, t);
    forall k | i <= k < j
      ensures Spends(cfg, start, calls, k, t) <==>
                Presented(calls[k], t) && AnswerAt(cfg, start, calls, k) != Refused(Full)
    {
      FactsStay(cfg, start, calls, i, k);
      ClockForward(cfg, start, calls, k, j);
    }
    ReachableInvariant(cfg, start, calls, j);
    ForgettingIsInvisible(cfg, start, calls, j);
    WelcomeIsGranted(cfg, At(cfg, start, calls, j).ledger, calls[j], AnswerAt(cfg, start, calls, j));
  }

  lemma WelcomeMeans(l: Ledger, l': Ledger, c: Call)
    requires c.event.Refresh? && Welcome(l', c) && l.Active(c.event.token) && Grows(l, l')
    ensures l.issued[c.event.token].family !in l'.dead && l'.Fresh(c.event.token, c.now)
    ensures l.Fresh(c.event.token, c.now)
  {
  }

  lemma WelcomeIsGranted(cfg: Config, l: Ledger, c: Call, a: Answer)
    requires c.event.Refresh? && WellFormed(cfg, l) && Welcome(l, c) && Allows(cfg, l, c.now, c.event, a)
    ensures a.Granted? <==> l.Active(c.event.token)
  {
    hide Tokens;
    GrantInTime(cfg, l, c.event.token);
  }

  // ----- revocation ---------------------------------------------------------------------------

  /** The call ended the login `f`: a logout that was answered with success, or a reuse. */
  predicate Ends(l: Ledger, e: Event, a: Answer, f: u64) {
    && ((e.Revoke? && a == Revoked(true)) || (e.Refresh? && a.Refused? && a.error.Reused?))
    && e.token in l.issued && l.issued[e.token].family == f
  }

  predicate RevokedAt(cfg: Config, start: Instant, calls: seq<Call>, i: nat, f: u64)
    requires i < |calls|
  {
    Ends(At(cfg, start, calls, i).ledger, calls[i].event, AnswerAt(cfg, start, calls, i), f)
  }

  lemma RevokedIsDead(cfg: Config, start: Instant, calls: seq<Call>, i: nat, f: u64)
    requires Run(cfg, start, calls) && i < |calls| && RevokedAt(cfg, start, calls, i, f)
    ensures f in At(cfg, start, calls, i + 1).ledger.dead
  {
    hide Step, Sound, InjectiveHash;
    ReachableInvariant(cfg, start, calls, i);
    AtNext(cfg, start, calls, i);
    GrantInTime(cfg, At(cfg, start, calls, i).ledger, calls[i].event.token);
  }

  /** A revoked login never gets another pair, whichever of its tokens is presented. */
  lemma RevokedNeverRefreshes(cfg: Config, start: Instant, calls: seq<Call>, i: nat, j: nat, f: u64)
    requires Run(cfg, start, calls) && i < j < |calls| && RevokedAt(cfg, start, calls, i, f)
    requires var l, e := At(cfg, start, calls, j).ledger, calls[j].event;
             e.Refresh? && e.token in l.issued && l.issued[e.token].family == f
    ensures !AnswerAt(cfg, start, calls, j).Granted?
  {
    RevokedIsDead(cfg, start, calls, i, f);
    FactsStay(cfg, start, calls, i + 1, j);
    ReachableInvariant(cfg, start, calls, j);
    var w := At(cfg, start, calls, j);
    InactiveIsNotExchanged(cfg, w.store, w.ledger, calls[j].now, calls[j].event);
  }

  /** No access token of a revoked login is accepted at any later time, even long after the store
      has forgotten the revocation. */
  lemma RevokedNeverVerifies(cfg: Config, start: Instant, calls: seq<Call>, i: nat, j: nat, f: u64)
    requires TimedRun(cfg, start, calls) && i < j < |calls| && RevokedAt(cfg, start, calls, i, f)
    requires var e := calls[j].event;
             e.Verify? && Open(cfg.sign, e.token).Some? && Open(cfg.sign, e.token).value.family == f
    ensures AnswerAt(cfg, start, calls, j) == Verified(None)
  {
    hide Step, InjectiveHash, Mint, Open;
    RevokedIsDead(cfg, start, calls, i, f);
    FactsStay(cfg, start, calls, i + 1, j);
    ForgettingIsInvisible(cfg, start, calls, j);
  }

  // ----- the honest client --------------------------------------------------------------------

  /** What the owner of login `f` promises about one call: a refresh with a token of the login
      presents the newest one, before it expires, while the user is configured and the random source
      works; and the login is not revoked. Calls about other logins are free. */
  predicate Honest(l: Ledger, f: u64, c: Call)
  {
    match c.event
    case Refresh(t, userExists, drawn) =>
      t in l.issued && l.issued[t].family == f && f in l.logins ==>
        && t == Newest(l, f) && l.Fresh(t, c.now) && userExists(l.UserOf(f)) && drawn.Some?
    case Revoke(t) => !(t in l.issued && l.issued[t].family == f)
    case _ => true
  }

  function Newest(l: Ledger, f: u64): string
    requires f in l.logins
  {
    var chain := l.logins[f].chain;
    if chain == [] then "" else chain[|chain| - 1]
  }

  predicate NewestIsActive(l: Ledger, f: u64) {
    f in l.logins && l.Active(Newest(l, f)) && l.issued[Newest(l, f)].family == f
  }

  lemma HonestStep(cfg: Config, l: Ledger, f: u64, now: Instant, e: Event, a: Answer)
    requires WellFormed(cfg, l) && DrawsFresh(l, e) && Allows(cfg, l, now, e, a)
    requires NewestIsActive(l, f) && Honest(l, f, Call(now, e))
    ensures NewestIsActive(Recorded(cfg, l, now, e, a), f)
    ensures e.Refresh? && e.token in l.issued && l.issued[e.token].family == f ==>
              a == Refused(Full) || (a.Granted? && a.user == l.UserOf(f))
  {
    hide Tokens;
  }

  /** An honest client is never logged out by others: as long as it keeps its promises from its
      login on, each of its refreshes succeeds or finds the store full, under any interleaving of
      calls by everybody else; and its newest token stays live. */
  lemma {:induction false} HonestClientStays(cfg: Config, start: Instant, calls: seq<Call>, k: nat,
                                             j: nat, f: u64)
    requires TimedRun(cfg, start, calls) && k < j <= |calls|
    requires calls[k].event.Login? && calls[k].event.family == Some(f)
    requires AnswerAt(cfg, start, calls, k).Granted?
    requires forall i :: k < i < j ==> Honest(At(cfg, start, calls, i).ledger, f, calls[i])
    ensures NewestIsActive(At(cfg, start, calls, j).ledger, f)
    ensures var l, e := At(cfg, start, calls, j - 1).ledger, calls[j - 1].event;
            e.Refresh? && e.token in l.issued && l.issued[e.token].family == f ==>
              var a := AnswerAt(cfg, start, calls, j - 1);
              a == Refused(Full) || (a.Granted? && a.user == calls[k].event.user)
  {
    hide Step, Sound, WellFormed, InjectiveHash, Complete, MintedBy, Recorded, Allows, Expected,
         NewestIsActive, Honest, Newest, TimedRun, Run, At, AnswerAt, DrawsFresh;
    RunOfTimed(cfg, start, calls);
    DrawIsFresh(cfg, start, calls, j - 1);
    ReachableInvariant(cfg, start, calls, j - 1);
    ForgettingIsInvisible(cfg, start, calls, j - 1);
    NextLedger(cfg, start, calls, j - 1);
    var w, c := At(cfg, start, calls, j - 1), calls[j - 1];
    LoginDraws(cfg, start, calls, k);
    if j == k + 1 {
      LoginStarts(cfg, w.ledger, f, c.now, c.event, AnswerAt(cfg, start, calls, k));
    } else {
      HonestClientStays(cfg, start, calls, k, j - 1, f);
      OwnerStays(cfg, start, calls, k, j - 1, f);
      HonestStep(cfg, w.ledger, f, c.now, c.event, AnswerAt(cfg, start, calls, j - 1));
    }
  }

  lemma LoginDraws(cfg: Config, start: Instant, calls: seq<Call>, k: nat)
    requires k < |calls| && calls[k].event.Login? && AnswerAt(cfg, start, calls, k).Granted?
    ensures calls[k].event.drawn.Some?
  {
    hide Step;
    GrantedNeedsDraw(cfg, At(cfg, start, calls, k).store, calls[k].now, calls[k].event);
  }

  lemma DrawIsFresh(cfg: Config, start: Instant, calls: seq<Call>, i: nat)
    requires Run(cfg, start, calls) && i < |calls|
    ensures DrawsFresh(At(cfg, start, calls, i).ledger, calls[i].event)
  {
  }

  lemma LoginStarts(cfg: Config, l: Ledger, f: u64, now: Instant, e: Event, a: Answer)
    requires WellFormed(cfg, l) && DrawsFresh(l, e)
    requires e.Login? && e.family == Some(f) && e.drawn.Some? && a.Granted?
    ensures NewestIsActive(Recorded(cfg, l, now, e, a), f)
    ensures Recorded(cfg, l, now, e, a).UserOf(f) == e.user
  {
    assert f !in l.dead;
  }

  lemma OwnerStays(cfg: Config, start: Instant, calls: seq<Call>, k: nat, j: nat, f: u64)
    requires Run(cfg, start, calls) && k < j <= |calls|
    requires calls[k].event.Login? && calls[k].event.family == Some(f)
    requires AnswerAt(cfg, start, calls, k).Granted? && calls[k].event.drawn.Some?
    ensures At(cfg, start, calls, j).ledger.UserOf(f) == calls[k].event.user
  {
    hide Step, Sound, WellFormed, InjectiveHash;
    AtNext(cfg, start, calls, k);
    FactsStay(cfg, start, calls, k + 1, j);
  }

  // ----- lifetimes ----------------------------------------------------------------------------

  /** However often it is refreshed, a login ends: every refresh token descended from it expires
      within `MAX_FAMILY_LIFETIME` of it, and every access token is refused by `access_ttl` later,
      by a service in any state. No assumption on the clock. */
  lemma LoginsEnd(cfg: Config, start: Instant, calls: seq<Call>, i: nat)
    requires Run(cfg, start, calls) && i <= |calls|
    ensures var l := At(cfg, start, calls, i).ledger;
            && (forall t :: t in l.issued ==>
                  && l.issued[t].family in l.logins
                  && l.issued[t].expires <= l.logins[l.issued[t].family].at + MAX_FAMILY_LIFETIME)
            && (forall p, s: Store, now: Instant :: p in l.minted ==>
                  && p.family in l.logins
                  && (now >= l.logins[p.family].at + MAX_FAMILY_LIFETIME + cfg.accessTtl
                      ==> VerifyAnswer(cfg, s, now, Mint(cfg.sign, p)) == None))
  {
    ReachableInvariant(cfg, start, calls, i);
    var l := At(cfg, start, calls, i).ledger;
    forall p, s: Store, now: Instant | p in l.minted
      ensures p.family in l.logins
      ensures now >= l.logins[p.family].at + MAX_FAMILY_LIFETIME + cfg.accessTtl
              ==> VerifyAnswer(cfg, s, now, Mint(cfg.sign, p)) == None
    {
      OpenMint(cfg.sign, p);
      if now >= l.logins[p.family].Deadline() + cfg.accessTtl {
        UnixMonotone(cfg, l.logins[p.family].Deadline() + cfg.accessTtl, now);
      }
    }
  }

  /** The pair of a granted answer is on file, under its user, and lives as long as it says. */
  predicate OnFile(cfg: Config, s: Store, now: Instant, a: Answer)
    requires a.Granted?
  {
    var h := cfg.hash(a.tokens.refreshToken);
    && h in s.refresh
    && s.refresh[h].user == a.user
    && now + a.tokens.refreshExpiresIn * SECOND <= s.refresh[h].expires <= s.refresh[h].familyDeadline
  }

  lemma IssueIsOnFile(cfg: Config, s: Store, family: u64, user: string, now: Instant,
                      deadline: Instant, drawn: Option<string>)
    requires now <= deadline && drawn.Some?
    ensures var (s', a) := Issue(cfg, s, family, user, now, deadline, drawn);
            a.Granted? && OnFile(cfg, s', now, a)
  {
  }

  lemma GrantedIsOnFile(cfg: Config, s: Store, now: Instant, e: Event)
    requires Step(cfg, s, now, e).1.Granted?
    ensures OnFile(cfg, Step(cfg, s, now, e).0, now, Step(cfg, s, now, e).1)
  {
    hide OnFile, Issue, ForceSwept;
    GrantedNeedsDraw(cfg, s, now, e);
    if e.Login? {
      IssueIsOnFile(cfg, RoomMade(s, now), e.family.value, e.user, now, now + MAX_FAMILY_LIFETIME,
                    e.drawn);
    } else {
      var s1, h := RoomMade(Swept(s, now), now), cfg.hash(e.token);
      var r := s1.refresh[h];
      var s2 := s1.(refresh := s1.refresh - {h},
                    spent := s1.spent[h := SpentRecord(r.family, r.user, r.expires)]);
      IssueIsOnFile(cfg, s2, r.family, r.user, now, r.familyDeadline, e.drawn);
    }
  }

  /** The lifetime reported with a refresh token never overstates what the store keeps. */
  lemma ReportedLifetimeIsKept(cfg: Config, start: Instant, calls: seq<Call>, i: nat)
    requires i < |calls| && AnswerAt(cfg, start, calls, i).Granted?
    ensures OnFile(cfg, At(cfg, start, calls, i + 1).store, calls[i].now,
                   AnswerAt(cfg, start, calls, i))
  {
    hide OnFile, Step;
    AtNext(cfg, start, calls, i);
    GrantedIsOnFile(cfg, At(cfg, start, calls, i).store, calls[i].now, calls[i].event);
  }

  // ----- access tokens ------------------------------------------------------------------------

  /** Every signed payload was handed out with a granted answer. */
  lemma {:induction false} MintedWasGranted(cfg: Config, start: Instant, calls: seq<Call>, i: nat,
                                            p: Payload) returns (k: nat)
    requires Run(cfg, start, calls) && i <= |calls| && p in At(cfg, start, calls, i).ledger.minted
    ensures k < i && AnswerAt(cfg, start, calls, k).Granted?
    ensures AnswerAt(cfg, start, calls, k).user == p.user
    ensures AnswerAt(cfg, start, calls, k).tokens.accessToken == Mint(cfg.sign, p)
  {
    AtNext(cfg, start, calls, i - 1);
    var w, c := At(cfg, start, calls, i - 1), calls[i - 1];
    if p in w.ledger.minted {
      k := MintedWasGranted(cfg, start, calls, i - 1, p);
    } else {
      k := i - 1;
      NewPayloadIsGranted(cfg, start, calls, k, p);
    }
  }

  /** A granted refresh is a pair for the login of the presented token. */
  lemma ExchangeNames(cfg: Config, s: Store, l: Ledger, now: Instant, e: Event)
    requires Invariant(cfg, s, l) && e.Refresh? && Step(cfg, s, now, e).1.Granted?
    requires l.Active(e.token) && l.issued[e.token].family in l.logins && e.drawn.Some?
    ensures var f := l.issued[e.token].family;
            Step(cfg, s, now, e).1 == Granted(l.UserOf(f),
              Tokens(cfg, f, l.UserOf(f), now, l.logins[f].Deadline(), e.drawn.value))
  {
    hide Sound, WellFormed, InjectiveHash, Trimmed, ForceSwept, Tokens;
    var s1 := RoomMade(Swept(s, now), now);
    SweptAndRoomMadeTrims(s, now);
    TrimKeepsSound(cfg, s, s1, l, now);
    if cfg.hash(e.token) in s1.refresh {
      LiveIsSound(cfg, s1, l, e.token);
    }
  }

  lemma LoginNames(cfg: Config, s: Store, now: Instant, e: Event)
    requires e.Login? && e.family.Some? && e.drawn.Some? && Step(cfg, s, now, e).1.Granted?
    ensures Step(cfg, s, now, e).1 == Granted(e.user,
              Tokens(cfg, e.family.value, e.user, now, now + MAX_FAMILY_LIFETIME, e.drawn.value))
  {
    hide Tokens, ForceSwept;
  }

  lemma NewPayloadIsGranted(cfg: Config, start: Instant, calls: seq<Call>, k: nat, p: Payload)
    requires Run(cfg, start, calls) && k < |calls|
    requires p in At(cfg, start, calls, k + 1).ledger.minted
    requires p !in At(cfg, start, calls, k).ledger.minted
    ensures AnswerAt(cfg, start, calls, k).Granted?
    ensures AnswerAt(cfg, start, calls, k).user == p.user
    ensures AnswerAt(cfg, start, calls, k).tokens.accessToken == Mint(cfg.sign, p)
  {
    hide Step, Sound, WellFormed, InjectiveHash, Mint;
    ReachableInvariant(cfg, start, calls, k);
    AtNext(cfg, start, calls, k);
    var w, c := At(cfg, start, calls, k), calls[k];
    if c.event.Refresh? {
      ExchangedWasActive(cfg, start, calls, k);
      GrantedNeedsDraw(cfg, w.store, c.now, c.event);
      ExchangeNames(cfg, w.store, w.ledger, c.now, c.event);
    } else {
      LoginNames(cfg, w.store, c.now, c.event);
    }
  }

  /** An accepted access token is, character by character, one that an earlier call handed out, and
      it stands for the user it was handed to. */
  lemma AcceptedWasHandedOut(cfg: Config, start: Instant, calls: seq<Call>, j: nat)
    returns (k: nat)
    requires TimedRun(cfg, start, calls) && j < |calls| && calls[j].event.Verify?
    requires var a := AnswerAt(cfg, start, calls, j); a.Verified? && a.who.Some?
    ensures k < j && AnswerAt(cfg, start, calls, k).Granted?
    ensures AnswerAt(cfg, start, calls, k).tokens.accessToken == calls[j].event.token
    ensures AnswerAt(cfg, start, calls, j) == Verified(Some(AnswerAt(cfg, start, calls, k).user))
  {
    ForgettingIsInvisible(cfg, start, calls, j);
    var p := Open(cfg.sign, calls[j].event.token).value;
    MintOpen(cfg.sign, calls[j].event.token);
    k := MintedWasGranted(cfg, start, calls, j, p);
  }

  lemma GrantedIsMinted(cfg: Config, start: Instant, calls: seq<Call>, k: nat) returns (p: Payload)
    requires Run(cfg, start, calls) && k < |calls| && AnswerAt(cfg, start, calls, k).Granted?
    ensures p in At(cfg, start, calls, k + 1).ledger.minted
    ensures p.user == AnswerAt(cfg, start, calls, k).user
    ensures p.expires == cfg.AccessExpiry(calls[k].now)
    ensures AnswerAt(cfg, start, calls, k).tokens.accessToken == Mint(cfg.sign, p)
  {
    hide Step, Sound, WellFormed, InjectiveHash, Mint;
    ReachableInvariant(cfg, start, calls, k);
    AtNext(cfg, start, calls, k);
    var w, c := At(cfg, start, calls, k), calls[k];
    GrantedNeedsDraw(cfg, w.store, c.now, c.event);
    if c.event.Refresh? {
      ExchangedWasActive(cfg, start, calls, k);
      ExchangeNames(cfg, w.store, w.ledger, c.now, c.event);
      var f := w.ledger.issued[c.event.token].family;
      p := Payload(f, cfg.AccessExpiry(c.now), w.ledger.logins[f].user);
    } else {
      LoginNames(cfg, w.store, c.now, c.event);
      p := Payload(c.event.family.value, cfg.AccessExpiry(c.now), c.event.user);
    }
  }

  /** An access token that was handed out is accepted, for its user, exactly until its expiry and
      exactly while its login is not revoked. */
  lemma HandedOutIsAccepted(cfg: Config, start: Instant, calls: seq<Call>, k: nat, j: nat)
    requires TimedRun(cfg, start, calls) && k < j < |calls|
    requires AnswerAt(cfg, start, calls, k).Granted?
    requires calls[j].event == Verify(AnswerAt(cfg, start, calls, k).tokens.accessToken)
    ensures Open(cfg.sign, calls[j].event.token).Some?
    ensures var f := Open(cfg.sign, calls[j].event.token).value.family;
            AnswerAt(cfg, start, calls, j) == Verified(
              if cfg.Unix(calls[j].now) < cfg.AccessExpiry(calls[k].now)
                 && f !in At(cfg, start, calls, j).ledger.dead
              then Some(AnswerAt(cfg, start, calls, k).user) else None)
  {
    hide Step, InjectiveHash, Mint, Open;
    var p := GrantedIsMinted(cfg, start, calls, k);
    OpenMint(cfg.sign, p);
    FactsStay(cfg, start, calls, k + 1, j);
    ForgettingIsInvisible(cfg, start, calls, j);
  }

  // ----- the answer that is left open ---------------------------------------------------------

  /** Revoking an expired token really is undetermined: whenever the ledger leaves it open, both
      answers are given by stores that stand for this very ledger. */
  lemma ExpiredRevocationIsOpen(cfg: Config, s: Store, l: Ledger, now: Instant, e: Event)
    returns (swept: Store, unswept: Store)
    requires InjectiveHash(cfg) && Simulates(cfg, s, l, now) && Undetermined(l, now, e)
    ensures Simulates(cfg, swept, l, now) && Step(cfg, swept, now, e).1 == Revoked(false)
    ensures Simulates(cfg, unswept, l, now) && Step(cfg, unswept, now, e).1 == Revoked(true)
  {
    var t, h := e.token, cfg.hash(e.token);
    swept := ForceSwept(s, now);
    ForceSweptTrims(s, now);
    TrimKeepsSound(cfg, s, swept, l, now);
    TrimKeepsComplete(cfg, s, swept, l, now, now);
    if h in swept.refresh {
      LiveIsSound(cfg, swept, l, t);
    } else if h in swept.spent {
      SpentIsSound(cfg, swept, l, t);
    }
    unswept := if l.Active(t) then s.(refresh := s.refresh[h := RecordOf(l, t)])
               else s.(spent := s.spent[h := SpentOf(l, t)]);
    forall u: string | cfg.hash(u) in unswept.refresh ensures LiveSound(cfg, unswept, l, u) {
      assert u == t || LiveSound(cfg, s, l, u);
    }
    forall u: string | cfg.hash(u) in unswept.spent ensures SpentSound(cfg, unswept, l, u) {
      assert u == t || SpentSound(cfg, s, l, u);
    }
  }

  /** And both answers occur in runs: a login's expired token is still taken for a logout, unless a
      stranger's refresh, with a token nobody was given, swept the store just before. */
  lemma StrangerChangesRevocation(cfg: Config, f: u64, user: string, mine: string, other: string,
                                  anybody: string -> bool, late: Instant)
    requires InjectiveHash(cfg) && mine != other
    requires late >= cfg.refreshTtl && late >= SWEEP_INTERVAL && cfg.refreshTtl <= MAX_FAMILY_LIFETIME
    ensures var login := Call(0, Login(user, Some(f), Some(mine)));
            var stranger := Call(late, Refresh(other, anybody, None));
            var logout := Call(late, Revoke(mine));
            && AnswerAt(cfg, 0, [login, logout], 1) == Revoked(true)
            && AnswerAt(cfg, 0, [login, stranger], 1) == Refused(Invalid)
            && AnswerAt(cfg, 0, [login, stranger, logout], 2) == Revoked(false)
  {
    hide Step, Recorded, InjectiveHash;
    var login := Call(0, Login(user, Some(f), Some(mine)));
    var stranger := Call(late, Refresh(other, anybody, None));
    var logout := Call(late, Revoke(mine));
    var c1, c2 := [login], [login, stranger];
    FirstLogin(cfg, f, user, mine);
    LogoutOfExpired(cfg, f, user, mine, other, anybody, late);
    assert [] + [login] == c1 && c1 + [logout] == [login, logout];
    assert c1 + [stranger] == c2 && c2 + [logout] == [login, stranger, logout];
    AfterOneMore(cfg, 0, [], login);
    AfterOneMore(cfg, 0, c1, logout);
    AfterOneMore(cfg, 0, c1, stranger);
    AfterOneMore(cfg, 0, c2, logout);
  }

  lemma LogoutOfExpired(cfg: Config, f: u64, user: string, mine: string, other: string,
                        anybody: string -> bool, late: Instant)
    requires InjectiveHash(cfg) && mine != other
    requires late >= cfg.refreshTtl && late >= SWEEP_INTERVAL && cfg.refreshTtl <= MAX_FAMILY_LIFETIME
    ensures var s := Started(cfg, f, user, mine);
            var (swept, a) := Step(cfg, s, late, Refresh(other, anybody, None));
            && Step(cfg, s, late, Revoke(mine)).1 == Revoked(true)
            && a == Refused(Invalid)
            && Step(cfg, swept, late, Revoke(mine)).1 == Revoked(false)
  {
    hide FamilyRevoked;
    var s := Started(cfg, f, user, mine);
    var swept := RoomMade(Swept(s, late), late);
    assert swept.refresh == map[] && swept.spent == map[];
  }
}
