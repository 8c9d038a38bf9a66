/** The third map of the store: the logins that are listed as revoked. Nothing bounds it but the
    sweeps, and only a refresh, or a store full of tokens, sweeps. */
module RevokedList {
  import opened Text
  import opened AccessToken
  import opened TokenStore
  import opened Ledger
  import opened Simulation
  import opened TokenRuns

  /** The call drops everything that is out of date. */
  predicate ForceSweeps(s: Store, now: Instant, e: Event) {
    match e
    case Login(_, family, _) => family.Some? && s.Count() >= MAX_RECORDS
    case Refresh(_, _, _) => now >= s.nextSweep || s.Count() >= MAX_RECORDS
    case _ => false
  }

  // ----- one call -----------------------------------------------------------------------------

  /** After a call, `f` is listed exactly if the call ended it, or it was listed and outlived the
      call's sweep. */
  predicate Lists(cfg: Config, s: Store, s': Store, now: Instant, sweeps: bool, ends: bool, f: u64) {
    && (f in s'.revoked <==> ends || (f in s.revoked && (sweeps ==> now < s.revoked[f])))
    && (f in s'.revoked ==> s'.revoked[f] == if ends then now + cfg.accessTtl else s.revoked[f])
    && s'.nextSweep == if sweeps then now + SWEEP_INTERVAL else s.nextSweep
  }

  lemma RoomLists(cfg: Config, s: Store, now: Instant, f: u64)
    ensures Lists(cfg, s, RoomMade(s, now), now, s.Count() >= MAX_RECORDS, false, f)
    ensures Lists(cfg, s, RoomMade(Swept(s, now), now), now,
                  now >= s.nextSweep || s.Count() >= MAX_RECORDS, false, f)
  {
  }

  lemma LoginLists(cfg: Config, s: Store, l: Ledger, now: Instant, e: Event, f: u64)
    requires e.Login?
    ensures var (s', a) := Step(cfg, s, now, e);
            Lists(cfg, s, s', now, ForceSweeps(s, now, e), Ends(l, e, a, f), f)
  {
    hide RoomMade, Tokens;
    RoomLists(cfg, s, now, f);
  }

  lemma RevokeLists(cfg: Config, s: Store, l: Ledger, now: Instant, e: Event, f: u64)
    requires Invariant(cfg, s, l) && e.Revoke?
    ensures var (s', a) := Step(cfg, s, now, e);
            Lists(cfg, s, s', now, ForceSweeps(s, now, e), Ends(l, e, a, f), f)
  {
    hide Sound, WellFormed, InjectiveHash;
    if cfg.hash(e.token) in s.refresh {
      LiveIsSound(cfg, s, l, e.token);
    } else if cfg.hash(e.token) in s.spent {
      SpentIsSound(cfg, s, l, e.token);
    }
  }

  lemma ExchangeLists(cfg: Config, s: Store, l: Ledger, now: Instant, e: Event, f: u64)
    requires Invariant(cfg, s, l) && e.Refresh?
    ensures var (s', a) := Exchange(cfg, s, now, e.token, e.userExists, e.drawn);
            Lists(cfg, s, s', now, false, Ends(l, e, a, f), f)
  {
    hide Sound, WellFormed, InjectiveHash, Tokens;
    if cfg.hash(e.token) in s.spent {
      SpentIsSound(cfg, s, l, e.token);
    }
  }

  lemma StepLists(cfg: Config, s: Store, l: Ledger, now: Instant, e: Event, f: u64)
    requires Invariant(cfg, s, l)
    ensures var (s', a) := Step(cfg, s, now, e);
            Lists(cfg, s, s', now, ForceSweeps(s, now, e), Ends(l, e, a, f), f)
  {
    hide Sound, WellFormed, InjectiveHash, Trimmed, RoomMade, Swept, Exchange, FamilyRevoked;
    match e
    case Login(_, _, _) => LoginLists(cfg, s, l, now, e, f);
    case Revoke(_) => RevokeLists(cfg, s, l, now, e, f);
    case Verify(_) =>
    case Refresh(_, _, _) =>
      var s1 := RoomMade(Swept(s, now), now);
      SweptAndRoomMadeTrims(s, now);
      TrimKeepsSound(cfg, s, s1, l, now);
      RoomLists(cfg, s, now, f);
      ExchangeLists(cfg, s1, l, now, e, f);
  }

  // ----- whole runs ---------------------------------------------------------------------------

  predicate SweepsAt(cfg: Config, start: Instant, calls: seq<Call>, m: nat)
    requires m < |calls|
  {
    ForceSweeps(At(cfg, start, calls, m).store, calls[m].now, calls[m].event)
  }

  /** Call `k` revoked `f`, and no sweep between it and call `i` was late enough to forget that. */
  predicate ListedSince(cfg: Config, start: Instant, calls: seq<Call>, k: nat, i: nat, f: u64)
    requires k < i <= |calls|
  {
    && RevokedAt(cfg, start, calls, k, f)
    && forall m :: k < m < i && SweepsAt(cfg, start, calls, m) ==>
         calls[m].now < calls[k].now + cfg.accessTtl
  }

  /** What is in the list before call `i`: `k` is a revocation that keeps `f` there, and no other
      keeps it longer. */
  ghost predicate Accounted(cfg: Config, start: Instant, calls: seq<Call>, i: nat, f: u64)
    requires i <= |calls|
  {
    var revoked := At(cfg, start, calls, i).store.revoked;
    && (f in revoked ==> exists k ::
          0 <= k < i && ListedSince(cfg, start, calls, k, i, f)
          && revoked[f] == calls[k].now + cfg.accessTtl)
    && (forall k :: 0 <= k < i ==> KeptListed(cfg, start, calls, k, i, f))
  }

  predicate KeptListed(cfg: Config, start: Instant, calls: seq<Call>, k: nat, i: nat, f: u64)
    requires k < i <= |calls|
  {
    var revoked := At(cfg, start, calls, i).store.revoked;
    ListedSince(cfg, start, calls, k, i, f) ==>
      f in revoked && calls[k].now + cfg.accessTtl <= revoked[f]
  }

  /** One more call. */
  lemma NextLists(cfg: Config, start: Instant, calls: seq<Call>, i: nat, f: u64)
    requires Run(cfg, start, calls) && i < |calls|
    ensures Lists(cfg, At(cfg, start, calls, i).store, At(cfg, start, calls, i + 1).store, calls[i].now,
                  SweepsAt(cfg, start, calls, i), RevokedAt(cfg, start, calls, i, f), f)
  {
    hide Step, Invariant, Ends, Lists, ForceSweeps;
    ReachableInvariant(cfg, start, calls, i);
    AtNext(cfg, start, calls, i);
    var w := At(cfg, start, calls, i);
    StepLists(cfg, w.store, w.ledger, calls[i].now, calls[i].event, f);
  }

  lemma {:induction false} ReachableAccounted(cfg: Config, start: Instant, calls: seq<Call>, i: nat,
                                              f: u64)
    requires TimedRun(cfg, start, calls) && i <= |calls|
    ensures Accounted(cfg, start, calls, i, f)
  {
    if i > 0 {
      ReachableAccounted(cfg, start, calls, i - 1, f);
      AccountedNext(cfg, start, calls, i - 1, f);
    } else {
      assert At(cfg, start, calls, 0).store == EmptyStore(start);
    }
  }

  lemma ListedNext(cfg: Config, start: Instant, calls: seq<Call>, k: nat, i: nat, f: u64)
    requires k <= i < |calls|
    ensures ListedSince(cfg, start, calls, k, i + 1, f) <==>
              if k == i then RevokedAt(cfg, start, calls, i, f)
              else ListedSince(cfg, start, calls, k, i, f)
                   && (SweepsAt(cfg, start, calls, i) ==> calls[i].now < calls[k].now + cfg.accessTtl)
  {
    hide RevokedAt, SweepsAt;
  }

  lemma AccountedNext(cfg: Config, start: Instant, calls: seq<Call>, i: nat, f: u64)
    requires TimedRun(cfg, start, calls) && i < |calls| && Accounted(cfg, start, calls, i, f)
    ensures Accounted(cfg, start, calls, i + 1, f)
  {
    hide TimedRun, At, SweepsAt, RevokedAt, ListedSince;
    RunOfTimed(cfg, start, calls);
    NextLists(cfg, start, calls, i, f);
    var s, s' := At(cfg, start, calls, i).store, At(cfg, start, calls, i + 1).store;
    ListedNext(cfg, start, calls, i, i, f);
    var next := i + 1;
    forall k | 0 <= k < next ensures KeptListed(cfg, start, calls, k, next, f) {
      assert k < i ==> KeptListed(cfg, start, calls, k, i, f);
      ClockForward(cfg, start, calls, k, i);
      ListedNext(cfg, start, calls, k, i, f);
    }
    if f in s'.revoked {
      var last := i;
      if !RevokedAt(cfg, start, calls, i, f) {
        var k :| 0 <= k < i && ListedSince(cfg, start, calls, k, i, f)
                 && s.revoked[f] == calls[k].now + cfg.accessTtl;
        ListedNext(cfg, start, calls, k, i, f);
        last := k;
      }
      assert ListedSince(cfg, start, calls, last, i + 1, f);
      assert s'.revoked[f] == calls[last].now + cfg.accessTtl;
    }
  }

  /** What is listed, exactly: a login is in the list if and only if some earlier call revoked it and
      no sweep since then came as late as `access_ttl` after that call. */
  lemma RevokedIsListedExactly(cfg: Config, start: Instant, calls: seq<Call>, i: nat, f: u64)
    requires TimedRun(cfg, start, calls) && i <= |calls|
    ensures f in At(cfg, start, calls, i).store.revoked <==>
              exists k :: 0 <= k < i && ListedSince(cfg, start, calls, k, i, f)
  {
    hide TimedRun, At, ListedSince;
    ReachableAccounted(cfg, start, calls, i, f);
    if exists k :: 0 <= k < i && ListedSince(cfg, start, calls, k, i, f) {
      var k :| 0 <= k < i && ListedSince(cfg, start, calls, k, i, f);
      assert KeptListed(cfg, start, calls, k, i, f);
    }
  }

  // ----- how short it stays -------------------------------------------------------------------

  /** The calls before `i` that can have revoked something within `window` of `clock`. */
  function RecentEnders(calls: seq<Call>, i: nat, clock: Instant, window: nat): set<nat>
    requires i <= |calls|
  {
    set k: nat | k < i && (calls[k].event.Revoke? || calls[k].event.Refresh?)
                 && clock < calls[k].now + window
  }

  /** The login that the token of call `k` belongs to. */
  function LoginOf(cfg: Config, start: Instant, calls: seq<Call>, k: nat): u64 {
    if k < |calls| && (calls[k].event.Revoke? || calls[k].event.Refresh?)
       && calls[k].event.token in At(cfg, start, calls, k).ledger.issued
    then At(cfg, start, calls, k).ledger.issued[calls[k].event.token].family
    else 0
  }

  /** The next sweep is due no later than one interval after the clock, and nothing that is listed was
      out of date at the last one. */
  predicate SweptInTime(s: Store, clock: Instant) {
    && s.nextSweep <= clock + SWEEP_INTERVAL
    && forall f :: f in s.revoked ==> s.nextSweep <= s.revoked[f] + SWEEP_INTERVAL
  }

  lemma {:induction false} ReachableSweptInTime(cfg: Config, start: Instant, calls: seq<Call>, i: nat)
    requires TimedRun(cfg, start, calls) && i <= |calls|
    ensures var w := At(cfg, start, calls, i); SweptInTime(w.store, w.clock)
  {
    hide TimedRun, At, SweepsAt, RevokedAt;
    if i > 0 {
      ReachableSweptInTime(cfg, start, calls, i - 1);
      RunOfTimed(cfg, start, calls);
      OneCall(cfg, start, calls, i - 1);
      var w, w' := At(cfg, start, calls, i - 1), At(cfg, start, calls, i);
      NextLists(cfg, start, calls, i - 1, 0);
      forall f | f in w'.store.revoked
        ensures w'.store.nextSweep <= w'.store.revoked[f] + SWEEP_INTERVAL
      {
        NextLists(cfg, start, calls, i - 1, f);
      }
    } else {
      AtStart(cfg, start, calls);
    }
  }

  lemma AtStart(cfg: Config, start: Instant, calls: seq<Call>)
    ensures At(cfg, start, calls, 0) == World(EmptyStore(start), EMPTY, start)
  {
  }

  lemma OneCall(cfg: Config, start: Instant, calls: seq<Call>, i: nat)
    requires TimedRun(cfg, start, calls) && i < |calls|
    ensures At(cfg, start, calls, i).clock <= calls[i].now == At(cfg, start, calls, i + 1).clock
  {
    hide Step, Recorded;
    AtNext(cfg, start, calls, i);
  }

  /** A refresh leaves the next sweep ahead of the clock, and it never moves back. */
  lemma {:induction false} SweepAhead(cfg: Config, start: Instant, calls: seq<Call>, r: nat, i: nat)
    requires TimedRun(cfg, start, calls) && r < i <= |calls| && calls[r].event.Refresh?
    ensures calls[r].now < At(cfg, start, calls, i).store.nextSweep
  {
    hide TimedRun, At, RevokedAt;
    RunOfTimed(cfg, start, calls);
    NextLists(cfg, start, calls, i - 1, 0);
    if r < i - 1 {
      SweepAhead(cfg, start, calls, r, i - 1);
      ClockForward(cfg, start, calls, r, i - 1);
    }
  }

  lemma {:induction false} ImageIsSmaller<T>(s: set<T>, image: set<u64>, g: T -> u64)
    requires forall y :: y in image ==> exists x :: x in s && g(x) == y
    ensures |image| <= |s|
  {
    if image != {} {
      var y :| y in image;
      var x :| x in s && g(x) == y;
      ImageIsSmaller(s - {x}, image - {y}, g);
    }
  }

  /** How short the list is kept by refreshes, whoever makes them and whatever they present: if the
      last one lies no further back than `SWEEP_INTERVAL`, there are no more revoked logins in the
      store than there were logouts and refreshes within `access_ttl` and two intervals. */
  lemma RevokedStaysShort(cfg: Config, start: Instant, calls: seq<Call>, i: nat, r: nat)
    requires TimedRun(cfg, start, calls) && r < i <= |calls| && calls[r].event.Refresh?
    requires At(cfg, start, calls, i).clock <= calls[r].now + SWEEP_INTERVAL
    ensures var w := At(cfg, start, calls, i);
            |w.store.revoked| <= |RecentEnders(calls, i, w.clock, cfg.accessTtl + 2 * SWEEP_INTERVAL)|
  {
    hide TimedRun, At, SweepsAt, LoginOf;
    var w := At(cfg, start, calls, i);
    var recent := RecentEnders(calls, i, w.clock, cfg.accessTtl + 2 * SWEEP_INTERVAL);
    ReachableSweptInTime(cfg, start, calls, i);
    SweepAhead(cfg, start, calls, r, i);
    forall f | f in w.store.revoked.Keys
      ensures exists k :: k in recent && LoginOf(cfg, start, calls, k) == f
    {
      ReachableAccounted(cfg, start, calls, i, f);
      var k: int :| 0 <= k < i && ListedSince(cfg, start, calls, k, i, f)
               && w.store.revoked[f] == calls[k].now + cfg.accessTtl;
      RevokedIsItsLogin(cfg, start, calls, k, f);
      assert k in recent;
    }
    ImageIsSmaller(recent, w.store.revoked.Keys, k => LoginOf(cfg, start, calls, k));
    assert |w.store.revoked| == |w.store.revoked.Keys|;
  }

  lemma RevokedIsItsLogin(cfg: Config, start: Instant, calls: seq<Call>, k: nat, f: u64)
    requires k < |calls| && RevokedAt(cfg, start, calls, k, f)
    ensures (calls[k].event.Revoke? || calls[k].event.Refresh?) && LoginOf(cfg, start, calls, k) == f
  {
  }

  // ----- how long it can get ------------------------------------------------------------------

  /** `n` logins, each followed by its logout. */
  function LogInAndOut(user: string, token: nat -> string, time: nat -> Instant, n: nat): seq<Call>
    requires n <= TWO_64
  {
    if n == 0 then []
    else
      LogInAndOut(user, token, time, n - 1)
      + [Call(time(n - 1), Login(user, Some(n - 1), Some(token(n - 1))))]
      + [Call(time(n - 1), Revoke(token(n - 1)))]
  }

  /** What they leave behind: no record, and every login in the list. */
  ghost predicate OnlyRevoked(w: World, token: nat -> string, n: nat) {
    && w.store.refresh == map[] && w.store.spent == map[]
    && |w.store.revoked| == n && (forall f :: f in w.store.revoked ==> f < n)
    && (forall f :: f in w.ledger.logins ==> f < n)
    && (forall t :: t in w.ledger.issued ==> exists k: nat :: k < n && token(k) == t)
  }

  lemma LoginIntoEmpty(cfg: Config, s: Store, now: Instant, user: string, f: u64, t: string)
    requires s.refresh == map[] && s.spent == map[]
    ensures var (s1, a1) := Step(cfg, s, now, Login(user, Some(f), Some(t)));
            && a1.Granted? && s1.refresh.Keys == {cfg.hash(t)} && s1.refresh[cfg.hash(t)].family == f
            && s1.spent == map[] && s1.revoked == s.revoked
  {
    hide ForceSwept, Tokens;
  }

  lemma LogoutOfOnly(cfg: Config, s: Store, now: Instant, f: u64, t: string)
    requires s.refresh.Keys == {cfg.hash(t)} && s.refresh[cfg.hash(t)].family == f && s.spent == map[]
    ensures var (s2, a2) := Step(cfg, s, now, Revoke(t));
            && a2 == Revoked(true) && s2.refresh == map[] && s2.spent == map[]
            && s2.revoked == s.revoked[f := now + cfg.accessTtl]
  {
  }

  lemma LoginThenLogout(cfg: Config, w: World, now: Instant, user: string, f: u64, t: string)
    requires w.store.refresh == map[] && w.store.spent == map[] && f !in w.store.revoked
    ensures var (s1, a1) := Step(cfg, w.store, now, Login(user, Some(f), Some(t)));
            var (s2, a2) := Step(cfg, s1, now, Revoke(t));
            && a1.Granted? && a2 == Revoked(true)
            && s2.refresh == map[] && s2.spent == map[]
            && s2.revoked == w.store.revoked[f := now + cfg.accessTtl]
            && |s2.revoked| == |w.store.revoked| + 1
  {
    hide Step;
    LoginIntoEmpty(cfg, w.store, now, user, f, t);
    LogoutOfOnly(cfg, Step(cfg, w.store, now, Login(user, Some(f), Some(t))).0, now, f, t);
    var revoked := w.store.revoked[f := now + cfg.accessTtl];
    assert revoked.Keys == w.store.revoked.Keys + {f};
    assert |revoked| == |revoked.Keys| && |w.store.revoked| == |w.store.revoked.Keys|;
  }

  lemma LoginAndLogoutFacts(cfg: Config, w: World, token: nat -> string, now: Instant, user: string, n: nat)
    requires OnlyRevoked(w, token, n) && n < TWO_64
    requires forall i: nat, j: nat :: token(i) == token(j) ==> i == j
    ensures DrawsFresh(w.ledger, Login(user, Some(n), Some(token(n))))
    ensures var e := Login(user, Some(n), Some(token(n)));
            var (s1, a1) := Step(cfg, w.store, now, e);
            var l1 := Recorded(cfg, w.ledger, now, e, a1);
            var (s2, a2) := Step(cfg, s1, now, Revoke(token(n)));
            a2 == Revoked(true)
            && OnlyRevoked(World(s2, Recorded(cfg, l1, now, Revoke(token(n)), a2), now), token, n + 1)
  {
    hide Step, Tokens;
    LoginThenLogout(cfg, w, now, user, n, token(n));
  }

  /** One more pair. */
  lemma OneMorePair(cfg: Config, start: Instant, calls: seq<Call>, user: string, token: nat -> string,
                    now: Instant, n: nat)
    requires TimedRun(cfg, start, calls) && n < TWO_64
    requires OnlyRevoked(After(cfg, start, calls), token, n) && After(cfg, start, calls).clock <= now
    requires forall i: nat, j: nat :: token(i) == token(j) ==> i == j
    ensures var more := calls + [Call(now, Login(user, Some(n), Some(token(n))))] + [Call(now, Revoke(token(n)))];
            && TimedRun(cfg, start, more)
            && OnlyRevoked(After(cfg, start, more), token, n + 1) && After(cfg, start, more).clock == now
  {
    hide TimedRun, OnlyRevoked, Step, Recorded, DrawsFresh, After, AnswerAt;
    var login, logout := Call(now, Login(user, Some(n), Some(token(n)))), Call(now, Revoke(token(n)));
    LoginAndLogoutFacts(cfg, After(cfg, start, calls), token, now, user, n);
    RunExtends(cfg, start, calls, login);
    AfterOneMore(cfg, start, calls, login);
    LogoutIsFair(cfg, start, calls + [login], logout);
    RunExtends(cfg, start, calls + [login], logout);
    AfterOneMore(cfg, start, calls + [login], logout);
  }

  lemma {:induction false} LogoutsGrowTheList(cfg: Config, start: Instant, user: string,
                                              token: nat -> string, time: nat -> Instant, n: nat)
    requires InjectiveHash(cfg) && n <= TWO_64
    requires forall i: nat, j: nat :: token(i) == token(j) ==> i == j
    requires forall i: nat, j: nat :: i <= j ==> start <= time(i) <= time(j)
    ensures var calls := LogInAndOut(user, token, time, n);
            var w := After(cfg, start, calls);
            && TimedRun(cfg, start, calls) && |calls| == 2 * n
            && OnlyRevoked(w, token, n) && w.clock == if n == 0 then start else time(n - 1)
  {
    hide InjectiveHash, TimedRun, OnlyRevoked, After;
    if n == 0 {
      NoCalls(cfg, start);
      NothingRevoked(cfg, start, token);
    } else {
      LogoutsGrowTheList(cfg, start, user, token, time, n - 1);
      OneMorePair(cfg, start, LogInAndOut(user, token, time, n - 1), user, token, time(n - 1), n - 1);
    }
  }

  /** The list is not bounded. A logout takes the login's records out again, so the store never fills,
      and without a refresh nothing sweeps: after any number of logins and logouts, at any times, the
      store holds no refresh token and every one of the logins, those included whose last access token
      expired long ago. */
  lemma RevokedIsUnbounded(cfg: Config, start: Instant, user: string, token: nat -> string,
                           time: nat -> Instant, n: nat)
    requires InjectiveHash(cfg) && n <= TWO_64
    requires forall i: nat, j: nat :: token(i) == token(j) ==> i == j
    requires forall i: nat, j: nat :: i <= j ==> start <= time(i) <= time(j)
    ensures var calls := LogInAndOut(user, token, time, n);
            var s := After(cfg, start, calls).store;
            && TimedRun(cfg, start, calls) && |calls| == 2 * n
            && s.refresh == map[] && s.spent == map[] && |s.revoked| == n
  {
    hide TimedRun;
    LogoutsGrowTheList(cfg, start, user, token, time, n);
  }

  lemma NothingRevoked(cfg: Config, start: Instant, token: nat -> string)
    ensures After(cfg, start, []) == World(EmptyStore(start), EMPTY, start)
    ensures OnlyRevoked(World(EmptyStore(start), EMPTY, start), token, 0)
  {
  }

  lemma LogoutIsFair(cfg: Config, start: Instant, calls: seq<Call>, c: Call)
    requires c.event.Revoke? && After(cfg, start, calls).clock <= c.now
    ensures FairCall(cfg, start, calls, c.now, Some(c.event))
  {
  }
}
