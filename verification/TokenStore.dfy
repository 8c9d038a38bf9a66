/** The token store: refresh-token rotation with reuse detection (section 4.14.2 of RFC 9700).
    Every public call is one atomic step at one clock reading. The random numbers a call draws and
    the answers of the credential list are inputs of the step. */
module TokenStore {
  import opened Text
  import opened AccessToken

  /** Nanoseconds of the monotonic clock. Time is unbounded here. */
  type Instant = nat

  /** A SHA-256 digest. */
  type Hash = seq<byte>

  const SECOND: nat := 1_000_000_000
  const MAX_FAMILY_LIFETIME: nat := 30 * 24 * 60 * 60 * SECOND
  const MAX_RECORDS: nat := 100_000
  const SWEEP_INTERVAL: nat := 60 * SECOND

  /** What a service is built with. `epoch` is the Unix time at which the monotonic clock read 0;
      `hash` is `hash_token` and `sign` the HMAC under the service's key. */
  datatype Config = Config(
    accessTtl: nat,
    refreshTtl: nat,
    epoch: nat,
    hash: string -> Hash,
    sign: Signer)
  {
    /** `unix_now()`: the wall clock, rounded down to seconds. */
    function Unix(now: Instant): nat { (now + epoch) / SECOND }

    /** The expiry `mint_access` writes at `now`, a `u64` sum. */
    function AccessExpiry(now: Instant): u64 { (Unix(now) + accessTtl / SECOND) % TWO_64 }

    function RefreshExpiry(now: Instant, deadline: Instant): Instant {
      if now + refreshTtl <= deadline then now + refreshTtl else deadline
    }
  }

  datatype RefreshRecord =
    RefreshRecord(family: u64, user: string, expires: Instant, familyDeadline: Instant)

  datatype SpentRecord = SpentRecord(family: u64, user: string, expires: Instant)

  datatype Store = Store(
    refresh: map<Hash, RefreshRecord>,
    spent: map<Hash, SpentRecord>,
    revoked: map<u64, Instant>,
    nextSweep: Instant)
  {
    /** The remembered refresh tokens; revoked logins do not count. */
    function Count(): nat { |refresh| + |spent| }
  }

  datatype IssuedTokens = IssuedTokens(
    accessToken: string,
    accessExpiresIn: nat,
    refreshToken: string,
    refreshExpiresIn: nat)

  datatype TokenError = Invalid | Reused(user: string) | Full | Random

  /** A call of the service. `None` for a family or a drawn token is a failing random source. */
  datatype Event =
    | Login(user: string, family: Option<u64>, drawn: Option<string>)
    | Refresh(token: string, userExists: string -> bool, drawn: Option<string>)
    | Revoke(token: string)
    | Verify(token: string)

  datatype Answer =
    | Granted(user: string, tokens: IssuedTokens)
    | Refused(error: TokenError)
    | Revoked(known: bool)
    | Verified(who: Option<string>)

  // ----- the private operations ---------------------------------------------------------------

  function EmptyStore(now: Instant): Store {
    Store(map[], map[], map[], now + SWEEP_INTERVAL)
  }

  function ForceSwept(s: Store, now: Instant): Store {
    Store(
      map h | h in s.refresh && now < s.refresh[h].expires && now < s.refresh[h].familyDeadline
        :: s.refresh[h],
      map h | h in s.spent && now < s.spent[h].expires :: s.spent[h],
      map f | f in s.revoked && now < s.revoked[f] :: s.revoked[f],
      now + SWEEP_INTERVAL)
  }

  function Swept(s: Store, now: Instant): Store {
    if now < s.nextSweep then s else ForceSwept(s, now)
  }

  /** `make_room` leaves this store; it reports `Full` when the store still is. */
  function RoomMade(s: Store, now: Instant): Store {
    if s.Count() >= MAX_RECORDS then ForceSwept(s, now) else s
  }

  function FamilyRevoked(cfg: Config, s: Store, family: u64, now: Instant): Store {
    s.(refresh := map h | h in s.refresh && s.refresh[h].family != family :: s.refresh[h],
       revoked := s.revoked[family := now + cfg.accessTtl])
  }

  function Tokens(cfg: Config, family: u64, user: string, now: Instant, deadline: Instant,
                  drawn: string): IssuedTokens {
    IssuedTokens(
      Mint(cfg.sign, Payload(family, cfg.AccessExpiry(now), user)),
      cfg.accessTtl / SECOND,
      drawn,
      (if cfg.RefreshExpiry(now, deadline) >= now then cfg.RefreshExpiry(now, deadline) - now else 0)
        / SECOND)
  }

  function Issue(cfg: Config, s: Store, family: u64, user: string, now: Instant,
                 deadline: Instant, drawn: Option<string>): (Store, Answer) {
    match drawn
    case None => (s, Refused(Random))
    case Some(token) =>
      (s.(refresh := s.refresh[cfg.hash(token) :=
            RefreshRecord(family, user, cfg.RefreshExpiry(now, deadline), deadline)]),
       Granted(user, Tokens(cfg, family, user, now, deadline, token)))
  }

  // ----- the public calls ---------------------------------------------------------------------

  function LoginStep(cfg: Config, s: Store, now: Instant, user: string, family: Option<u64>,
                     drawn: Option<string>): (Store, Answer) {
    match family
    case None => (s, Refused(Random))
    case Some(f) =>
      var s := RoomMade(s, now);
      if s.Count() >= MAX_RECORDS then (s, Refused(Full))
      else Issue(cfg, s, f, user, now, now + MAX_FAMILY_LIFETIME, drawn)
  }

  /** A refresh after its sweep and its check for room. */
  function Exchange(cfg: Config, s: Store, now: Instant, token: string, userExists: string -> bool,
                    drawn: Option<string>): (Store, Answer) {
    var h := cfg.hash(token);
    if h !in s.refresh then
      if h in s.spent && now < s.spent[h].expires then
        (FamilyRevoked(cfg, s, s.spent[h].family, now), Refused(Reused(s.spent[h].user)))
      else
        (s, Refused(Invalid))
    else
      var record := s.refresh[h];
      var s := s.(refresh := s.refresh - {h});
      if now >= record.expires || now >= record.familyDeadline || !userExists(record.user) then
        (s, Refused(Invalid))
      else
        var s := s.(spent := s.spent[h := SpentRecord(record.family, record.user, record.expires)]);
        Issue(cfg, s, record.family, record.user, now, record.familyDeadline, drawn)
  }

  function RefreshStep(cfg: Config, s: Store, now: Instant, token: string,
                       userExists: string -> bool, drawn: Option<string>): (Store, Answer) {
    var s := RoomMade(Swept(s, now), now);
    if s.Count() >= MAX_RECORDS then (s, Refused(Full))
    else Exchange(cfg, s, now, token, userExists, drawn)
  }

  function RevokeStep(cfg: Config, s: Store, now: Instant, token: string): (Store, Answer) {
    var h := cfg.hash(token);
    if h in s.refresh then (FamilyRevoked(cfg, s, s.refresh[h].family, now), Revoked(true))
    else if h in s.spent then (FamilyRevoked(cfg, s, s.spent[h].family, now), Revoked(true))
    else (s, Revoked(false))
  }

  function VerifyAnswer(cfg: Config, s: Store, now: Instant, token: string): Option<string> {
    match Open(cfg.sign, token)
    case None => None
    case Some(p) =>
      if cfg.Unix(now) >= p.expires || p.family in s.revoked then None else Some(p.user)
  }

  function Step(cfg: Config, s: Store, now: Instant, e: Event): (Store, Answer) {
    match e
    case Login(user, family, drawn) => LoginStep(cfg, s, now, user, family, drawn)
    case Refresh(token, userExists, drawn) => RefreshStep(cfg, s, now, token, userExists, drawn)
    case Revoke(token) => RevokeStep(cfg, s, now, token)
    case Verify(token) => (s, Verified(VerifyAnswer(cfg, s, now, token)))
  }

  // ----- what holds of every step, whatever the clock says -------------------------------------

  /** The store never outgrows its bound, on any path and for any clock reading; and no call adds
      more than one record. */
  lemma StepKeepsBound(cfg: Config, s: Store, now: Instant, e: Event)
    requires s.Count() <= MAX_RECORDS
    ensures Step(cfg, s, now, e).0.Count() <= MAX_RECORDS
    ensures Step(cfg, s, now, e).0.Count() <= s.Count() + 1
  {
    hide ForceSwept, FamilyRevoked, Exchange, Tokens;
    match e
    case Login(_, _, _) =>
      RoomMadeShrinks(s, now);
    case Refresh(token, userExists, drawn) =>
      RoomMadeShrinks(s, now);
      ExchangeGrowsByOne(cfg, RoomMade(Swept(s, now), now), now, token, userExists, drawn);
    case Revoke(token) =>
      RevocationShrinks(cfg, s, now);
    case Verify(_) =>
  }

  lemma RoomMadeShrinks(s: Store, now: Instant)
    ensures RoomMade(s, now).Count() <= s.Count()
    ensures RoomMade(Swept(s, now), now).Count() <= s.Count()
  {
    ForceSweptShrinks(s, now);
    ForceSweptShrinks(Swept(s, now), now);
  }

  lemma SubmapIsSmaller<K, V>(small: map<K, V>, big: map<K, V>)
    requires small.Keys <= big.Keys
    ensures |small| <= |big|
  {
    SubsetIsSmaller(small.Keys, big.Keys);
    assert |small| == |small.Keys| && |big| == |big.Keys|;
  }

  lemma {:induction false} SubsetIsSmaller<T>(small: set<T>, big: set<T>)
    requires small <= big
    ensures |small| <= |big|
  {
    assert big == small + (big - small);
  }

  lemma ForceSweptShrinks(s: Store, now: Instant)
    ensures ForceSwept(s, now).Count() <= s.Count()
  {
    SubmapIsSmaller(ForceSwept(s, now).refresh, s.refresh);
    SubmapIsSmaller(ForceSwept(s, now).spent, s.spent);
  }

  lemma RevocationShrinks(cfg: Config, s: Store, now: Instant)
    ensures forall f: u64 :: FamilyRevoked(cfg, s, f, now).Count() <= s.Count()
  {
    forall f: u64 ensures FamilyRevoked(cfg, s, f, now).Count() <= s.Count() {
      SubmapIsSmaller(FamilyRevoked(cfg, s, f, now).refresh, s.refresh);
    }
  }

  lemma ExchangeGrowsByOne(cfg: Config, s: Store, now: Instant, token: string,
                           userExists: string -> bool, drawn: Option<string>)
    ensures Exchange(cfg, s, now, token, userExists, drawn).0.Count() <= s.Count() + 1
  {
    var h := cfg.hash(token);
    if h in s.refresh {
      var rest := s.refresh - {h};
      assert rest.Keys == s.refresh.Keys - {h};
      assert |rest| == |rest.Keys| && |s.refresh| == |s.refresh.Keys|;
    } else {
      RevocationShrinks(cfg, s, now);
    }
  }

  /** Everything unexpired in `s` is still in `s'`, with its contents, and nothing was added. */
  predicate KeepsUnexpired(s: Store, s': Store, now: Instant) {
    && (forall h :: h in s.refresh && now < s.refresh[h].expires && now < s.refresh[h].familyDeadline
          ==> h in s'.refresh && s'.refresh[h] == s.refresh[h])
    && (forall h :: h in s.spent && now < s.spent[h].expires
          ==> h in s'.spent && s'.spent[h] == s.spent[h])
    && s'.refresh.Keys <= s.refresh.Keys && s'.spent.Keys <= s.spent.Keys
  }

  lemma SweepKeepsUnexpired(s: Store, now: Instant)
    ensures KeepsUnexpired(s, ForceSwept(s, now), now)
  {
  }

  lemma RoomKeepsUnexpired(s: Store, now: Instant)
    ensures KeepsUnexpired(s, RoomMade(s, now), now)
    ensures KeepsUnexpired(s, RoomMade(Swept(s, now), now), now)
  {
    hide ForceSwept;
    SweepKeepsUnexpired(s, now);
    SweepKeepsUnexpired(Swept(s, now), now);
  }

  /** A store that is full costs no client its token: everything unexpired is still there, with its
      contents, after a call that was refused as `Full`, and nothing was added. */
  lemma FullLosesNothing(cfg: Config, s: Store, now: Instant, e: Event)
    requires Step(cfg, s, now, e).1 == Refused(Full)
    ensures var s' := Step(cfg, s, now, e).0;
            KeepsUnexpired(s, s', now) && s'.Count() >= MAX_RECORDS
  {
    hide Exchange, Tokens, RoomMade, Swept, KeepsUnexpired;
    RoomKeepsUnexpired(s, now);
    ExchangeIsNotFull(cfg, s, now, e);
  }

  lemma ExchangeIsNotFull(cfg: Config, s: Store, now: Instant, e: Event)
    ensures e.Refresh? ==>
              Exchange(cfg, RoomMade(Swept(s, now), now), now, e.token, e.userExists, e.drawn).1
              != Refused(Full)
  {
  }
}
