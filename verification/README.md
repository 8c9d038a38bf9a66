# Verification of ws2tcp-router

A Dafny 4.11 model of `ws2tcp-router`, a proxy that routes websocket connections to TCP and UDP
upstreams, and proofs about it. `dafny verify dfyconfig.toml` checks the whole project.

## What is modelled

**The token store** (`TokenStore`, `TokenService`). A login hands out a short-lived signed access
token and a long-lived single-use refresh token. Each refresh rotates the refresh token; presenting a
rotated one revokes the login. A sweep drops what is out of date, and the refresh tokens that are
remembered are bounded; the list of revoked logins is not (`RevokedList`).
`TokenService` is the object whose maps are changed in place; each of its methods is proved equal to a
step of `TokenStore`.

**The ledger** (`Ledger`, `Simulation`). The reference for the store: it knows the tokens themselves
and never deletes anything. `Sound` says that what the store holds is true, `Complete` that what it has
forgotten cannot matter any more. Every step of the store is answered as the ledger answers it.

**Whole runs** (`TokenRuns`, `Facts`, `RevokedList`, `RouterRuns`, `Endpoints`). Any sequence of calls by
any clients, then any sequence of connections, token requests and reloads of the two files. The theorems
about runs are stated here; `Facts` and `Endpoints` put them in terms of calls and clock readings and of the
fields of requests.

**Formats and decisions.** `Utf8`, `Base64` and `AccessToken` are the token format; `Auth`, `AuthConfig`
and `Router` are credentials, allow-list, authorization and the token endpoints; `Target` parses and
prints upstream addresses; `IpRange` and `ClientAddr` find the client behind trusted proxies;
`HttpProbe` reads a request's head ahead and replays it; `Proxy` holds the two forwarding loops.

### Assumptions

- Each public call of the token service is one atomic step at one clock reading: the runtime has a
  single thread (`src/main.rs:29`) and no call awaits.
- `InjectiveHash`: SHA-256 does not collide. `DrawsFresh`: a random family or token never repeats an
  earlier one. A random source that fails is a possible input everywhere.
- `Unforged`: the MAC is ideal, so nobody presents a right tag for a payload that was not signed.
- `TimedRun` adds that the clock does not run backwards and that Unix time is the same clock, shifted
  by a constant and rounded down. Theorems over `Run` hold for arbitrary clock readings. Time is
  unbounded; access lifetimes need not be whole seconds.
- Random numbers, clock readings, file contents, parsed requests and the standard library's parsers
  for IP addresses are inputs. So are the times at which the peers of a session send something, how
  much they take before writing to them fails, how many reads of a connection succeed, and how late
  the runtime looks at what is ready (`lag`).
- `StopsAtEmptyLine`, `IsHeadOf`: the HTTP parser finds a request complete at its empty line and not
  before, and reads at most 64 headers.
- A plain `GET /` or `HEAD /` (`src/proxy.rs:71-79`) is decided as a connection to `/` is.

### Where the code differs from its documentation

- `src/token.rs:39-40` bounds the remembered refresh tokens so that a client with valid credentials
  cannot grow the store without limit. It still can: revoked logins do not count, and a logout takes
  the login's own records out again, so logins and logouts in turn never fill the store and never sweep
  (`RevokedIsUnbounded`, for any number of them at any times). A login is listed exactly until a sweep
  comes `access_ttl` or more after its last revocation (`RevokedIsListedExactly`), and only a refresh, or
  a store full of tokens, sweeps. With a refresh at least every `SWEEP_INTERVAL`, by anybody and with any
  token, the list is no longer than the logouts and refreshes of the last `access_ttl` and two intervals
  (`RevokedStaysShort`).
- `README.md:744-745` and `src/client_addr.rs:8` say that what a client sends left of the trusted
  proxies' entries makes no difference. Take what our own proxies wrote, one entry or a chain, at the
  end of a line, on one of its own or over several, in which the search stops. Its address is selected
  for every chunking of the connection if and only if the text before it on its line is UTF-8, the
  request's head ends within 16 KiB and it has at most 64 header lines (`VouchedAddressExactly`); this is
  for a head with no empty line before its end, and other lines that do not name the same address
  anyway. A line with other bytes is left out as a whole (`InvalidLineDisappears`, and
  `InvalidByteHidesEntry` for a concrete one); a longer head can be cut before its end, and from one more
  chunk on always is, and is then no request (`LongHeadSelectsNothing`).
- `README.md:560-562` says that removing a user ends their refresh tokens at once. It does not: in
  `RemovedUserReturns` a user is removed, comes back and exchanges a token from before. A token is
  exchanged after such an absence if and only if each time it was presented since it was last live it
  was refused for want of room (`RemovalEndsTokenExactly`, and `LiveTokenIsExchangedExactly` for the
  token service alone); presented while the user is gone, it is gone for good (`DroppedForGood`).
  Access tokens likewise: `BearerDecision` asks for a user configured now.
- The answer to a logout with an expired token depends on whether a sweep came first
  (`src/token.rs:233-236`). `ExpiredRevocationIsOpen` and `StrangerChangesRevocation` show both answers;
  `ForgettingIsInvisible` shows that this is the only answer that is open.
- `README.md:564-567` and `src/token.rs:10-11` say that a refresh token that comes back revokes its login.
  Given room, it does so exactly until its own expiry (`ReuseIsDetected`): a leaked token that is presented
  later is taken for an unknown one and revokes nothing, even while its successor lives
  (`LateReuseIsMissed`). Nor does it always mean a leak: when the random source fails during a refresh
  (`src/token.rs:217-223`), the presented token is already spent, and the client's own retry revokes its
  login (`FailedDrawThenReuse`). A refresh of a live, unexpired token of a configured user that gives no
  pair leaves the token live if and only if the store was full (`UngrantedSpends`).

## Model

| member | source | states |
|---|---|---|
| `TokenRuns.ForgettingIsInvisible` | src/token.rs:102-271 | In every run with a forward clock, every call gets the answer of a ledger that never deletes anything, `Full` included; only the revocation of an expired token is left open |
| `TokenRuns.RevokedNeverVerifies` | src/token.rs:110-121 | After a successful logout or a detected reuse, no access token of that login is accepted at any later time, even after its `revoked` entry was swept |
| `TokenRuns.RevokedNeverRefreshes` | src/token.rs:118-121 | After that, no refresh token of the login is ever exchanged again, for arbitrary clock readings |
| `TokenRuns.SingleUse` | src/token.rs:193-225 | No refresh token is exchanged twice in a run, for arbitrary clock readings |
| `TokenRuns.ReuseIsDetected` | src/token.rs:185-200 | A retired token that comes back is answered `Reused` with its user, and its login revoked, if it comes before its own expiry, and `Invalid`, with nothing revoked, if it comes later; or `Full`, with nothing revoked, in either case; also when the retiring refresh failed for want of random numbers |
| `TokenRuns.LateReuseIsMissed` | src/token.rs:193-200 | A run: the rotated token comes back late and revokes nothing, and its successor is exchanged after it |
| `TokenRuns.DroppedForGood` | src/token.rs:203-205 | A token presented while its user is missing is invalid ever after, is not taken for reuse and revokes nothing |
| `TokenRuns.LiveTokenIsExchangedExactly` | src/token.rs:185-224 | A token that was live at any earlier call, presented in time with its user configured, its login not revoked, room and a random number, is exchanged if and only if each presentation in between was refused as `Full` |
| `TokenRuns.UngrantedSpends` | src/token.rs:188-223 | A refresh of a live, unexpired token of a configured user that gives no pair is `Full` or `Random`, and leaves the token live, in the ledger and on file, if and only if it is `Full` |
| `TokenRuns.FailedDrawThenReuse` | src/token.rs:207-223 | Such a run: the refresh after a failed draw is answered `Reused` |
| `TokenRuns.PresentationSpends` | src/token.rs:188-216 | One call ends a live token exactly by presenting it in time while there is room, or by revoking its login |
| `TokenRuns.LinearFamilies` | src/token.rs:193-225 | In every reachable state a login has at most one live record, that of the last token it was given; live and spent keys are disjoint; records name the user who logged in and carry the login's deadline, which their expiry never exceeds |
| `TokenRuns.HonestClientStays` | src/token.rs:180-225 | A client that presents its newest token in time, with its user configured, gets a pair or `Full` at every refresh, whatever everybody else does in between |
| `TokenRuns.HonestStep` | src/token.rs:180-225 | One call of such a run: the newest token of the login stays live and is the one to be accepted |
| `TokenRuns.LoginsEnd` | src/token.rs:292-313 | Every refresh token of a login expires within `MAX_FAMILY_LIFETIME` of it however often it was rotated, and no access token of it is accepted `access_ttl` later, by a store in any state |
| `TokenRuns.ReportedLifetimeIsKept` | src/token.rs:304-309 | The pair of a granted answer is on file under its user, and the reported lifetime never overstates the stored expiry |
| `TokenRuns.BoundedStore` | src/token.rs:273-281 | At most `MAX_RECORDS` refresh tokens, live and spent, are remembered in every reachable state, with no assumption at all |
| `RevokedList.RevokedIsListedExactly` | src/token.rs:102-121 | In every run a login is listed as revoked if and only if some earlier call revoked it and no sweep since came as late as `access_ttl` after that call |
| `RevokedList.RevokedIsUnbounded` | src/token.rs:118-121 | For every number of logins, each followed by its logout, at any times: a run after which the store holds no refresh token and all those logins as revoked |
| `RevokedList.RevokedStaysShort` | src/token.rs:103-116 | When the last refresh lies no further back than `SWEEP_INTERVAL`, the list is no longer than the number of logouts and refreshes within `access_ttl` and two intervals |
| `RevokedList.StepLists` | src/token.rs:102-121 | One call adds to the list exactly the login it ends, and takes out exactly what is out of date, if it sweeps |
| `TokenRuns.HandedOutIsAccepted` | src/token.rs:249-271 | An access token that was handed out is accepted, for its user, exactly until its expiry and while its login is not revoked |
| `Facts.AccessTokenLives` | src/token.rs:262-326 | From clock readings: an access token whose login is not revoked is accepted for its user while a second of the whole seconds of `access_ttl` is left, and refused once they are over or its login is revoked |
| `Facts.PairsAreOk` | src/token.rs:284-310 | Every pair handed out is of one login and its user; the refresh token lives for `refresh_ttl`, cut off at `MAX_FAMILY_LIFETIME` after the login; both reported lifetimes are the whole seconds of what was granted |
| `Facts.BeginsAtItsCall` | src/token.rs:168-174 | A login is on record for its user as of the moment of its call |
| `Facts.FactsAreCalls` | src/token.rs:168-244 | The facts of the ledger are the calls: issued is what was handed out, used what was exchanged, dead what a logout or a reuse revoked, and logins what was begun |
| `Facts.LogoutEnds` | src/token.rs:228-244 | A logout with an unexpired token succeeds exactly when the token is live or spent, and ends its login; one with a token that was never handed out changes nothing |
| `TokenRuns.AcceptedWasHandedOut` | src/token.rs:249-271 | An accepted access token is, character by character, one that an earlier login or refresh handed out for that user |
| `TokenRuns.MintedWasGranted` | src/token.rs:304-309 | Every signed payload left the service in a granted answer for its user |
| `TokenRuns.ExpiredRevocationIsOpen` | src/token.rs:228-244 | Whenever the ledger leaves a revocation open, both answers are given by stores that stand for the same ledger |
| `TokenRuns.StrangerChangesRevocation` | src/token.rs:228-244 | Concrete runs: an expired token still counts as a logout, unless a stranger's refresh swept the store just before |
| `TokenRuns.FactsStay` | src/token.rs:180-244 | What was ever issued, used, dropped, revoked or signed stays so for the rest of the run |
| `Simulation.StepSimulates` | src/token.rs:167-271 | The simulation step: the store's answer is allowed by the ledger, and the new store stands for the new ledger |
| `Simulation.FullExactly` | src/token.rs:273-281 | The store finds itself full exactly when `MAX_RECORDS` unexpired tokens are live or spent; lingering records never make it refuse |
| `Simulation.KillKeepsComplete` | src/token.rs:118-121 | A revocation is listed until the last access token of its login has expired, although expiries are rounded down to seconds |
| `Simulation.ExchangeSimulates` | src/token.rs:193-224 | A refresh after its sweep gives the ledger's answer and leaves nothing the ledger still needs forgotten |
| `Simulation.VerifySimulates` | src/token.rs:246-271 | An access token is refused for a revocation exactly when its login was ever revoked |
| `Simulation.KeysAreDisjoint` | src/token.rs:207-216 | No key is both live and spent |
| `Ledger.StepKeepsSound` | src/token.rs:167-244 | The clock-free invariant survives every call on every path, failing random source included |
| `Ledger.TrimKeepsComplete` | src/token.rs:110-116 | Dropping what is out of date leaves only facts forgotten that cannot matter again |
| `Ledger.ActiveIsLast` | src/token.rs:207-224 | A live token is the last one its login was given |
| `Ledger.AccessExpiryBound` | src/token.rs:312-313 | The rounded expiry of an access token never lies beyond the instant of minting plus `access_ttl` |
| `TokenStore.StepKeepsBound` | src/token.rs:188-217 | No call remembers more refresh tokens than the bound or adds more than one, for any clock reading |
| `TokenStore.FullLosesNothing` | src/token.rs:188-191 | A call refused as `Full` keeps every unexpired record, the presented one included, and adds none |
| `TokenService.TokenService.Refresh` | src/token.rs:180-225 | The method that changes the maps in place makes exactly the modelled refresh step |
| `TokenService.TokenService.Login` | src/token.rs:168-174 | Likewise for a login |
| `TokenService.TokenService.Revoke` | src/token.rs:228-244 | Likewise for a logout |
| `TokenService.TokenService.VerifyAccess` | src/token.rs:249-271 | The check reads the store only and answers as modelled |
| `TokenService.TokenService.MintAccess` | src/token.rs:312-326 | The buffer filled byte by byte is the payload format, and the token its encoding |
| `TokenService.TokenService.MakeRoom` | src/token.rs:273-281 | Sweeps only a full store, and reports room exactly when there is some |
| `TokenService.TokenService.Sweep` | src/token.rs:103-108 | Sweeps only when the interval has passed |
| `TokenService.TokenService.ForceSweep` | src/token.rs:110-116 | Leaves exactly the unexpired records and revocations |
| `TokenService.TokenService.RevokeFamily` | src/token.rs:118-121 | Removes the live records of one family and lists it |
| `TokenService.TokenService.IssuePair` | src/token.rs:284-310 | Files one record and hands out the pair, or changes nothing without random numbers |
| `TokenService.TokenService.constructor` | src/token.rs:153-165 | A new service is empty and due for a sweep one interval later |
| `AccessToken.OpenMint` | src/token.rs:312-326 | A minted token opens to exactly its family, expiry and user, for every user name |
| `AccessToken.MintOpen` | src/token.rs:249-261 | The only text that opens to a payload is the token minted for it |
| `AccessToken.MintInjective` | src/token.rs:312-326 | Different payloads never share a token |
| `AccessToken.TokenLayout` | src/token.rs:312-326 | A token is the encoded payload, a dot and the encoded tag; the payload is version, family, expiry and user name in this order |
| `AccessToken.ParsePayloadBytes` | src/token.rs:255-261 | Parsing undoes building a payload |
| `AccessToken.PayloadBytesOfParsed` | src/token.rs:255-261 | Building undoes parsing: no other bytes parse to that payload |
| `AccessToken.BigEndianRoundTrip` | src/token.rs:259-260 | Big-endian numbers survive the round trip |
| `Base64.UrlRoundTrip` | src/token.rs:321-325 | URL-safe decoding undoes encoding, and no encoding contains a dot |
| `Base64.UrlCanonical` | src/token.rs:251-252 | Only the encoding itself decodes |
| `Base64.StdRoundTrip` | src/auth.rs:122 | Padded decoding undoes encoding |
| `Base64.StdCanonical` | src/auth.rs:377 | Only the canonically padded encoding decodes |
| `Base64.AlphabetsExactly` | src/token.rs:321-325 | The two alphabets of RFC 4648, character by character |
| `Base64.Rfc4648Examples` | src/auth.rs:122 | Examples of section 10 of RFC 4648 |
| `Utf8.DecodeEncode` | src/token.rs:318 | Every string survives the trip through bytes |
| `Utf8.EncodeDecode` | src/token.rs:261 | What decodes is exactly the encoding of the result |
| `Utf8.DecodeAsciiSuffix` | src/client_addr.rs:141 | ASCII text appended to bytes can neither complete nor break a character before it |
| `RouterRuns.BearerDecision` | src/auth.rs:212-263 | Off the allow-list, a bearer token lets a user in if and only if it was minted for that user, is unexpired, its login was never revoked and the user is configured now, in every run mixing all requests and reloads |
| `RouterRuns.BasicDecision` | src/auth.rs:242-250 | A Basic header lets a user in if and only if it encodes a pair configured now |
| `RouterRuns.RemovedUserIsOut` | src/auth.rs:310-325 | While a user is missing from the configuration, neither password nor token lets them in, and they get no new pair |
| `Endpoints.LoginIsAnswered` | src/token_api.rs:78-91 | `POST /auth/token` with the header of a configured pair: a pair for that user with the token that was drawn, or the reason why not, by what happened before |
| `Endpoints.RefreshIsAnswered` | src/token_api.rs:92-113 | `POST /auth/refresh` with a bearer token: a pair for the user of a live, unexpired token who is configured now, or the reason why not |
| `Endpoints.LogoutRevokes` | src/token_api.rs:114-123 | `POST /auth/revoke` with a bearer token that is unexpired and live or spent ends its login; the answer is the same for any token |
| `Endpoints.LoggedOutForGood` | src/token_api.rs:114-123 | After it no access token of that login lets anybody in off the allow-list, and no refresh token of it gets a pair |
| `Endpoints.RefusedExactly` | src/token_api.rs:46-77 | Which requests are refused before the token service is asked, with which answer, and that they change nothing |
| `Endpoints.HandshakeExactly` | src/proxy.rs:100-142 | Who is let in is routed as the path says, and a refusal says whether a bearer token was presented |
| `Endpoints.AllowListIsOpen` | src/auth.rs:221-224 | A target on the allow-list is open to everybody, whatever they present |
| `Endpoints.LastCredentialsCount` | src/auth.rs:327-344 | Beside the fixed credentials the last file that could be put into force counts |
| `Endpoints.LastTargetsCount` | src/auth.rs:359-372 | Likewise for the allow-list |
| `RouterRuns.RemovalEndsTokenExactly` | src/auth.rs:310-317 | A refresh token that was live before its user was removed is exchanged when the user is back if and only if each time it was presented in between the answer was that there are too many logins; in every run mixing all requests and reloads |
| `RouterRuns.RemovedUserReturns` | src/auth.rs:327-344 | A concrete run: login, a reload without the user, a reload with them, and a refresh that is answered with a pair |
| `RouterRuns.AnonymousDialsStayOnTheList` | src/proxy.rs:100-142 | Whoever has no valid credentials and still reaches an upstream reaches a host and port on the allow-list of that moment, and never the health check |
| `RouterRuns.AcceptedBearerWasHandedOut` | src/token_api.rs:75-113 | A bearer token that lets a user in was handed to that user in an earlier answer of the token endpoints |
| `RouterRuns.MintedWasHandedOut` | src/token_api.rs:75-113 | Every signed payload left the router in an answer of the token endpoints |
| `RouterRuns.ReachableRouter` | src/auth.rs:327-372 | In every reachable state the credential list is the fixed list and the last file that loaded, never empty; likewise the allow-list; and the token store is one that a run of the token service reaches |
| `RouterRuns.VerifiedExactly` | src/auth.rs:320-325 | A token presented in a router run is judged as the ledger judges it |
| `Auth.BasicLoginIsExact` | src/auth.rs:295-308 | `basic_user` names a user if and only if the header encodes a configured `user:password`, and then `has_user` holds |
| `Auth.HasUserExactly` | src/auth.rs:311-317 | `has_user` holds exactly for the users of configured pairs |
| `Auth.UsernameOfEncoded` | src/auth.rs:375-385 | The username decoder never loses a configured credential |
| `Auth.EncodedOfUsername` | src/auth.rs:375-385 | A header that names a user is the encoding of a credential of that user |
| `Auth.ValidCredentialExactly` | src/auth.rs:196-209 | A credential is a user and a password around its first colon, neither empty |
| `Auth.BearerTokenExactly` | src/auth.rs:388-394 | A bearer header is the scheme in any case, a space, and a token that is not blank, without the whitespace around it |
| `Auth.EncodeCredentialExample` | src/auth.rs:122 | The header of one credential, letter by letter |
| `Auth.FilesExactly` | src/auth.rs:127-150 | A file stands for all the entries of its lines, or for nothing when one is bad |
| `Auth.EntriesExactly` | src/auth.rs:130-136 | The entries are the trimmed lines that are neither blank nor comments |
| `Auth.BasicIsNotBearer` | src/auth.rs:388-394 | A Basic header is never taken for a bearer token |
| `Auth.EncodeCredentials` | src/auth.rs:117-125 | Encodes all credentials, or fails exactly when one is not `USER:PASS` |
| `Auth.BuildMeans` | src/auth.rs:42-81 | A configuration that is built consists of the given credentials and targets and those of the files, with at least one credential |
| `Auth.BuildExactly` | src/auth.rs:42-81 | When a configuration is built: credentials are asked for, everything can be read, and at least one credential is there |
| `Auth.ReloadsExactly` | src/auth.rs:327-372 | What a reload reports, and that a file that loads comes into force |
| `Auth.ReloadAuthMeans` | src/auth.rs:327-344 | A reload leaves the fixed list and the last file that loaded; a failing one changes nothing |
| `Auth.ReloadTargetsMeans` | src/auth.rs:359-372 | Likewise for the allow-list |
| `Auth.AnonymousExactly` | src/auth.rs:346-357 | The list, compared as text, admits exactly the configured hosts and ports, for both protocols and any spelling of the port |
| `AuthConfig.AuthConfig.ReloadAuthFile` | src/auth.rs:327-344 | The method that replaces the list in place makes exactly the modelled reload |
| `AuthConfig.AuthConfig.ReloadAnonymousTargetFile` | src/auth.rs:359-372 | Likewise for the allow-list |
| `AuthConfig.AuthConfig.VerifyAccessToken` | src/auth.rs:320-325 | The user of a good token, if they still exist |
| `AuthConfig.AuthorizeRequest` | src/auth.rs:212-263 | The handler decides as modelled; without a configuration everybody is anonymous |
| `AuthConfig.HandleAuthRequest` | src/token_api.rs:36-125 | The dispatcher makes exactly the modelled step and answer; without a configuration there are no endpoints |
| `Target.ReparseAddr` | src/target.rs:16-82 | Printing an accepted target and parsing it again gives the same host and port |
| `Target.ParsedTargetReparses` | src/target.rs:26-41 | The same for a target parsed from a path |
| `Router.CaptureExactly` | src/proxy.rs:195-230 | `/tcp:` and `/udp:` select their protocol and the rest the host and port; `/` is the health check, and every other path a bad request |
| `Target.ParseTargetExactly` | src/target.rs:26-41 | A path is accepted as a target exactly when it is that protocol's prefix and a way to write that host and port |
| `Target.ParseHostPortExactly` | src/target.rs:54-82 | Exactly the two written forms are accepted, as the host and port that are written |
| `Target.ParsePortExactly` | src/target.rs:77-79 | A port is its decimal digits after any zeros and perhaps one plus sign, and nothing else |
| `Target.AddrInjective` | src/target.rs:16-19 | On parsed targets equal addresses mean equal host and port |
| `Target.SplitAgain` | src/target.rs:54-75 | A host that was split off is split off again, a bracketed one ending in `]` included |
| `Target.ParsePortOfDecimal` | src/target.rs:77-79 | A printed port parses to itself |
| `IpRange.ContainsIsLeadingBits` | src/client_addr.rs:38-55 | The shift-and-mask test asks for exactly the first `prefix` bits to agree, for both widths and every prefix |
| `IpRange.NestedOrDisjoint` | src/client_addr.rs:38-55 | Any two ranges are nested or share no address |
| `IpRange.MappedPeerMatches` | src/client_addr.rs:38-40 | An IPv4-mapped peer is in a range exactly when its IPv4 form is |
| `IpRange.CanonicalExactly` | src/client_addr.rs:40 | Exactly the addresses that map IPv4 into IPv6 are taken for the IPv4 address |
| `ClientAddr.TrustedExactly` | src/client_addr.rs:115-117 | An address is trusted if it agrees with some range in the leading bits |
| `IpRange.MaskValue` | src/client_addr.rs:42-44 | The shifted mask has exactly its high bits set, prefix 0 included |
| `IpRange.AndMask` | src/client_addr.rs:45 | Masking takes off the low bits and nothing else |
| `IpRange.ParseRangeExactly` | src/client_addr.rs:61-87 | Accepts exactly the canonical addresses that are written alone, as a range of one, or with a prefix length that fits, and as the range that is written |
| `ClientAddr.LeftEntriesCannotMatter` | src/client_addr.rs:149-165 | Whatever stands to the left of where the search stops cannot change the outcome |
| `ClientAddr.VouchedAddressIsSelected` | src/client_addr.rs:129-165 | In a parsed head, whatever lines and UTF-8 text stand before what our proxies wrote, the address they vouch for is selected |
| `ClientAddr.ChainVouches` | src/client_addr.rs:149-165 | A chain of proxies that appends one entry each vouches for the address the first of them saw |
| `ClientAddr.VouchedAddressExactly` | src/client_addr.rs:129-165 | For every chunking of the connection that address is selected, if and only if the text before it is UTF-8, the head ends within the limit and there are at most 64 headers |
| `ClientAddr.ShortHeadIsRead` | src/http_probe.rs:35-41 | A head within the limit is parsed whole, whatever the chunking |
| `ClientAddr.LongHeadCanBeCut` | src/http_probe.rs:35-41 | A longer one can be cut at the limit, and is then no request |
| `ClientAddr.LongHeadSelectsNothing` | src/client_addr.rs:129-134 | A head that is longer by a whole chunk is always cut, and nothing is selected |
| `ClientAddr.ReportConnection` | src/client_addr.rs:119-127 | A connection is reported with its peer; an address is added only for a trusted peer, the one in the head that was read ahead, and it is the one our proxies vouch for under the conditions of `VouchedAddressExactly` |
| `ClientAddr.InvalidLineDisappears` | src/client_addr.rs:141 | A line that is not UTF-8 is left out with everything on it, and the others are searched without it |
| `ClientAddr.InvalidByteHidesEntry` | src/client_addr.rs:141 | A concrete line for which nothing is selected |
| `ClientAddr.LinesJoin` | src/client_addr.rs:136-145 | Any number of header lines, among any other headers, are the same list as the comma join of their texts |
| `ClientAddr.SeveralLinesAreOne` | src/client_addr.rs:136-145 | Where they are all UTF-8, they are the same list as one line that holds their values with commas between |
| `ClientAddr.TextEntriesExactly` | src/client_addr.rs:142-144 | The entries are the trimmed pieces between commas that are not blank |
| `ClientAddr.AllTrustedGivesLeftmost` | src/client_addr.rs:162-164 | When every entry is a trusted proxy the leftmost is selected |
| `ClientAddr.SelectClientLoop` | src/client_addr.rs:155-165 | The loop answers with the rightmost entry that is no trusted proxy, or else the leftmost |
| `ClientAddr.ParseForwarded` | src/client_addr.rs:185-198 | Reads exactly the three forms, an address, one with a port and one in brackets, as the canonical form of an address it denotes |
| `ClientAddr.MappedPeerIsTrustedAlike` | src/client_addr.rs:120-127 | An IPv4-mapped peer's headers are read exactly when those of its IPv4 form are |
| `HttpProbe.ReadRequestHead` | src/http_probe.rs:28-44 | What is read ahead is a prefix of the stream shorter than the limit plus one chunk; it ends at the terminator, the end of the stream or the limit, and not one read later; nothing is read ahead only when a read failed |
| `HttpProbe.ReplayStream.PollRead` | src/http_probe.rs:146-159 | Each read delivers the next bytes of prefix and stream, none lost, repeated or reordered |
| `HttpProbe.ReadThenReplay` | src/proxy.rs:66-90 | For every chunking and all buffer sizes the consumer receives the original bytes; unless a read fails, buffers that have room get at least a byte each, and the end after one more than there are bytes |
| `Proxy.TcpSession.Forward` | src/proxy.rs:237-292 | The loop ends at the first event that ends it, for the outcome that event gives, and consumes nothing after it; until then, under every interleaving, the upstream gets the concatenated data payloads in order, the client the upstream's bytes in frames of 1 to `buffer_size`, pings are answered in order; after a failed write, a prefix of that |
| `Proxy.TcpSession.HandleMessage` | src/proxy.rs:251-274 | One websocket message, or the end of the client's stream: what each kind does to the session, the bytes it writes, which for a text read back as that text, and its answer |
| `Proxy.TcpSession.HandleUpstream` | src/proxy.rs:276-287 | One read from the upstream |
| `Proxy.UdpSession.Forward` | src/proxy.rs:294-351 | Messages and datagrams are one to one and in order up to the first event that ends the loop; the session closes for idleness only when for a full `idle_timeout` nothing was handled and, but for the runtime's lag, nothing had arrived on either side |
| `Proxy.UdpSession.Select` | src/proxy.rs:306-346 | A turn picks something that has arrived, or closes once its timers have run out and a side has nothing ready |
| `Proxy.UdpSession.HandleMessage` | src/proxy.rs:314-332 | The same with one datagram for each data message |
| `Proxy.UdpSession.HandleDatagram` | src/proxy.rs:334-346 | One datagram, or a receive that fails |
| `Proxy.UdpConserves` | src/proxy.rs:35-36 | What the UDP loop delivers are the datagrams and messages themselves, text as what reads back as that text, none cut, as no datagram that can be sent exceeds the receive buffer |
| `Proxy.TextsArrive` | src/proxy.rs:256-258 | Text sent in any number of messages reaches the upstream as bytes that read back as their concatenation |
| `Proxy.WentMeansEndedAt` | src/proxy.rs:249-289 | Which events end a session and how; none of them lies before the last event, and without one a write failed |
| `Proxy.RepliesConserve` | src/proxy.rs:251-287 | What any events send to the client carries the upstream's pieces and the answers to the pings, each once and in order |

## Left out

- TokenRuns.BoundedStore: counts refresh tokens only, because the list of revoked logins has no bound; the `RevokedList` rows say how long it gets.
- SHA-256, HMAC and the random source: assumed as described above.
- Reading the secret file and building the service from arguments (`src/token.rs:132-151`, `src/token.rs:329-341`).
- Parsing HTTP requests, the websocket handshake, TLS and sockets: the model starts from parsed paths, headers and messages.
- Parsing and printing of IP addresses: parameters of the model.
- A configuration without a token service: the source builds one only for its own tests.
- Option precedence and validation in `src/args.rs`, and `src/main.rs`.
- Log lines, challenge texts, JSON bodies and the writing of responses.
- The polling task behind reloads: a reload is a step given the file's contents, or that it cannot be read.
- Constant-time comparison of credentials: only its result is modelled, as a fold over all of them.
- A system clock before 1970, which the source reads as 0, and a monotonic clock that drifts from it.
- Overflow of clock arithmetic; the expiry of an access token wraps as a 64-bit sum does in a release build.
- The contents of close frames, and what the peers' sockets do with data after a session has ended.
- HttpProbe.ReadRequestHead: says nothing of a reader that never answers, because waiting is not part of the model.
