/** The service object: the store's maps, changed in place. Each method is proved to make the step
    of `TokenStore` that the runs are made of. */
module TokenService {
  import opened Text
  import opened AccessToken
  import opened TokenStore
  import Base64
  import Utf8

  class TokenService {
    const cfg: Config
    var refresh: map<Hash, RefreshRecord>
    var spent: map<Hash, SpentRecord>
    var revoked: map<u64, Instant>
    var nextSweep: Instant

    ghost function View(): Store
      reads this
    {
      Store(refresh, spent, revoked, nextSweep)
    }

    constructor (cfg: Config, now: Instant)
      ensures View() == EmptyStore(now) && this.cfg == cfg
    {
      this.cfg := cfg;
      refresh, spent, revoked := map[], map[], map[];
      nextSweep := now + SWEEP_INTERVAL;
    }

    method ForceSweep(now: Instant)
      modifies this
      ensures View() == ForceSwept(old(View()), now)
    {
      refresh := map h | h in refresh && now < refresh[h].expires && now < refresh[h].familyDeadline
        :: refresh[h];
      spent := map h | h in spent && now < spent[h].expires :: spent[h];
      revoked := map f | f in revoked && now < revoked[f] :: revoked[f];
      nextSweep := now + SWEEP_INTERVAL;
    }

    method Sweep(now: Instant)
      modifies this
      ensures View() == Swept(old(View()), now)
    {
      if now < nextSweep {
        return;
      }
      ForceSweep(now);
    }

    method RevokeFamily(family: u64, now: Instant)
      modifies this
      ensures View() == FamilyRevoked(cfg, old(View()), family, now)
    {
      refresh := map h | h in refresh && refresh[h].family != family :: refresh[h];
      revoked := revoked[family := now + cfg.accessTtl];
    }

    /** Sweeps a full store; reports whether there is room then. */
    method MakeRoom(now: Instant) returns (room: bool)
      modifies this
      ensures View() == RoomMade(old(View()), now)
      ensures room <==> View().Count() < MAX_RECORDS
    {
      room := true;
      if |refresh| + |spent| >= MAX_RECORDS {
        ForceSweep(now);
        if |refresh| + |spent| >= MAX_RECORDS {
          room := false;
        }
      }
    }

    method IssuePair(family: u64, user: string, now: Instant, familyDeadline: Instant,
                     drawn: Option<string>) returns (a: Answer)
      modifies this
      ensures (View(), a) == Issue(cfg, old(View()), family, user, now, familyDeadline, drawn)
    {
      if drawn.None? {
        return Refused(Random);
      }
      var token := drawn.value;
      var expires := cfg.RefreshExpiry(now, familyDeadline);
      refresh := refresh[cfg.hash(token) := RefreshRecord(family, user, expires, familyDeadline)];
      var accessToken := MintAccess(family, user, now);
      a := Granted(user, IssuedTokens(
        accessToken,
        cfg.accessTtl / SECOND,
        token,
        (if expires >= now then expires - now else 0) / SECOND));
    }

    /** Builds the payload byte by byte, as `PayloadBytes` says it should be, and signs it. */
    method MintAccess(family: u64, user: string, now: Instant) returns (token: string)
      ensures token == Mint(cfg.sign, Payload(family, cfg.AccessExpiry(now), user))
    {
      var payload: seq<byte> := [];
      payload := payload + [ACCESS_TOKEN_VERSION];
      payload := payload + BigEndian(family, 8);
      payload := payload + BigEndian(cfg.AccessExpiry(now), 8);
      payload := payload + Utf8.Encode(user);
      assert payload == PayloadBytes(Payload(family, cfg.AccessExpiry(now), user));
      token := Base64.UrlEncode(payload) + "." + Base64.UrlEncode(cfg.sign(payload));
    }

    /** A new family with its first pair; the caller vouches for `user`. */
    method Login(user: string, now: Instant, family: Option<u64>, drawn: Option<string>)
      returns (a: Answer)
      modifies this
      ensures (View(), a) == Step(cfg, old(View()), now, Event.Login(user, family, drawn))
    {
      if family.None? {
        return Refused(Random);
      }
      var room := MakeRoom(now);
      if !room {
        return Refused(Full);
      }
      a := IssuePair(family.value, user, now, now + MAX_FAMILY_LIFETIME, drawn);
    }

    /** Rotation: a live token becomes spent and a new pair takes its place. */
    method Refresh(token: string, userExists: string -> bool, now: Instant, drawn: Option<string>)
      returns (a: Answer)
      modifies this
      ensures (View(), a) == Step(cfg, old(View()), now, Event.Refresh(token, userExists, drawn))
    {
      var h := cfg.hash(token);
      Sweep(now);
      var room := MakeRoom(now);
      if !room {
        return Refused(Full);
      }
      if h !in refresh {
        if h in spent && now < spent[h].expires {
          var family, user := spent[h].family, spent[h].user;
          RevokeFamily(family, now);
          return Refused(Reused(user));
        }
        return Refused(Invalid);
      }
      var record := refresh[h];
      refresh := refresh - {h};
      if now >= record.expires || now >= record.familyDeadline || !userExists(record.user) {
        return Refused(Invalid);
      }
      spent := spent[h := SpentRecord(record.family, record.user, record.expires)];
      a := IssuePair(record.family, record.user, now, record.familyDeadline, drawn);
    }

    /** Ends the family of a token that is on file, live or spent; `known` says whether it was. */
    method Revoke(token: string, now: Instant) returns (known: bool)
      modifies this
      ensures (View(), Revoked(known)) == Step(cfg, old(View()), now, Event.Revoke(token))
    {
      var h := cfg.hash(token);
      var family: Option<u64> := None;
      if h in refresh {
        family := Some(refresh[h].family);
      } else if h in spent {
        family := Some(spent[h].family);
      }
      match family {
        case Some(f) =>
          RevokeFamily(f, now);
          known := true;
        case None =>
          known := false;
      }
    }

    /** The user an access token stands for, if it is good; reads the store and changes nothing. */
    method VerifyAccess(token: string, now: Instant) returns (user: Option<string>)
      ensures user == VerifyAnswer(cfg, View(), now, token)
    {
      var parts := SplitOnce(token, '.');
      if parts.None? {
        return None;
      }
      var payload, tag := Base64.UrlDecode(parts.value.0), Base64.UrlDecode(parts.value.1);
      if payload.None? || tag.None? || tag.value != cfg.sign(payload.value) {
        return None;
      }
      var p := ParsePayload(payload.value);
      if p.None? || cfg.Unix(now) >= p.value.expires {
        return None;
      }
      if p.value.family in revoked {
        return None;
      }
      user := Some(p.value.user);
    }
  }
}
