/** Credentials and the anonymous allow-list: Basic credentials (section 2 of RFC 7617), the Bearer
    scheme, and the two files that are reloaded while the router runs. */
module Auth {
  import opened Text
  import opened Target
  import Utf8
  import Base64

  // ----- credentials --------------------------------------------------------------------------

  /** `USER:PASS` with neither part empty; the password may contain colons. */
  predicate ValidCredential(c: string) {
    var parts := SplitOnce(c, ':');
    parts.Some? && parts.value.0 != "" && parts.value.1 != ""
  }

  /** A colon with something before it and something after it; the first one counts. */
  lemma ValidCredentialExactly(c: string)
    ensures ValidCredential(c) <==> exists i :: 0 < i < |c| - 1 && c[i] == ':' && ':' !in c[..i]
  {
    if ValidCredential(c) {
      var (user, password) := SplitOnce(c, ':').value;
      assert c[..|user|] == user && c[|user|] == ':';
    }
    if exists i :: 0 < i < |c| - 1 && c[i] == ':' && ':' !in c[..i] {
      var i :| 0 < i < |c| - 1 && c[i] == ':' && ':' !in c[..i];
      SplitOnceAt(c[..i], ':', c[i + 1..]);
      assert c == c[..i] + [':'] + c[i + 1..];
    }
  }

  function UserOf(c: string): string
    requires ValidCredential(c)
  {
    SplitOnce(c, ':').value.0
  }

  /** The `Authorization` header of a credential. */
  function EncodeCredential(c: string): string {
    "Basic " + Base64.StdEncode(Utf8.Encode(c))
  }

  /** The scheme of section 2 of RFC 7617, for the user `a` with the password `b`. */
  lemma EncodeCredentialExample()
    ensures EncodeCredential("a:b") == "Basic YTpi"
  {
    assert Utf8.Encode("") == [] && "b"[1..] == "" && ":b"[1..] == "b" && "a:b"[1..] == ":b";
    assert Utf8.Encode("b") == [98] && Utf8.Encode(":b") == [58, 98];
    assert Utf8.Encode("a:b") == [97, 58, 98];
    assert [97, 58, 98][3..] == [] && Base64.Sextets([97, 58, 98]) == [24, 19, 41, 34];
    assert Base64.ToChars(Base64.Standard, [24, 19, 41, 34]) == "YTpi";
  }

  function EncodeCredentials(cs: seq<string>): (r: Option<seq<string>>)
    ensures r.Some? <==> forall c :: c in cs ==> ValidCredential(c)
    ensures r.Some? ==> r.value == Encoded(cs)
  {
    if cs == [] then Some([])
    else if !ValidCredential(cs[0]) then None
    else match EncodeCredentials(cs[1..])
      case None => None
      case Some(rest) => Some([EncodeCredential(cs[0])] + rest)
  }

  function Encoded(cs: seq<string>): (r: seq<string>)
    ensures |r| == |cs|
    ensures forall i :: 0 <= i < |cs| ==> r[i] == EncodeCredential(cs[i])
  {
    if cs == [] then [] else [EncodeCredential(cs[0])] + Encoded(cs[1..])
  }

  lemma {:induction false} EncodedConcat(a: seq<string>, b: seq<string>)
    ensures Encoded(a + b) == Encoded(a) + Encoded(b)
  {
  }

  /** The user named by a Basic `Authorization` header. */
  function BasicUsername(authorization: string): Option<string> {
    match StripPrefix(authorization, "Basic ")
    case None => None
    case Some(encoded) =>
      match Base64.StdDecode(encoded)
      case None => None
      case Some(decoded) =>
        match Utf8.Decode(decoded)
        case None => None
        case Some(credential) =>
          match SplitOnce(credential, ':')
          case None => None
          case Some((username, _)) => if username == "" then None else Some(username)
  }

  /** The username decoder never loses a configured credential. */
  lemma UsernameOfEncoded(c: string)
    requires ValidCredential(c)
    ensures BasicUsername(EncodeCredential(c)) == Some(UserOf(c))
  {
    var a := EncodeCredential(c);
    assert a[|"Basic "|..] == Base64.StdEncode(Utf8.Encode(c));
    Base64.StdRoundTrip(Utf8.Encode(c));
    Utf8.DecodeEncode(c);
  }

  /** Conversely, a header that names a user is the encoding of exactly one credential. */
  lemma EncodedOfUsername(a: string) returns (c: string)
    requires BasicUsername(a).Some?
    ensures a == EncodeCredential(c) && SplitOnce(c, ':').Some?
    ensures BasicUsername(a) == Some(SplitOnce(c, ':').value.0)
  {
    var encoded := StripPrefix(a, "Basic ").value;
    var decoded := Base64.StdDecode(encoded).value;
    c := Utf8.Decode(decoded).value;
    Base64.StdCanonical(encoded);
    Utf8.EncodeDecode(decoded);
  }

  /** Every credential is looked at, whether or not one matched before. */
  function AnyMatch(expected: seq<string>, authorization: string, matched: bool): (r: bool)
    ensures r <==> matched || authorization in expected
  {
    if expected == [] then matched
    else AnyMatch(expected[1..], authorization, matched || authorization == expected[0])
  }

  function BasicUser(expected: seq<string>, authorization: string): Option<string> {
    if AnyMatch(expected, authorization, false) then BasicUsername(authorization) else None
  }

  predicate HasUser(expected: seq<string>, user: string) {
    exists a :: a in expected && BasicUsername(a) == Some(user)
  }

  predicate AllValid(cs: seq<string>) {
    forall c :: c in cs ==> ValidCredential(c)
  }

  /** `user` is in the configuration, with some password. */
  predicate Configured(cs: seq<string>, user: string) {
    exists c :: c in cs && ValidCredential(c) && UserOf(c) == user
  }

  lemma HasUserExactly(cs: seq<string>, user: string)
    requires AllValid(cs)
    ensures HasUser(Encoded(cs), user) <==> Configured(cs, user)
  {
    hide ValidCredential, UserOf, EncodeCredential, BasicUsername;
    if HasUser(Encoded(cs), user) {
      var a :| a in Encoded(cs) && BasicUsername(a) == Some(user);
      var i :| 0 <= i < |cs| && Encoded(cs)[i] == a;
      assert cs[i] in cs;
      UsernameOfEncoded(cs[i]);
    }
    if Configured(cs, user) {
      var c :| c in cs && ValidCredential(c) && UserOf(c) == user;
      var i :| 0 <= i < |cs| && cs[i] == c;
      UsernameOfEncoded(c);
      assert Encoded(cs)[i] in Encoded(cs);
    }
  }

  /** Basic login is exact: a header logs `user` in if and only if it encodes `user:password` for a
      configured pair. Then `user` also counts as an existing user. */
  lemma BasicLoginIsExact(cs: seq<string>, a: string, user: string)
    requires AllValid(cs)
    ensures BasicUser(Encoded(cs), a) == Some(user)
            <==> ':' !in user && exists password ::
                   user + ":" + password in cs && a == EncodeCredential(user + ":" + password)
    ensures BasicUser(Encoded(cs), a) == Some(user) ==> HasUser(Encoded(cs), user)
  {
    if BasicUser(Encoded(cs), a) == Some(user) {
      var i :| 0 <= i < |cs| && Encoded(cs)[i] == a;
      var c := cs[i];
      assert c in cs;
      UsernameOfEncoded(c);
      var password := SplitOnce(c, ':').value.1;
      assert c == user + ":" + password;
    }
    if ':' !in user && exists password ::
         user + ":" + password in cs && a == EncodeCredential(user + ":" + password) {
      var password :| user + ":" + password in cs && a == EncodeCredential(user + ":" + password);
      var c := user + ":" + password;
      SplitOnceAt(user, ':', password);
      UsernameOfEncoded(c);
      var i :| 0 <= i < |cs| && cs[i] == c;
      assert Encoded(cs)[i] in Encoded(cs);
    }
  }

  // ----- the Bearer scheme --------------------------------------------------------------------

  function BearerToken(authorization: string): (r: Option<string>)
    ensures r.Some? ==> r.value != "" && IsTrimmed(r.value)
  {
    match SplitOnce(authorization, ' ')
    case None => None
    case Some((scheme, token)) =>
      if EqIgnoreAsciiCase(scheme, "bearer") && Trim(token) != "" then Some(Trim(token)) else None
  }

  /** A bearer header is the scheme, in any case, a space, and a token that is not blank; whitespace
      around the token does not count. */
  lemma BearerTokenExactly(a: string, t: string)
    ensures BearerToken(a) == Some(t) <==>
              t != "" && exists i :: 0 <= i < |a| && a[i] == ' ' && ' ' !in a[..i]
                           && EqIgnoreAsciiCase(a[..i], "bearer") && Trim(a[i + 1..]) == t
  {
    hide Trim, EqIgnoreAsciiCase;
    if BearerToken(a) == Some(t) {
      var (scheme, token) := SplitOnce(a, ' ').value;
      assert a[..|scheme|] == scheme && a[|scheme| + 1..] == token;
    }
    forall i | 0 <= i < |a| && a[i] == ' ' && ' ' !in a[..i]
      ensures SplitOnce(a, ' ') == Some((a[..i], a[i + 1..]))
    {
      SplitOnceAt(a[..i], ' ', a[i + 1..]);
      assert a == a[..i] + [' '] + a[i + 1..];
    }
  }

  lemma BasicIsNotBearer(rest: string)
    ensures BearerToken("Basic " + rest) == None
  {
    assert "Basic " + rest == "Basic" + [' '] + rest;
    SplitOnceAt("Basic", ' ', rest);
    assert AsciiLower("Basic"[1]) != AsciiLower("bearer"[1]);
  }

  // ----- the two files ------------------------------------------------------------------------

  /** The lines that count: trimmed, not empty, not a comment. Trimming also takes off the carriage
      return that a line may end in. */
  function Entries(lines: seq<string>): (r: seq<string>)
    ensures forall e :: e in r ==> e != ""
  {
    if lines == [] then []
    else
      var e := Trim(lines[0]);
      (if e == "" || e[0] == '#' then [] else [e]) + Entries(lines[1..])
  }

  lemma {:induction false} EntriesConcat(a: seq<string>, b: seq<string>)
    ensures Entries(a + b) == Entries(a) + Entries(b)
  {
    hide Trim;
    if a == [] {
      assert a + b == b;
    } else {
      assert (a + b)[1..] == a[1..] + b;
      EntriesConcat(a[1..], b);
    }
  }

  /** The entries are the trimmed lines that are neither blank nor comments, in order (`EntriesConcat`). */
  lemma {:induction false} EntriesExactly(lines: seq<string>, e: string)
    ensures e in Entries(lines) <==>
              e != "" && e[0] != '#' && exists i :: 0 <= i < |lines| && Trim(lines[i]) == e
    ensures |Entries(lines)| <= |lines|
  {
    hide Trim;
    if lines != [] {
      EntriesExactly(lines[1..], e);
      if e != "" && e[0] != '#' && exists i :: 0 <= i < |lines| && Trim(lines[i]) == e {
        var i :| 0 <= i < |lines| && Trim(lines[i]) == e;
        assert i > 0 ==> lines[i] == lines[1..][i - 1];
      }
      if e in Entries(lines[1..]) {
        var i :| 0 <= i < |lines[1..]| && Trim(lines[1..][i]) == e;
        assert lines[i + 1] == lines[1..][i];
      }
    }
  }

  /** The credentials in a file; `None` when it cannot be read or one line is no credential. */
  function LoadCredentials(file: Option<string>): (r: Option<seq<string>>)
    ensures r.Some? ==> AllValid(r.value)
  {
    match file
    case None => None
    case Some(text) =>
      var entries := Entries(Split(text, '\n'));
      if EncodeCredentials(entries).None? then None else Some(entries)
  }

  predicate ValidTarget(t: string) { ParseTargetAddr(t).Some? }

  function Normalized(t: string): string
    requires ValidTarget(t)
  {
    ParseTargetAddr(t).value.Addr()
  }

  function Addrs(ts: seq<string>): (r: seq<string>)
    requires forall t :: t in ts ==> ValidTarget(t)
    ensures |r| == |ts| && forall i :: 0 <= i < |ts| ==> r[i] == Normalized(ts[i])
  {
    if ts == [] then [] else [Normalized(ts[0])] + Addrs(ts[1..])
  }

  predicate AllTargetsValid(ts: seq<string>) { forall t :: t in ts ==> ValidTarget(t) }

  function LoadTargets(file: Option<string>): (r: Option<seq<string>>)
    ensures r.Some? ==> AllTargetsValid(r.value)
  {
    match file
    case None => None
    case Some(text) =>
      var entries := Entries(Split(text, '\n'));
      if AllTargetsValid(entries) then Some(entries) else None
  }

  /** What the lines of a file stand for: all their entries, or nothing when one of them is bad. */
  lemma FilesExactly(lines: seq<string>)
    requires lines != [] && forall l :: l in lines ==> '\n' !in l
    ensures var text, entries := Joined(lines, '\n'), Entries(lines);
            && LoadCredentials(Some(text)) == (if AllValid(entries) then Some(entries) else None)
            && LoadTargets(Some(text)) == (if AllTargetsValid(entries) then Some(entries) else None)
    ensures LoadCredentials(None) == None && LoadTargets(None) == None
  {
    hide Entries, Trim, ValidCredential, ValidTarget, Joined;
    SplitOfJoined(lines, '\n');
  }

  // ----- the state that reloads change --------------------------------------------------------

  datatype Settings = Settings(
    fixed: seq<string>,           // encoded credentials from the command line
    expected: seq<string>,        // all encoded credentials
    fixedTargets: seq<string>,
    targets: seq<string>)         // all anonymous addresses

  datatype ReloadResult = Changed | Unchanged | Failed

  function ReloadAuth(s: Settings, file: Option<string>): (Settings, ReloadResult) {
    match LoadCredentials(file)
    case None => (s, Failed)
    case Some(entries) =>
      var next := s.fixed + Encoded(entries);
      if next == [] then (s, Failed)
      else if next == s.expected then (s, Unchanged)
      else (s.(expected := next), Changed)
  }

  function ReloadTargets(s: Settings, file: Option<string>): (Settings, ReloadResult) {
    match LoadTargets(file)
    case None => (s, Failed)
    case Some(entries) =>
      var next := s.fixedTargets + Addrs(entries);
      if next == s.targets then (s, Unchanged) else (s.(targets := next), Changed)
  }

  datatype Build = Disabled | Refused | Enabled(settings: Settings)

  /** `build_auth_config`. A file is `None` when none is configured, else its contents or `None` when
      it cannot be read. */
  function BuildSettings(basicAuth: seq<string>, authFile: Option<Option<string>>,
                         anonymous: seq<string>, anonymousFile: Option<Option<string>>): Build {
    if basicAuth == [] && authFile.None? then Disabled
    else
      var fromFile := if authFile.None? then Some([]) else LoadCredentials(authFile.value);
      var moreTargets := if anonymousFile.None? then Some([]) else LoadTargets(anonymousFile.value);
      if EncodeCredentials(basicAuth).None? || fromFile.None? || basicAuth + fromFile.value == []
         || !AllTargetsValid(anonymous) || moreTargets.None?
      then Refused
      else
        Enabled(Settings(Encoded(basicAuth), Encoded(basicAuth) + Encoded(fromFile.value),
                         Addrs(anonymous), Addrs(anonymous) + Addrs(moreTargets.value)))
  }

  /** What the configuration means: the fixed credentials and targets, and those of the files as last
      loaded with success. */
  datatype Meaning = Meaning(
    fixed: seq<string>, loaded: seq<string>, fixedTargets: seq<string>, loadedTargets: seq<string>)
  {
    function Credentials(): seq<string> { fixed + loaded }
    function Targets(): seq<string> { fixedTargets + loadedTargets }
  }

  /** The lists in use are exactly the configured ones, and there is always a credential. */
  ghost predicate Means(s: Settings, m: Meaning) {
    && AllValid(m.Credentials()) && m.Credentials() != []
    && s.fixed == Encoded(m.fixed) && s.expected == Encoded(m.Credentials())
    && AllTargetsValid(m.Targets())
    && AllTargetsValid(m.fixedTargets) && s.fixedTargets == Addrs(m.fixedTargets)
    && s.targets == Addrs(m.Targets())
  }

  function AfterReloadAuth(m: Meaning, file: Option<string>): Meaning {
    match LoadCredentials(file)
    case None => m
    case Some(entries) => if m.fixed + entries == [] then m else m.(loaded := entries)
  }

  function AfterReloadTargets(m: Meaning, file: Option<string>): Meaning {
    match LoadTargets(file)
    case None => m
    case Some(entries) => m.(loadedTargets := entries)
  }

  lemma AddrsConcat(a: seq<string>, b: seq<string>)
    requires AllTargetsValid(a) && AllTargetsValid(b)
    ensures AllTargetsValid(a + b) && Addrs(a + b) == Addrs(a) + Addrs(b)
  {
    hide ValidTarget, Normalized;
  }

  lemma ListsMean(m: Meaning)
    requires AllValid(m.fixed) && AllValid(m.loaded) && m.Credentials() != []
    requires AllTargetsValid(m.fixedTargets) && AllTargetsValid(m.loadedTargets)
    ensures Means(Settings(Encoded(m.fixed), Encoded(m.fixed) + Encoded(m.loaded),
                           Addrs(m.fixedTargets), Addrs(m.fixedTargets) + Addrs(m.loadedTargets)), m)
  {
    hide ValidTarget, ValidCredential, Normalized;
    EncodedConcat(m.fixed, m.loaded);
    AddrsConcat(m.fixedTargets, m.loadedTargets);
  }

  lemma BuildMeans(basicAuth: seq<string>, authFile: Option<Option<string>>,
                   anonymous: seq<string>, anonymousFile: Option<Option<string>>)
    returns (m: Meaning)
    requires BuildSettings(basicAuth, authFile, anonymous, anonymousFile).Enabled?
    ensures m.fixed == basicAuth && m.fixedTargets == anonymous
    ensures Means(BuildSettings(basicAuth, authFile, anonymous, anonymousFile).settings, m)
  {
    var loaded := if authFile.None? then [] else LoadCredentials(authFile.value).value;
    var targets := if anonymousFile.None? then [] else LoadTargets(anonymousFile.value).value;
    hide ValidTarget, ValidCredential, Normalized, Means;
    m := Meaning(basicAuth, loaded, anonymous, targets);
    ListsMean(m);
  }

  /** Reloading keeps the lists exact: the fixed list and then the last file that loaded. A file that
      cannot be read, holds a bad line or would leave no credential changes nothing. */
  lemma ReloadAuthMeans(s: Settings, m: Meaning, file: Option<string>)
    requires Means(s, m)
    ensures Means(ReloadAuth(s, file).0, AfterReloadAuth(m, file))
    ensures ReloadAuth(s, file).1.Failed? ==> AfterReloadAuth(m, file) == m
  {
    hide ValidTarget, ValidCredential, Normalized, LoadCredentials, EncodeCredential;
    if LoadCredentials(file).Some? {
      EncodedConcat(m.fixed, LoadCredentials(file).value);
    }
  }

  lemma ReloadTargetsMeans(s: Settings, m: Meaning, file: Option<string>)
    requires Means(s, m)
    ensures Means(ReloadTargets(s, file).0, AfterReloadTargets(m, file))
    ensures ReloadTargets(s, file).1.Failed? ==> AfterReloadTargets(m, file) == m
  {
    hide ValidTarget, ValidCredential, Normalized, LoadTargets, EncodeCredential;
    if LoadTargets(file).Some? {
      AddrsConcat(m.fixedTargets, LoadTargets(file).value);
    }
  }

  /** When a configuration is built, and when the router refuses to start: Basic authentication is
      asked for, and every credential and target there is can be read, with at least one credential. */
  lemma BuildExactly(basicAuth: seq<string>, authFile: Option<Option<string>>,
                     anonymous: seq<string>, anonymousFile: Option<Option<string>>)
    ensures var build := BuildSettings(basicAuth, authFile, anonymous, anonymousFile);
            && (build.Disabled? <==> basicAuth == [] && authFile.None?)
            && (build.Enabled? <==>
                  && AllValid(basicAuth) && AllTargetsValid(anonymous)
                  && (authFile.Some? ==> LoadCredentials(authFile.value).Some?)
                  && (anonymousFile.Some? ==> LoadTargets(anonymousFile.value).Some?)
                  && (basicAuth != [] || (authFile.Some? && LoadCredentials(authFile.value).value != [])))
  {
    hide ValidCredential, ValidTarget, LoadCredentials, LoadTargets, Encoded, Addrs;
  }

  /** What a reload reports, and that it puts a file that loads into force. */
  lemma ReloadsExactly(s: Settings, file: Option<string>)
    ensures var (s', r) := ReloadAuth(s, file);
            && (r.Failed? <==> LoadCredentials(file).None? || s.fixed + LoadCredentials(file).value == [])
            && (r.Changed? <==> s' != s)
            && (!r.Failed? ==> s'.expected == s.fixed + Encoded(LoadCredentials(file).value))
    ensures var (s', r) := ReloadTargets(s, file);
            && (r.Failed? <==> LoadTargets(file).None?)
            && (r.Changed? <==> s' != s)
            && (!r.Failed? ==> s'.targets == s.fixedTargets + Addrs(LoadTargets(file).value))
  {
    hide LoadCredentials, LoadTargets;
  }

  // ----- anonymous targets --------------------------------------------------------------------

  predicate AllowsAnonymous(targets: seq<string>, path: string) {
    match ParseTarget(path)
    case None => false
    case Some(target) => target.Addr() in targets
  }

  /** The allow-list, compared as text, admits exactly the hosts and ports that were configured,
      whatever the spelling of the ports and for both protocols. */
  lemma AnonymousExactly(m: Meaning, path: string)
    requires AllTargetsValid(m.Targets())
    ensures AllowsAnonymous(Addrs(m.Targets()), path)
            <==> ParseTarget(path).Some? && exists t ::
                   t in m.Targets()
                   && ParseHostPort(t) == Some((ParseTarget(path).value.host, ParseTarget(path).value.port))
  {
    hide ParseHostPort, Decimal;
    var ts := m.Targets();
    if ParseTarget(path).Some? {
      var target := ParseTarget(path).value;
      if target.Addr() in Addrs(ts) {
        var i :| 0 <= i < |ts| && Addrs(ts)[i] == target.Addr();
        assert ts[i] in ts;
        AddrInjective(ts[i], path[5..]);
      }
      if exists t :: t in ts && ParseHostPort(t) == Some((target.host, target.port)) {
        var t :| t in ts && ParseHostPort(t) == Some((target.host, target.port));
        var i :| 0 <= i < |ts| && ts[i] == t;
        assert Addrs(ts)[i] == target.Addr();
      }
    }
  }

  /** The health check path is never anonymous, whatever the list holds. */
  lemma RootIsNeverAnonymous(targets: seq<string>)
    ensures !AllowsAnonymous(targets, "/")
  {
  }
}
