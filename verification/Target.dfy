/** Upstream targets: parsing `/tcp:<host>:<port>` and `<host>:<port>`, and printing them again. */
module Target {
  import opened Text

  datatype Protocol = Tcp | Udp

  type u16 = x: int | 0 <= x < 65536

  datatype Target = Target(protocol: Protocol, host: string, port: u16)
  {
    function Addr(): string { host + ":" + Decimal(port) }
  }

  // ----- port numbers -------------------------------------------------------------------------

  predicate IsDigit(c: char) { '0' <= c <= '9' }

  function Decimal(n: nat): (s: string)
    ensures s != "" && forall c :: c in s ==> IsDigit(c)
  {
    var last := [(n % 10 + 48) as char];
    if n < 10 then last else Decimal(n / 10) + last
  }

  function DigitsValue(s: string): Option<nat> {
    if s == "" then Some(0)
    else
      var c := s[|s| - 1];
      match DigitsValue(s[..|s| - 1])
      case Some(v) => if IsDigit(c) then Some(10 * v + (c as int - 48)) else None
      case None => None
  }

  /** `str::parse::<u16>`: a leading `+` and leading zeros are accepted, a `-` and overflow are not. */
  function ParsePort(s: string): Option<u16> {
    var digits := if s != "" && s[0] == '+' then s[1..] else s;
    if digits == "" then None
    else match DigitsValue(digits)
      case Some(v) => if v < 65536 then Some(v) else None
      case None => None
  }

  lemma {:induction false} DigitsOfDecimal(n: nat)
    ensures DigitsValue(Decimal(n)) == Some(n)
  {
    var s := Decimal(n);
    var last := (n % 10 + 48) as char;
    if n < 10 {
      assert s[..0] == "" && s[0] == last;
      assert DigitsValue("") == Some(0);
    } else {
      DigitsOfDecimal(n / 10);
      assert s[..|s| - 1] == Decimal(n / 10) && s[|s| - 1] == last;
    }
  }

  lemma ParsePortOfDecimal(n: u16)
    ensures ParsePort(Decimal(n)) == Some(n)
  {
    DigitsOfDecimal(n);
    assert Decimal(n)[0] in Decimal(n);
  }

  predicate AllZeros(s: string) { forall c :: c in s ==> c == '0' }

  lemma {:induction false} ZerosBefore(zeros: string, s: string)
    requires AllZeros(zeros)
    ensures DigitsValue(zeros + s) == DigitsValue(s)
    decreases |zeros| + |s|
  {
    if s != "" {
      assert (zeros + s)[..|zeros + s| - 1] == zeros + s[..|s| - 1];
      ZerosBefore(zeros, s[..|s| - 1]);
    } else if zeros != "" {
      var front := zeros[..|zeros| - 1];
      assert zeros + s == zeros && zeros[|zeros| - 1] in zeros;
      forall c | c in front ensures c in zeros {
      }
      assert front + "" == front;
      ZerosBefore(front, "");
    }
  }

  lemma {:induction false} DigitsAreDecimal(s: string) returns (zeros: string)
    requires s != "" && DigitsValue(s).Some?
    ensures AllZeros(zeros) && s == zeros + Decimal(DigitsValue(s).value)
  {
    var front, c := s[..|s| - 1], s[|s| - 1];
    var v := DigitsValue(front).value;
    if front == "" {
      zeros := "";
    } else {
      zeros := DigitsAreDecimal(front);
      if v == 0 {
        zeros := zeros + "0";
        assert Decimal(0) == "0";
      }
    }
    assert s == front + [c];
  }

  /** A port is written as its decimal digits, after any zeros and perhaps one plus sign, and in no
      other way. */
  predicate WritesPort(s: string, n: u16) {
    exists k :: 0 <= k <= |s| && s[k..] == Decimal(n)
                && (AllZeros(s[..k]) || (k > 0 && s[0] == '+' && AllZeros(s[1..k])))
  }

  lemma ParsedIsWritten(s: string, n: u16)
    requires ParsePort(s) == Some(n)
    ensures WritesPort(s, n)
  {
    hide DigitsValue, Decimal;
    var plus := s[0] == '+';
    var digits := if plus then s[1..] else s;
    var zeros := DigitsAreDecimal(digits);
    var k := if plus then 1 + |zeros| else |zeros|;
    assert s[k..] == Decimal(n);
    assert (if plus then s[1..k] else s[..k]) == zeros;
  }

  lemma ZerosAndDecimal(s: string, k: nat, n: nat)
    requires k <= |s| && AllZeros(s[..k]) && s[k..] == Decimal(n)
    ensures DigitsValue(s) == Some(n) && s != "" && s[0] != '+'
  {
    hide DigitsValue, Decimal;
    DigitsOfDecimal(n);
    ZerosBefore(s[..k], s[k..]);
    assert s == s[..k] + s[k..];
    if k > 0 {
      assert s[0] == s[..k][0] && s[..k][0] in s[..k];
    } else {
      assert s[0] == Decimal(n)[0] && Decimal(n)[0] in Decimal(n);
    }
  }

  lemma WrittenIsParsed(s: string, n: u16)
    requires WritesPort(s, n)
    ensures ParsePort(s) == Some(n)
  {
    hide DigitsValue, Decimal, AllZeros;
    var k :| 0 <= k <= |s| && s[k..] == Decimal(n)
             && (AllZeros(s[..k]) || (k > 0 && s[0] == '+' && AllZeros(s[1..k])));
    if AllZeros(s[..k]) {
      ZerosAndDecimal(s, k, n);
    } else {
      var digits := s[1..];
      assert digits[..k - 1] == s[1..k] && digits[k - 1..] == s[k..];
      ZerosAndDecimal(digits, k - 1, n);
    }
  }

  lemma ParsePortExactly(s: string, n: u16)
    ensures ParsePort(s) == Some(n) <==> WritesPort(s, n)
  {
    hide ParsePort, WritesPort;
    if ParsePort(s) == Some(n) {
      ParsedIsWritten(s, n);
    }
    if WritesPort(s, n) {
      WrittenIsParsed(s, n);
    }
  }

  // ----- hosts --------------------------------------------------------------------------------

  /** Position of the first `]:`, or `|s|` when there is none. */
  function BracketEnd(s: string): (i: nat)
    ensures i < |s| ==> i + 1 < |s| && s[i] == ']' && s[i + 1] == ':'
    ensures forall k :: 0 <= k < i && k + 1 < |s| ==> !(s[k] == ']' && s[k + 1] == ':')
    ensures i <= |s|
  {
    if |s| < 2 then |s|
    else if s[0] == ']' && s[1] == ':' then 0
    else 1 + BracketEnd(s[1..])
  }

  /** The host, brackets included, and the text of the port. */
  function SplitHostPort(target: string): Option<(string, string)> {
    if target != "" && target[0] == '[' then
      var rest := target[1..];
      var i := BracketEnd(rest);
      if i == |rest| || i == 0 then None
      else Some(("[" + rest[..i] + "]", rest[i + 2..]))
    else
      match RSplitOnce(target, ':')
      case None => None
      case Some((host, port)) => if ':' in host || host == "" then None else Some((host, port))
  }

  function ParseHostPort(target: string): Option<(string, u16)> {
    match SplitHostPort(target)
    case None => None
    case Some((host, port)) =>
      match ParsePort(port)
      case None => None
      case Some(p) => Some((host, p))
  }

  /** The two ways to write an upstream: a host without colons that does not begin with a bracket, or one
      in brackets, which ends at the first `]:`; then a colon and the port. */
  predicate WritesHostPort(target: string, host: string, port: u16) {
    && |host| < |target| && target[..|host|] == host && target[|host|] == ':'
    && WritesPort(target[|host| + 1..], port)
    && if target[0] == '[' then
         && |host| >= 3 && host[|host| - 1] == ']'
         && (forall k :: 1 <= k < |host| - 1 ==> !(target[k] == ']' && target[k + 1] == ':'))
       else host != "" && ':' !in host && ':' !in target[|host| + 1..]
  }

  lemma PortHasNoColon(s: string, n: u16)
    requires WritesPort(s, n)
    ensures ':' !in s
  {
    var k :| 0 <= k <= |s| && s[k..] == Decimal(n)
             && (AllZeros(s[..k]) || (k > 0 && s[0] == '+' && AllZeros(s[1..k])));
    forall i | 0 <= i < |s| ensures s[i] != ':' {
      if i >= k {
        assert s[i] == s[k..][i - k] && s[i] in s[k..];
      } else if AllZeros(s[..k]) {
        assert s[i] == s[..k][i] && s[i] in s[..k];
      } else if i > 0 {
        assert s[i] == s[1..k][i - 1] && s[i] in s[1..k];
      }
    }
  }

  /** Exactly these are accepted, as the host and port that are written. */
  lemma ParseHostPortExactly(target: string, host: string, port: u16)
    ensures ParseHostPort(target) == Some((host, port)) <==> WritesHostPort(target, host, port)
  {
    hide ParsePort, WritesPort;
    if ParseHostPort(target) == Some((host, port)) {
      var text := SplitHostPort(target).value.1;
      ParsePortExactly(text, port);
      SplitMeans(target);
      assert target[|host| + 1..] == text;
    }
    if WritesHostPort(target, host, port) {
      var text := target[|host| + 1..];
      ParsePortExactly(text, port);
      PortHasNoColon(text, port);
      assert target == host + ":" + text;
      SplitOfWritten(target, host, text);
    }
  }

  lemma SplitMeans(target: string)
    requires SplitHostPort(target).Some?
    ensures var (host, text) := SplitHostPort(target).value;
            && target == host + ":" + text && host != ""
            && if target[0] == '[' then
                 && |host| >= 3 && host[|host| - 1] == ']'
                 && (forall k :: 1 <= k < |host| - 1 ==> !(target[k] == ']' && target[k + 1] == ':'))
               else ':' !in host && ':' !in text
  {
    if target[0] == '[' {
      var rest := target[1..];
      assert forall k :: 1 <= k < |target| ==> target[k] == rest[k - 1];
    }
  }

  lemma SplitOfWritten(target: string, host: string, text: string)
    requires target == host + ":" + text && host != "" && ':' !in text
    requires if target[0] == '[' then
               && |host| >= 3 && host[|host| - 1] == ']'
               && (forall k :: 1 <= k < |host| - 1 ==> !(target[k] == ']' && target[k + 1] == ':'))
             else ':' !in host
    ensures SplitHostPort(target) == Some((host, text))
  {
    if target[0] == '[' {
      var rest := target[1..];
      assert forall k :: 1 <= k < |target| ==> target[k] == rest[k - 1];
      var i := |host| - 2;
      assert rest[i] == target[i + 1] == host[i + 1] && rest[i + 1] == target[i + 2];
      assert BracketEnd(rest) == i;
      assert rest[..i] == host[1..|host| - 1] && rest[i + 2..] == text;
      assert "[" + rest[..i] + "]" == host;
    } else {
      RSplitOnceAt(host, ':', text);
    }
  }

  function ParseTarget(path: string): Option<Target> {
    var protocol := if StartsWith(path, "/tcp:") then Some(Tcp)
                    else if StartsWith(path, "/udp:") then Some(Udp) else None;
    match protocol
    case None => None
    case Some(protocol) =>
      match ParseHostPort(path[5..])
      case None => None
      case Some((host, port)) => Some(Target(protocol, host, port))
  }

  /** An entry of the allow-list. The protocol is a placeholder: entries match by address only. */
  function ParseTargetAddr(target: string): Option<Target> {
    match ParseHostPort(target)
    case None => None
    case Some((host, port)) => Some(Target(Tcp, host, port))
  }

  // ----- printing and parsing again -----------------------------------------------------------

  /** A host that was split off is split off again in front of any port without a colon. In brackets
      the first `]:` cannot straddle the old end: a host ending in `]` puts `]]:` there. */
  lemma SplitAgain(target: string, port: string)
    requires SplitHostPort(target).Some? && ':' !in port
    ensures var host := SplitHostPort(target).value.0;
            SplitHostPort(host + ":" + port) == Some((host, port))
  {
    var host := SplitHostPort(target).value.0;
    var again := host + ":" + port;
    if target[0] == '[' {
      var rest := target[1..];
      var inner := rest[..BracketEnd(rest)];
      var rest' := again[1..];
      assert rest' == inner + "]:" + port;
      assert forall k :: 0 <= k < |inner| ==> rest'[k] == rest[k];
      assert rest'[|inner|] == ']' && rest'[|inner| + 1] == ':';
      assert BracketEnd(rest') == |inner|;
      assert rest'[..|inner|] == inner && rest'[|inner| + 2..] == port;
    } else {
      assert host[0] == target[0];
      RSplitOnceAt(host, ':', port);
    }
  }

  /** Printing an accepted target and parsing it again gives the same host and port, however the
      port was written. */
  lemma ReparseAddr(target: string)
    requires ParseHostPort(target).Some?
    ensures var (host, port) := ParseHostPort(target).value;
            ParseHostPort(host + ":" + Decimal(port)) == Some((host, port))
  {
    var (host, port) := ParseHostPort(target).value;
    SplitAgain(target, Decimal(port));
    ParsePortOfDecimal(port);
  }

  lemma ParsedTargetReparses(path: string)
    requires ParseTarget(path).Some?
    ensures var t := ParseTarget(path).value; ParseHostPort(t.Addr()) == Some((t.host, t.port))
  {
    ReparseAddr(path[5..]);
  }

  /** On parsed targets, equal addresses mean equal host and port: matching the allow-list as text
      is matching it by meaning. */
  lemma AddrInjective(a: string, b: string)
    requires ParseHostPort(a).Some? && ParseHostPort(b).Some?
    ensures var (h, p) := ParseHostPort(a).value; var (g, q) := ParseHostPort(b).value;
            h + ":" + Decimal(p) == g + ":" + Decimal(q) <==> h == g && p == q
  {
    ReparseAddr(a);
    ReparseAddr(b);
  }

  /** Which protocol a path asks for is its prefix, and the rest is the host and port. */
  lemma ParseTargetExactly(path: string, t: Target)
    ensures ParseTarget(path) == Some(t) <==>
              exists written :: WritesHostPort(written, t.host, t.port)
                && path == (match t.protocol case Tcp => "/tcp:" case Udp => "/udp:") + written
  {
    hide ParseHostPort, WritesHostPort;
    if ParseTarget(path) == Some(t) {
      var written := path[5..];
      ParseHostPortExactly(written, t.host, t.port);
      assert path == path[..5] + written;
    }
    if exists written :: WritesHostPort(written, t.host, t.port)
                && path == (match t.protocol case Tcp => "/tcp:" case Udp => "/udp:") + written {
      var written :| WritesHostPort(written, t.host, t.port)
                && path == (match t.protocol case Tcp => "/tcp:" case Udp => "/udp:") + written;
      ParseHostPortExactly(written, t.host, t.port);
      assert path[5..] == written;
      assert path[..5] == (match t.protocol case Tcp => "/tcp:" case Udp => "/udp:");
    }
  }

  /** An address in full. */
  lemma AddrExample()
    ensures Decimal(6553) == "6553"
    ensures Target(Udp, "[::1]", 80).Addr() == "[::1]:80"
  {
    assert Decimal(6) == "6" && Decimal(65) == "65" && Decimal(655) == "655";
    assert Decimal(8) == "8" && Decimal(80) == "80";
  }
}
