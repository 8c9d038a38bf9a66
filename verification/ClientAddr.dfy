/** Which client a connection is reported under, behind trusted proxies: the `X-Forwarded-For` lists
    of the request (field lines combine as in sections 5.3 and 5.6.1 of RFC 9110), read from the
    right. */
module ClientAddr {
  import opened Text
  import opened IpRange
  import opened HttpProbe
  import Utf8

  const FORWARDED_FOR := "x-forwarded-for"
  const MAX_HEADERS := 64

  datatype Header = Header(name: string, value: seq<byte>)

  /** The standard library's parsers for an address, and for an address with a port. */
  datatype Reader = Reader(ip: string -> Option<Ip>, socket: string -> Option<Ip>)

  /** The entry is an address, one with a port, or one in brackets. */
  predicate Denotes(reader: Reader, entry: string, ip: Ip) {
    || reader.ip(entry) == Some(ip)
    || reader.socket(entry) == Some(ip)
    || (|entry| >= 2 && entry == "[" + entry[1..|entry| - 1] + "]"
        && reader.ip(entry[1..|entry| - 1]) == Some(ip))
  }

  /** Reads an entry in any of the three forms, and no others; an address written on its own comes
      first. */
  function ParseForwarded(reader: Reader, entry: string): (r: Option<Ip>)
    ensures r.Some? <==> exists ip :: Denotes(reader, entry, ip)
    ensures r.Some? ==> Canonical(r.value) == r.value
                        && exists ip :: Denotes(reader, entry, ip) && r.value == Canonical(ip)
    ensures reader.ip(entry).Some? ==> r == Some(Canonical(reader.ip(entry).value))
  {
    var ip :=
      if reader.ip(entry).Some? then reader.ip(entry)
      else if reader.socket(entry).Some? then reader.socket(entry)
      else if |entry| >= 2 && entry[0] == '[' && entry[|entry| - 1] == ']' then
        reader.ip(entry[1..|entry| - 1])
      else None;
    assert ip.Some? ==> Denotes(reader, entry, ip.value);
    if ip.Some? then Some(Canonical(ip.value)) else None
  }

  type Proxies = rs: seq<IpRange> | forall r :: r in rs ==> Proper(r) witness []

  predicate Trusted(proxies: Proxies, ip: Ip) {
    exists r :: r in proxies && Contains(r, ip)
  }

  /** A trusted address is one that agrees with some range in the leading bits. */
  lemma TrustedExactly(proxies: Proxies, ip: Ip)
    ensures Trusted(proxies, ip) <==>
              exists r :: r in proxies && SameLeadingBits(r.addr, Canonical(ip), r.prefix)
  {
    hide Contains, SameLeadingBits;
    forall r | r in proxies
      ensures Contains(r, ip) <==> SameLeadingBits(r.addr, Canonical(ip), r.prefix)
    {
      ContainsIsLeadingBits(r, ip);
    }
  }

  // ----- the list of entries ------------------------------------------------------------------

  function TrimmedPieces(pieces: seq<string>): seq<string> {
    if pieces == [] then []
    else
      var e := Trim(pieces[0]);
      (if e == "" then [] else [e]) + TrimmedPieces(pieces[1..])
  }

  function TextEntries(text: string): seq<string> {
    TrimmedPieces(Split(text, ','))
  }

  lemma {:induction false} PiecesExactly(pieces: seq<string>, e: string)
    ensures e in TrimmedPieces(pieces) <==> e != "" && exists i :: 0 <= i < |pieces| && Trim(pieces[i]) == e
  {
    hide Trim;
    if pieces != [] {
      PiecesExactly(pieces[1..], e);
      if e != "" && exists i :: 0 <= i < |pieces| && Trim(pieces[i]) == e {
        var i :| 0 <= i < |pieces| && Trim(pieces[i]) == e;
        assert i > 0 ==> pieces[i] == pieces[1..][i - 1];
      }
      if e in TrimmedPieces(pieces[1..]) {
        var i :| 0 <= i < |pieces[1..]| && Trim(pieces[1..][i]) == e;
        assert pieces[i + 1] == pieces[1..][i];
      }
    }
  }

  /** The entries are the trimmed pieces between the commas that are not blank; their order is that of
      the text (`TextEntriesConcat`). */
  lemma TextEntriesExactly(text: string, e: string)
    ensures e in TextEntries(text) <==>
              e != "" && exists piece :: piece in Split(text, ',') && Trim(piece) == e
  {
    hide Trim;
    var pieces := Split(text, ',');
    PiecesExactly(pieces, e);
    if e in TextEntries(text) {
      var i :| 0 <= i < |pieces| && Trim(pieces[i]) == e;
      assert pieces[i] in pieces;
    }
  }

  /** A line that is not UTF-8 is left out as a whole. */
  function LineEntries(h: Header): seq<string> {
    if !EqIgnoreAsciiCase(h.name, FORWARDED_FOR) then []
    else match Utf8.Decode(h.value)
      case None => []
      case Some(text) => TextEntries(text)
  }

  /** The lines one after the other. */
  function Entries(headers: seq<Header>): seq<string> {
    if headers == [] then [] else LineEntries(headers[0]) + Entries(headers[1..])
  }

  lemma {:induction false} TrimmedPiecesConcat(a: seq<string>, b: seq<string>)
    ensures TrimmedPieces(a + b) == TrimmedPieces(a) + TrimmedPieces(b)
  {
    hide Trim;
    if a == [] {
      assert a + b == b;
    } else {
      assert (a + b)[1..] == a[1..] + b;
      TrimmedPiecesConcat(a[1..], b);
    }
  }

  lemma TextEntriesConcat(a: string, b: string)
    ensures TextEntries(a + "," + b) == TextEntries(a) + TextEntries(b)
  {
    SplitConcat(a, ',', b);
    TrimmedPiecesConcat(Split(a, ','), Split(b, ','));
  }

  lemma {:induction false} EntriesConcat(a: seq<Header>, b: seq<Header>)
    ensures Entries(a + b) == Entries(a) + Entries(b)
  {
    hide LineEntries;
    if a == [] {
      assert a + b == b;
    } else {
      assert (a + b)[1..] == a[1..] + b;
      EntriesConcat(a[1..], b);
    }
  }

  lemma EntriesSnoc(before: seq<Header>, line: Header)
    ensures Entries(before + [line]) == Entries(before) + LineEntries(line)
  {
    hide LineEntries;
    EntriesConcat(before, [line]);
    assert [line][1..] == [] && Entries([]) == [];
    assert Entries([line]) == LineEntries(line) + Entries([]);
  }

  predicate IsForwarded(h: Header) { EqIgnoreAsciiCase(h.name, FORWARDED_FOR) }

  /** The texts of the `X-Forwarded-For` lines, and their bytes. */
  function Texts(headers: seq<Header>): seq<string> {
    if headers == [] then []
    else
      var text := Utf8.Decode(headers[0].value);
      (if IsForwarded(headers[0]) && text.Some? then [text.value] else []) + Texts(headers[1..])
  }

  function Values(headers: seq<Header>): seq<seq<byte>> {
    if headers == [] then []
    else (if IsForwarded(headers[0]) then [headers[0].value] else []) + Values(headers[1..])
  }

  /** A comma between each two. */
  function Join(texts: seq<string>): string {
    if texts == [] then "" else if |texts| == 1 then texts[0] else texts[0] + "," + Join(texts[1..])
  }

  function JoinBytes(values: seq<seq<byte>>): seq<byte> {
    if values == [] then []
    else if |values| == 1 then values[0]
    else values[0] + Utf8.Encode(",") + JoinBytes(values[1..])
  }

  lemma NoEntries()
    ensures TextEntries("") == []
  {
    assert Split("", ',') == [""];
    assert [""][1..] == [] && Trim("") == "";
  }

  /** The list in several lines, among any other headers, is the list in the comma join of their
      texts; lines that are not UTF-8 are not part of it. */
  lemma {:induction false} LinesJoin(headers: seq<Header>)
    ensures Entries(headers) == TextEntries(Join(Texts(headers)))
  {
    hide TextEntries, EqIgnoreAsciiCase, Utf8.Decode;
    if headers == [] {
      NoEntries();
    } else {
      LinesJoin(headers[1..]);
      NoEntries();
      var first, rest := headers[0], Texts(headers[1..]);
      if IsForwarded(first) && Utf8.Decode(first.value).Some? {
        var text := Utf8.Decode(first.value).value;
        JoinCons(text, rest);
        if rest != [] {
          TextEntriesConcat(text, Join(rest));
        } else {
          assert TextEntries(text) + [] == TextEntries(text);
        }
      } else {
        assert LineEntries(first) == [] && [] + rest == rest;
        assert [] + Entries(headers[1..]) == Entries(headers[1..]);
      }
    }
  }

  lemma JoinCons(text: string, rest: seq<string>)
    ensures Join([text] + rest) == if rest == [] then text else text + "," + Join(rest)
  {
    assert ([text] + rest)[1..] == rest;
  }

  lemma JoinBytesCons(value: seq<byte>, rest: seq<seq<byte>>)
    ensures JoinBytes([value] + rest)
            == if rest == [] then value else value + Utf8.Encode(",") + JoinBytes(rest)
  {
    assert ([value] + rest)[1..] == rest;
  }

  lemma JoinedText(a: seq<byte>, b: seq<byte>)
    requires Utf8.Decode(a).Some? && Utf8.Decode(b).Some?
    ensures Utf8.Decode(a + Utf8.Encode(",") + b)
            == Some(Utf8.Decode(a).value + "," + Utf8.Decode(b).value)
  {
    hide Utf8.Encode, Utf8.Decode;
    var s, t := Utf8.Decode(a).value, Utf8.Decode(b).value;
    Utf8.EncodeDecode(a);
    Utf8.EncodeDecode(b);
    Utf8.EncodeConcat(s, ",");
    Utf8.EncodeConcat(s + ",", t);
    Utf8.DecodeEncode(s + "," + t);
  }

  lemma NoText()
    ensures Utf8.Decode([]) == Some("")
  {
  }

  lemma {:induction false} JoinedTexts(headers: seq<Header>)
    requires forall h :: h in headers && IsForwarded(h) ==> Utf8.Decode(h.value).Some?
    ensures Utf8.Decode(JoinBytes(Values(headers))) == Some(Join(Texts(headers)))
    ensures |Values(headers)| == |Texts(headers)|
  {
    hide Utf8.Encode, Utf8.Decode, EqIgnoreAsciiCase;
    if headers == [] {
      NoText();
    } else {
      JoinedTexts(headers[1..]);
      var first := headers[0];
      assert first in headers;
      if IsForwarded(first) {
        JoinCons(Utf8.Decode(first.value).value, Texts(headers[1..]));
        JoinBytesCons(first.value, Values(headers[1..]));
        if |Values(headers[1..])| > 0 {
          JoinedText(first.value, JoinBytes(Values(headers[1..])));
        }
      } else {
        assert [] + Texts(headers[1..]) == Texts(headers[1..]);
        assert [] + Values(headers[1..]) == Values(headers[1..]);
      }
    }
  }

  /** Several lines are one: where the lines are UTF-8, whatever other headers stand between them, they
      are the same list as the one line that holds their values with commas between. */
  lemma SeveralLinesAreOne(headers: seq<Header>, name: string)
    requires EqIgnoreAsciiCase(name, FORWARDED_FOR)
    requires forall h :: h in headers && IsForwarded(h) ==> Utf8.Decode(h.value).Some?
    ensures Entries(headers) == Entries([Header(name, JoinBytes(Values(headers)))])
  {
    hide Utf8.Decode, TextEntries, EqIgnoreAsciiCase;
    LinesJoin(headers);
    JoinedTexts(headers);
    EntriesSnoc([], Header(name, JoinBytes(Values(headers))));
    assert [] + [Header(name, JoinBytes(Values(headers)))] == [Header(name, JoinBytes(Values(headers)))];
  }

  // ----- the search ---------------------------------------------------------------------------

  datatype Search = Found(ip: Ip) | Unusable | AllTrusted

  function SearchFromRight(reader: Reader, proxies: Proxies, entries: seq<string>): Search {
    if entries == [] then AllTrusted
    else match ParseForwarded(reader, entries[|entries| - 1])
      case None => Unusable
      case Some(ip) =>
        if Trusted(proxies, ip) then SearchFromRight(reader, proxies, entries[..|entries| - 1])
        else Found(ip)
  }

  function SelectClient(reader: Reader, proxies: Proxies, entries: seq<string>): Option<Ip> {
    match SearchFromRight(reader, proxies, entries)
    case Found(ip) => Some(ip)
    case Unusable => None
    case AllTrusted => if entries == [] then None else ParseForwarded(reader, entries[0])
  }

  /** Entry `i` is where the search ends: every entry to its right is a trusted proxy, and it is an
      address that is none, or no address at all. */
  predicate StopsAt(reader: Reader, proxies: Proxies, entries: seq<string>, i: nat) {
    && i < |entries|
    && (forall j :: i < j < |entries| ==> IsProxy(reader, proxies, entries[j]))
    && !IsProxy(reader, proxies, entries[i])
  }

  predicate IsProxy(reader: Reader, proxies: Proxies, entry: string) {
    var ip := ParseForwarded(reader, entry);
    ip.Some? && Trusted(proxies, ip.value)
  }

  /** `select_client`, as the loop it is: the rightmost entry that is no trusted proxy decides, and
      when there is none, the leftmost entry. */
  method SelectClientLoop(reader: Reader, proxies: Proxies, entries: seq<string>)
    returns (client: Option<Ip>)
    ensures forall i: nat :: StopsAt(reader, proxies, entries, i) ==>
              client == ParseForwarded(reader, entries[i])
    ensures (forall i: nat :: !StopsAt(reader, proxies, entries, i)) ==>
              client == if entries == [] then None else ParseForwarded(reader, entries[0])
    ensures client == SelectClient(reader, proxies, entries)
  {
    hide ParseForwarded, Trusted;
    assert entries[..|entries|] == entries;
    for i := |entries| downto 0
      invariant forall j :: i <= j < |entries| ==> IsProxy(reader, proxies, entries[j])
      invariant SearchFromRight(reader, proxies, entries)
                == SearchFromRight(reader, proxies, entries[..i])
    {
      var entry := entries[i];
      assert entries[..i + 1][..i] == entries[..i];
      var ip := ParseForwarded(reader, entry);
      if ip.None? {
        assert StopsAt(reader, proxies, entries, i);
        return None;
      }
      if !Trusted(proxies, ip.value) {
        assert StopsAt(reader, proxies, entries, i);
        return ip;
      }
    }
    client := if entries == [] then None else ParseForwarded(reader, entries[0]);
  }

  lemma {:induction false} SearchOfSuffix(reader: Reader, proxies: Proxies, prefix: seq<string>,
                                          suffix: seq<string>)
    requires SearchFromRight(reader, proxies, suffix) != AllTrusted
    ensures SearchFromRight(reader, proxies, prefix + suffix)
            == SearchFromRight(reader, proxies, suffix)
    decreases |suffix|
  {
    var all, n := prefix + suffix, |suffix| - 1;
    assert all[..|all| - 1] == prefix + suffix[..n];
    if IsProxy(reader, proxies, suffix[n]) {
      SearchOfSuffix(reader, proxies, prefix, suffix[..n]);
    }
  }

  /** Whatever stands to the left of where the search stops cannot change the outcome. */
  lemma LeftEntriesCannotMatter(reader: Reader, proxies: Proxies, prefix: seq<string>,
                                suffix: seq<string>)
    requires SearchFromRight(reader, proxies, suffix) != AllTrusted
    ensures SelectClient(reader, proxies, prefix + suffix) == SelectClient(reader, proxies, suffix)
  {
    SearchOfSuffix(reader, proxies, prefix, suffix);
  }

  /** A list of proxies only gives its first entry. */
  lemma {:induction false} AllTrustedGivesLeftmost(reader: Reader, proxies: Proxies,
                                                   entries: seq<string>)
    requires entries != [] && forall e :: e in entries ==> IsProxy(reader, proxies, e)
    ensures SearchFromRight(reader, proxies, entries) == AllTrusted
    ensures SelectClient(reader, proxies, entries) == ParseForwarded(reader, entries[0])
    decreases |entries|
  {
    assert entries[|entries| - 1] in entries;
    if |entries| > 1 {
      AllTrustedGivesLeftmost(reader, proxies, entries[..|entries| - 1]);
    } else {
      assert entries[..0] == [];
    }
  }

  // ----- whole requests -----------------------------------------------------------------------

  datatype ClientAddr = ClientAddr(peer: Ip, forwarded: Option<Ip>)

  /** `headers` is `None` for a head that is no complete request. */
  function ForwardedClient(reader: Reader, proxies: Proxies, headers: Option<seq<Header>>): Option<Ip> {
    match headers
    case None => None
    case Some(hs) => SelectClient(reader, proxies, Entries(hs))
  }

  function ReportedClient(reader: Reader, proxies: Proxies, peer: Ip, headers: Option<seq<Header>>)
    : ClientAddr
  {
    ClientAddr(peer, if Trusted(proxies, peer) then ForwardedClient(reader, proxies, headers) else None)
  }

  /** What our own proxies wrote: the ASCII text `rest` at the end of a line, and all of `after`. In it
      the search stops, at `ip`: an address that is no trusted proxy, with only proxies to its right. */
  ghost predicate Vouched(reader: Reader, proxies: Proxies, rest: string, after: seq<Header>, ip: Ip) {
    && Utf8.Ascii(rest)
    && SearchFromRight(reader, proxies, TextEntries(rest) + Entries(after)) == Found(ip)
  }

  /** `rest` was appended to what the line held before, or is a line of its own. */
  predicate Carries(value: seq<byte>, v: seq<byte>, rest: string) {
    value == v + Utf8.Encode("," + rest) || (v == [] && value == Utf8.Encode(rest))
  }

  lemma TextEntriesOfEntry(entry: string)
    requires ',' !in entry && entry != "" && IsTrimmed(entry)
    ensures TextEntries(" " + entry) == [entry]
  {
    hide Trim;
    var spaced := " " + entry;
    assert Split(spaced, ',') == [spaced];
    TrimAfterSpace(entry);
    assert [spaced][1..] == [] && TrimmedPieces([]) == [];
  }

  /** The entries that a chain of proxies appends, each after a comma and a space. */
  function ChainText(entries: seq<string>): string {
    if entries == [] then ""
    else if |entries| == 1 then " " + entries[0]
    else ChainText(entries[..|entries| - 1]) + "," + " " + entries[|entries| - 1]
  }

  predicate PlainEntry(entry: string) {
    Utf8.Ascii(entry) && ',' !in entry && entry != "" && IsTrimmed(entry)
  }

  lemma SpacedEntry(entry: string)
    requires PlainEntry(entry)
    ensures TextEntries(" " + entry) == [entry] && Utf8.Ascii(" " + entry)
  {
    TextEntriesOfEntry(entry);
  }

  lemma AsciiConcat(a: string, b: string)
    requires Utf8.Ascii(a) && Utf8.Ascii(b)
    ensures Utf8.Ascii(a + "," + b)
  {
  }

  lemma {:induction false} TextEntriesOfChain(entries: seq<string>)
    requires entries != [] && forall e :: e in entries ==> PlainEntry(e)
    ensures TextEntries(ChainText(entries)) == entries && Utf8.Ascii(ChainText(entries))
  {
    hide TextEntries, IsTrimmed, Utf8.Ascii, PlainEntry;
    var n := |entries| - 1;
    var last := entries[n];
    assert PlainEntry(last);
    SpacedEntry(last);
    if n > 0 {
      var before := entries[..n];
      assert forall e :: e in before ==> e in entries;
      TextEntriesOfChain(before);
      TextEntriesConcat(ChainText(before), " " + last);
      AsciiConcat(ChainText(before), " " + last);
      assert ChainText(before) + "," + (" " + last) == ChainText(entries);
      assert before + [last] == entries;
    } else {
      assert entries == [last];
    }
  }

  /** A chain of proxies vouches for the address the first of them saw, when that is no proxy and all
      that the others saw are. */
  lemma ChainVouches(reader: Reader, proxies: Proxies, entries: seq<string>, after: seq<Header>, ip: Ip)
    requires entries != [] && NoneForwarded(after) && forall e :: e in entries ==> PlainEntry(e)
    requires ParseForwarded(reader, entries[0]) == Some(ip) && !Trusted(proxies, ip)
    requires forall e :: e in entries[1..] ==> IsProxy(reader, proxies, e)
    ensures Vouched(reader, proxies, ChainText(entries), after, ip)
  {
    hide TextEntries, PlainEntry, Trusted, ParseForwarded;
    TextEntriesOfChain(entries);
    EntriesOfOthers(after);
    assert entries + [] == entries;
    SearchSkipsProxies(reader, proxies, entries, ip);
  }

  lemma {:induction false} SearchSkipsProxies(reader: Reader, proxies: Proxies, entries: seq<string>,
                                              ip: Ip)
    requires entries != [] && ParseForwarded(reader, entries[0]) == Some(ip) && !Trusted(proxies, ip)
    requires forall e :: e in entries[1..] ==> IsProxy(reader, proxies, e)
    ensures SearchFromRight(reader, proxies, entries) == Found(ip)
    decreases |entries|
  {
    hide Trusted, ParseForwarded;
    var n := |entries| - 1;
    if n > 0 {
      assert entries[n] == entries[1..][n - 1] && entries[n] in entries[1..];
      assert IsProxy(reader, proxies, entries[n]);
      assert forall e :: e in entries[..n][1..] ==> e in entries[1..];
      SearchSkipsProxies(reader, proxies, entries[..n], ip);
    }
  }

  lemma LineEntriesOfCarrier(name: string, value: seq<byte>, v: seq<byte>, rest: string)
    requires EqIgnoreAsciiCase(name, FORWARDED_FOR) && Utf8.Ascii(rest) && Carries(value, v, rest)
    ensures LineEntries(Header(name, value))
            == (match Utf8.Decode(v)
                case Some(text) => TextEntries(text) + TextEntries(rest)
                case None => [])
  {
    hide TextEntries, Utf8.Decode, Utf8.Encode, EqIgnoreAsciiCase;
    if value == v + Utf8.Encode("," + rest) {
      assert Utf8.Ascii("," + rest);
      Utf8.DecodeAsciiSuffix(v, "," + rest);
      if Utf8.Decode(v).Some? {
        var text := Utf8.Decode(v).value;
        assert text + ("," + rest) == text + "," + rest;
        TextEntriesConcat(text, rest);
      }
    } else {
      Utf8.DecodeEncode(rest);
      NoText();
      NoEntries();
      assert [] + TextEntries(rest) == TextEntries(rest);
    }
  }

  predicate NoneForwarded(headers: seq<Header>) {
    forall h :: h in headers ==> !IsForwarded(h)
  }

  lemma {:induction false} EntriesOfOthers(headers: seq<Header>)
    requires NoneForwarded(headers)
    ensures Entries(headers) == []
  {
    if headers != [] {
      assert headers[0] in headers && forall h :: h in headers[1..] ==> h in headers;
      EntriesOfOthers(headers[1..]);
    }
  }

  lemma EntriesAround(before: seq<Header>, line: Header, after: seq<Header>)
    ensures Entries(before + [line] + after) == Entries(before) + LineEntries(line) + Entries(after)
  {
    hide Entries, LineEntries;
    EntriesConcat(before + [line], after);
    EntriesSnoc(before, line);
  }

  /** A client cannot choose its address by what it sends: whatever UTF-8 text and whatever lines
      stand before what our proxies wrote, the address they vouch for is the one selected. */
  lemma VouchedAddressIsSelected(reader: Reader, proxies: Proxies, before: seq<Header>, name: string,
                                 value: seq<byte>, v: seq<byte>, rest: string, after: seq<Header>, ip: Ip)
    requires EqIgnoreAsciiCase(name, FORWARDED_FOR) && Carries(value, v, rest)
    requires Vouched(reader, proxies, rest, after, ip) && Utf8.Decode(v).Some?
    ensures ForwardedClient(reader, proxies, Some(before + [Header(name, value)] + after)) == Some(ip)
  {
    hide Utf8.Encode, Utf8.Decode, TextEntries, LineEntries, Entries, SearchFromRight, Carries,
         EqIgnoreAsciiCase;
    EntriesAround(before, Header(name, value), after);
    LineEntriesOfCarrier(name, value, v, rest);
    var left := Entries(before) + TextEntries(Utf8.Decode(v).value);
    var right := TextEntries(rest) + Entries(after);
    assert Entries(before + [Header(name, value)] + after) == left + right;
    LeftEntriesCannotMatter(reader, proxies, left, right);
  }

  /** The text has to be UTF-8. Bytes that are not make the line, with what our proxies appended to it,
      disappear: the other lines are then searched as if it had never been there. */
  lemma InvalidLineDisappears(reader: Reader, proxies: Proxies, before: seq<Header>, name: string,
                              value: seq<byte>, v: seq<byte>, rest: string, after: seq<Header>)
    requires EqIgnoreAsciiCase(name, FORWARDED_FOR) && Carries(value, v, rest) && Utf8.Ascii(rest)
    requires Utf8.Decode(v).None?
    ensures ForwardedClient(reader, proxies, Some(before + [Header(name, value)] + after))
            == ForwardedClient(reader, proxies, Some(before + after))
  {
    hide Utf8.Encode, Utf8.Decode, LineEntries, Entries, Carries, EqIgnoreAsciiCase, SelectClient;
    EntriesAround(before, Header(name, value), after);
    LineEntriesOfCarrier(name, value, v, rest);
    EntriesConcat(before, after);
    assert Entries(before) + [] == Entries(before);
  }

  /** A witness: a single byte 255 before what our proxies append hides it. */
  lemma InvalidByteHidesEntry(reader: Reader, proxies: Proxies, rest: string, ip: Ip)
    requires Vouched(reader, proxies, rest, [], ip)
    ensures ForwardedClient(reader, proxies,
              Some([Header(FORWARDED_FOR, [255] + Utf8.Encode("," + rest))])) == None
  {
    hide ForwardedClient, SearchFromRight, TextEntries;
    assert Utf8.DecodeFirst([255]).None?;
    var line := Header(FORWARDED_FOR, [255] + Utf8.Encode("," + rest));
    InvalidLineDisappears(reader, proxies, [], FORWARDED_FOR, line.value, [255], rest, []);
    NothingSelected(reader, proxies);
    var none: seq<Header> := [];
    assert none + [line] + none == [line] && none + none == none;
  }

  lemma NothingSelected(reader: Reader, proxies: Proxies)
    ensures ForwardedClient(reader, proxies, Some([])) == None
  {
  }

  // ----- from the bytes of the connection -----------------------------------------------------

  /** Parses a head; `None` when it is no complete request or has too many headers. */
  type Parser = seq<byte> -> Option<seq<Header>>

  /** An empty line, in any spelling that an HTTP parser takes. */
  predicate EmptyLineAt(head: seq<byte>, i: nat) {
    && i + 1 < |head| && head[i] == 10
    && (head[i + 1] == 10 || (i + 2 < |head| && head[i + 1] == 13 && head[i + 2] == 10))
  }

  predicate HasEmptyLine(head: seq<byte>) {
    exists i :: 0 <= i < |head| && EmptyLineAt(head, i)
  }

  /** No request is complete before its empty line. */
  ghost predicate StopsAtEmptyLine(parse: Parser) {
    forall head :: parse(head).Some? ==> HasEmptyLine(head)
  }

  /** `full` is the head of a request with these headers, up to and including its one empty line: the
      parser reads it there and does not look further. */
  ghost predicate IsHeadOf(parse: Parser, full: seq<byte>, headers: seq<Header>) {
    && Terminated(full) && !HasEmptyLine(full[..|full| - 1])
    && forall more :: parse(full + more) == if |headers| <= MAX_HEADERS then Some(headers) else None
  }

  lemma TerminatedHasEmptyLine(head: seq<byte>)
    requires Terminated(head)
    ensures HasEmptyLine(head) && |head| >= 4
  {
    var i :| 0 <= i <= |head| - 4 && head[i..][..4] == [13, 10, 13, 10];
    assert head[i..][..4][1] == head[i + 1] && head[i..][..4][2] == head[i + 2]
           && head[i..][..4][3] == head[i + 3];
    assert EmptyLineAt(head, i + 1);
  }

  lemma EmptyLineStays(head: seq<byte>, all: seq<byte>)
    requires head <= all && HasEmptyLine(head)
    ensures HasEmptyLine(all)
  {
    var i :| 0 <= i < |head| && EmptyLineAt(head, i);
    assert EmptyLineAt(all, i);
  }

  /** A part of the head that stops short of its empty line is no request, nor is it terminated. */
  lemma CutIsIncomplete(parse: Parser, full: seq<byte>, headers: seq<Header>, head: seq<byte>)
    requires StopsAtEmptyLine(parse) && IsHeadOf(parse, full, headers)
    requires head <= full && |head| < |full|
    ensures parse(head) == None && !Terminated(head)
  {
    hide HasEmptyLine, Terminated;
    assert head <= full[..|full| - 1];
    if HasEmptyLine(head) {
      EmptyLineStays(head, full[..|full| - 1]);
    }
    if Terminated(head) {
      TerminatedHasEmptyLine(head);
    }
  }

  /** Whatever the chunking, a head within the limit is read whole. */
  lemma ShortHeadIsRead(parse: Parser, full: seq<byte>, headers: seq<Header>, more: seq<byte>,
                        head: seq<byte>)
    requires StopsAtEmptyLine(parse) && IsHeadOf(parse, full, headers)
    requires |full| <= MAX_REQUEST_HEAD && ReadAhead(full + more, head)
    ensures parse(head) == if |headers| <= MAX_HEADERS then Some(headers) else None
  {
    hide Terminated;
    var all := full + more;
    if |head| < |full| {
      assert head == all[..|head|] == full[..|head|];
      CutIsIncomplete(parse, full, headers, head);
      assert false;
    }
    assert head == all[..|head|] && full == all[..|full|];
    assert head == full + head[|full|..];
  }

  /** It can be read without a byte more. */
  lemma ShortHeadCanBeRead(parse: Parser, full: seq<byte>, headers: seq<Header>, more: seq<byte>)
    requires StopsAtEmptyLine(parse) && IsHeadOf(parse, full, headers)
    requires |full| <= MAX_REQUEST_HEAD
    ensures ReadAhead(full + more, full)
  {
    TerminatedHasEmptyLine(full);
    CutIsIncomplete(parse, full, headers, full[..|full| - 1]);
    assert OneReadBefore(full, |full| - 1);
  }

  /** A head over the limit can be cut, and is then no request at all. */
  lemma LongHeadCanBeCut(parse: Parser, full: seq<byte>, headers: seq<Header>, more: seq<byte>)
    requires StopsAtEmptyLine(parse) && IsHeadOf(parse, full, headers)
    requires |full| > MAX_REQUEST_HEAD
    ensures ReadAhead(full + more, full[..MAX_REQUEST_HEAD]) && parse(full[..MAX_REQUEST_HEAD]) == None
  {
    hide Terminated, HasEmptyLine, IsHeadOf, StopsAtEmptyLine;
    var cut := full[..MAX_REQUEST_HEAD];
    assert cut == (full + more)[..MAX_REQUEST_HEAD];
    CutIsIncomplete(parse, full, headers, cut);
    assert cut[..MAX_REQUEST_HEAD - 1] == full[..MAX_REQUEST_HEAD - 1];
    CutIsIncomplete(parse, full, headers, full[..MAX_REQUEST_HEAD - 1]);
    assert OneReadBefore(cut, MAX_REQUEST_HEAD - 1);
  }

  /** A head that is longer by a whole chunk is cut whatever the chunking, and nothing is selected. */
  lemma LongHeadSelectsNothing(reader: Reader, proxies: Proxies, parse: Parser, full: seq<byte>,
                               headers: seq<Header>, more: seq<byte>, head: seq<byte>)
    requires StopsAtEmptyLine(parse) && IsHeadOf(parse, full, headers)
    requires |full| >= MAX_REQUEST_HEAD + CHUNK && ReadAhead(full + more, head)
    ensures ForwardedClient(reader, proxies, parse(head)) == None
  {
    hide Terminated, HasEmptyLine, IsHeadOf, StopsAtEmptyLine;
    assert head == (full + more)[..|head|] == full[..|head|];
    CutIsIncomplete(parse, full, headers, head);
  }

  /** Exactly when a client cannot hide what our proxies wrote: the address they vouch for is
      selected, for every chunking of the connection, if and only if what stands before it on its line
      is UTF-8, the request's head ends within the limit, and it has no more header lines than are
      parsed. The other lines alone must not happen to select that address. */
  lemma VouchedAddressExactly(reader: Reader, proxies: Proxies, parse: Parser, full: seq<byte>,
                              more: seq<byte>, before: seq<Header>, name: string, value: seq<byte>,
                              v: seq<byte>, rest: string, after: seq<Header>, ip: Ip)
    requires StopsAtEmptyLine(parse)
    requires IsHeadOf(parse, full, before + [Header(name, value)] + after)
    requires EqIgnoreAsciiCase(name, FORWARDED_FOR) && Carries(value, v, rest)
    requires Vouched(reader, proxies, rest, after, ip)
    requires ForwardedClient(reader, proxies, Some(before + after)) != Some(ip)
    ensures (forall head :: ReadAhead(full + more, head) ==>
               ForwardedClient(reader, proxies, parse(head)) == Some(ip))
            <==>
            && Utf8.Decode(v).Some?
            && |full| <= MAX_REQUEST_HEAD
            && |before| + 1 + |after| <= MAX_HEADERS
  {
    hide Terminated, HasEmptyLine, IsHeadOf, StopsAtEmptyLine, ReadAhead, ForwardedClient, Carries,
         Vouched, Utf8.Decode;
    var headers := before + [Header(name, value)] + after;
    SelectedExactly(reader, proxies, before, name, value, v, rest, after, ip);
    NotARequest(reader, proxies);
    if |full| > MAX_REQUEST_HEAD {
      LongHeadCanBeCut(parse, full, headers, more);
    } else {
      ShortHeadCanBeRead(parse, full, headers, more);
      forall head | ReadAhead(full + more, head)
        ensures parse(head) == if |headers| <= MAX_HEADERS then Some(headers) else None
      {
        ShortHeadIsRead(parse, full, headers, more, head);
      }
    }
  }

  lemma NotARequest(reader: Reader, proxies: Proxies)
    ensures ForwardedClient(reader, proxies, None) == None
  {
  }

  lemma SelectedExactly(reader: Reader, proxies: Proxies, before: seq<Header>, name: string,
                        value: seq<byte>, v: seq<byte>, rest: string, after: seq<Header>, ip: Ip)
    requires EqIgnoreAsciiCase(name, FORWARDED_FOR) && Carries(value, v, rest)
    requires Vouched(reader, proxies, rest, after, ip)
    requires ForwardedClient(reader, proxies, Some(before + after)) != Some(ip)
    ensures ForwardedClient(reader, proxies, Some(before + [Header(name, value)] + after)) == Some(ip)
            <==> Utf8.Decode(v).Some?
  {
    hide Utf8.Encode, Utf8.Decode, Entries, Carries, EqIgnoreAsciiCase, ForwardedClient, SearchFromRight;
    if Utf8.Decode(v).Some? {
      VouchedAddressIsSelected(reader, proxies, before, name, value, v, rest, after, ip);
    } else {
      InvalidLineDisappears(reader, proxies, before, name, value, v, rest, after);
    }
  }

  /** The bytes begin with a request for which our own proxies vouch for `ip`, under the conditions of
      `VouchedAddressExactly`. */
  ghost predicate VouchedIn(reader: Reader, proxies: Proxies, parse: Parser, bytes: seq<byte>,
                            full: seq<byte>, before: seq<Header>, name: string, value: seq<byte>,
                            v: seq<byte>, rest: string, after: seq<Header>, ip: Ip) {
    && full <= bytes && |full| <= MAX_REQUEST_HEAD
    && IsHeadOf(parse, full, before + [Header(name, value)] + after)
    && |before| + 1 + |after| <= MAX_HEADERS
    && EqIgnoreAsciiCase(name, FORWARDED_FOR) && Carries(value, v, rest) && Utf8.Decode(v).Some?
    && Vouched(reader, proxies, rest, after, ip)
  }

  ghost predicate VouchedRequest(reader: Reader, proxies: Proxies, parse: Parser, bytes: seq<byte>, ip: Ip) {
    exists full, before, name, value, v, rest, after ::
      VouchedIn(reader, proxies, parse, bytes, full, before, name, value, v, rest, after, ip)
  }

  lemma VouchedIsForwarded(reader: Reader, proxies: Proxies, parse: Parser, bytes: seq<byte>,
                           head: seq<byte>, ip: Ip)
    requires StopsAtEmptyLine(parse) && VouchedRequest(reader, proxies, parse, bytes, ip)
    requires ReadAhead(bytes, head)
    ensures ForwardedClient(reader, proxies, parse(head)) == Some(ip)
  {
    hide StopsAtEmptyLine, IsHeadOf, Carries, Vouched, Utf8.Decode, EqIgnoreAsciiCase, ReadAhead,
         ForwardedClient;
    var full, before, name, value, v, rest, after :|
      VouchedIn(reader, proxies, parse, bytes, full, before, name, value, v, rest, after, ip);
    assert bytes == full + bytes[|full|..];
    ShortHeadIsRead(parse, full, before + [Header(name, value)] + after, bytes[|full|..], head);
    VouchedAddressIsSelected(reader, proxies, before, name, value, v, rest, after, ip);
  }

  /** What a connection is reported under, from the bytes read ahead; `None` when a read fails. It is
      always reported with its peer. An address is added only when the peer is a trusted proxy, and it
      is then the one that our own proxies vouch for, if they do. */
  method ReportConnection(stream: ByteStream, reader: Reader, proxies: Proxies, parse: Parser, peer: Ip)
    returns (client: Option<ClientAddr>)
    modifies stream
    ensures client.Some? ==> client.value.peer == peer
    ensures client.Some? && !Trusted(proxies, peer) ==> client.value.forwarded.None?
    ensures client.Some? && Trusted(proxies, peer) ==>
              exists head :: ReadAhead(old(stream.rest), head)
                             && client.value.forwarded == ForwardedClient(reader, proxies, parse(head))
    ensures client.Some? && Trusted(proxies, peer) && StopsAtEmptyLine(parse) ==>
              forall ip :: VouchedRequest(reader, proxies, parse, old(stream.rest), ip) ==>
                client.value.forwarded == Some(ip)
    ensures client.None? ==> stream.good == 0
  {
    hide ReadAhead, ForwardedClient, VouchedRequest, StopsAtEmptyLine;
    var head := ReadRequestHead(stream);
    if head.None? {
      return None;
    }
    client := Some(ReportedClient(reader, proxies, peer, parse(head.value)));
    if StopsAtEmptyLine(parse) {
      forall ip | VouchedRequest(reader, proxies, parse, old(stream.rest), ip)
        ensures ForwardedClient(reader, proxies, parse(head.value)) == Some(ip)
      {
        VouchedIsForwarded(reader, proxies, parse, old(stream.rest), head.value, ip);
      }
    }
  }

  /** Where the request comes from decides whether its headers are read at all, and an IPv4-mapped
      peer is judged as its IPv4 form. */
  lemma MappedPeerIsTrustedAlike(reader: Reader, proxies: Proxies, v4: u32,
                                 headers: Option<seq<Header>>)
    ensures ReportedClient(reader, proxies, V6(0xFFFF * 0x1_0000_0000 + v4), headers).forwarded
            == ReportedClient(reader, proxies, V4(v4), headers).forwarded
  {
    forall r | r in proxies
      ensures Contains(r, V6(0xFFFF * 0x1_0000_0000 + v4)) <==> Contains(r, V4(v4))
    {
      MappedPeerMatches(r, v4);
    }
  }
}
