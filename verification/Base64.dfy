/** Base64 of RFC 4648: the standard alphabet with padding (section 4), used for Basic credentials,
    and the URL-safe alphabet without padding (section 5), used for tokens. Both decoders are
    strict, as the engines `STANDARD` and `URL_SAFE_NO_PAD` are: stray characters, missing or extra
    padding and nonzero trailing bits are refused. */
module Base64 {
  import opened Text

  type sextet = x: int | 0 <= x < 64

  datatype Alphabet = Standard | UrlSafe

  // ----- bytes and groups of six bits -----------------------------------------------------

  function Sextets(b: seq<byte>): (q: seq<sextet>)
    ensures |q| == |b| / 3 * 4 + (if |b| % 3 == 0 then 0 else |b| % 3 + 1)
  {
    if |b| == 0 then []
    else if |b| == 1 then [b[0] / 4, b[0] % 4 * 16]
    else if |b| == 2 then [b[0] / 4, b[0] % 4 * 16 + b[1] / 16, b[1] % 16 * 4]
    else Quad(b[0], b[1], b[2]) + Sextets(b[3..])
  }

  function Quad(b0: byte, b1: byte, b2: byte): (q: seq<sextet>)
    ensures |q| == 4
  {
    [b0 / 4, b0 % 4 * 16 + b1 / 16, b1 % 16 * 4 + b2 / 64, b2 % 64]
  }

  function Triple(s0: sextet, s1: sextet, s2: sextet, s3: sextet): (b: seq<byte>)
    ensures |b| == 3
  {
    [s0 as int * 4 + s1 / 16, s1 as int % 16 * 16 + s2 / 4, s2 as int % 4 * 64 + s3]
  }

  function Bytes(q: seq<sextet>): (b: Option<seq<byte>>)
  {
    if |q| == 0 then Some([])
    else if |q| == 1 then None
    else if |q| == 2 then
      if q[1] % 16 == 0 then Some([q[0] as int * 4 + q[1] / 16]) else None
    else if |q| == 3 then
      if q[2] % 4 == 0 then Some([q[0] as int * 4 + q[1] / 16, q[1] as int % 16 * 16 + q[2] / 4])
      else None
    else
      match Bytes(q[4..])
      case None => None
      case Some(rest) => Some(Triple(q[0], q[1], q[2], q[3]) + rest)
  }

  lemma TripleOfQuad(b0: byte, b1: byte, b2: byte)
    ensures var q := Quad(b0, b1, b2); Triple(q[0], q[1], q[2], q[3]) == [b0, b1, b2]
  {
  }

  lemma {:induction false} BytesOfSextets(b: seq<byte>)
    ensures Bytes(Sextets(b)) == Some(b)
  {
    if |b| >= 3 {
      var q := Sextets(b);
      assert q[4..] == Sextets(b[3..]);
      BytesOfSextets(b[3..]);
      TripleOfQuad(b[0], b[1], b[2]);
      assert b == [b[0], b[1], b[2]] + b[3..];
    } else if |b| == 2 {
      assert b == [b[0], b[1]];
    } else if |b| == 1 {
      assert b == [b[0]];
    }
  }

  lemma QuadOfTriple(s0: sextet, s1: sextet, s2: sextet, s3: sextet)
    ensures var b := Triple(s0, s1, s2, s3); Quad(b[0], b[1], b[2]) == [s0, s1, s2, s3]
  {
    hide Quad;
    Recombine(s1);
    Recombine(s2);
    Regrouped(s0, s1 / 16, s1 % 16, s2 / 4, s2 % 4, s3);
  }

  /** Three bytes of 6 and 2, 4 and 4, 2 and 6 bits. */
  lemma Regrouped(a: nat, b: nat, c: nat, d: nat, e: nat, f: nat)
    requires a < 64 && b < 4 && c < 16 && d < 16 && e < 4 && f < 64
    ensures Quad(a * 4 + b, c * 16 + d, e * 64 + f) == [a, b * 16 + c, d * 4 + e, f]
  {
    LowTwoBits(a, b);
    LowFourBits(c, d);
    LowSixBits(e, f);
  }

  lemma Recombine(x: nat)
    ensures x / 16 * 16 + x % 16 == x && x / 4 * 4 + x % 4 == x
    ensures x < 64 ==> x / 16 < 4 && x / 4 < 16
  {
  }

  lemma LowTwoBits(high: nat, low: nat)
    requires low < 4
    ensures (high * 4 + low) / 4 == high && (high * 4 + low) % 4 == low
  {
  }

  lemma LowFourBits(high: nat, low: nat)
    requires low < 16
    ensures (high * 16 + low) / 16 == high && (high * 16 + low) % 16 == low
  {
  }

  lemma LowSixBits(high: nat, low: nat)
    requires low < 64
    ensures (high * 64 + low) / 64 == high && (high * 64 + low) % 64 == low
  {
  }

  lemma SextetsOfShort(q: seq<sextet>)
    requires Bytes(q).Some? && |q| < 4
    ensures Sextets(Bytes(q).value) == q
  {
    if |q| == 2 {
      PairOfOne(q[0], q[1]);
    } else if |q| == 3 {
      ThreeOfTwo(q[0], q[1], q[2]);
    }
  }

  lemma PairOfOne(s0: sextet, s1: sextet)
    requires s1 % 16 == 0
    ensures Sextets([s0 as int * 4 + s1 / 16]) == [s0, s1]
  {
    Recombine(s1);
    LowTwoBits(s0, s1 / 16);
  }

  lemma ThreeOfTwo(s0: sextet, s1: sextet, s2: sextet)
    requires s2 % 4 == 0
    ensures Sextets([s0 as int * 4 + s1 / 16, s1 as int % 16 * 16 + s2 / 4]) == [s0, s1, s2]
  {
    Recombine(s1);
    Recombine(s2);
    LowTwoBits(s0, s1 / 16);
    LowFourBits(s1 % 16, s2 / 4);
  }

  lemma {:induction false} SextetsOfBytes(q: seq<sextet>)
    requires Bytes(q).Some?
    ensures Sextets(Bytes(q).value) == q
  {
    hide Quad, Triple;
    if |q| >= 4 {
      var b, rest := Bytes(q).value, Bytes(q[4..]).value;
      assert b[3..] == rest;
      SextetsOfBytes(q[4..]);
      QuadOfTriple(q[0], q[1], q[2], q[3]);
      assert q == [q[0], q[1], q[2], q[3]] + q[4..];
    } else {
      SextetsOfShort(q);
    }
  }

  // ----- groups of six bits and characters -------------------------------------------------

  function ToChar(a: Alphabet, v: sextet): char {
    if v < 26 then (v as int + 65) as char
    else if v < 52 then (v as int + 71) as char
    else if v < 62 then (v as int - 4) as char
    else if v == 62 then (if a == Standard then '+' else '-')
    else (if a == Standard then '/' else '_')
  }

  function FromChar(a: Alphabet, c: char): Option<sextet> {
    if 'A' <= c <= 'Z' then Some(c as int - 65)
    else if 'a' <= c <= 'z' then Some(c as int - 71)
    else if '0' <= c <= '9' then Some(c as int + 4)
    else if c == (if a == Standard then '+' else '-') then Some(62)
    else if c == (if a == Standard then '/' else '_') then Some(63)
    else None
  }

  lemma FromCharToChar(a: Alphabet, v: sextet)
    ensures FromChar(a, ToChar(a, v)) == Some(v)
  {
  }

  function ToChars(a: Alphabet, q: seq<sextet>): (s: string)
    ensures |s| == |q|
    ensures forall i :: 0 <= i < |q| ==> s[i] == ToChar(a, q[i])
  {
    if q == [] then [] else [ToChar(a, q[0])] + ToChars(a, q[1..])
  }

  function FromChars(a: Alphabet, s: string): (q: Option<seq<sextet>>)
    ensures q.Some? ==> |q.value| == |s| && ToChars(a, q.value) == s
  {
    if s == [] then Some([])
    else match (FromChar(a, s[0]), FromChars(a, s[1..]))
      case (Some(v), Some(rest)) => Some([v] + rest)
      case _ => None
  }

  lemma {:induction false} FromCharsToChars(a: Alphabet, q: seq<sextet>)
    ensures FromChars(a, ToChars(a, q)) == Some(q)
  {
    if q != [] {
      FromCharToChar(a, q[0]);
      FromCharsToChars(a, q[1..]);
      assert ToChars(a, q)[1..] == ToChars(a, q[1..]);
      assert q == [q[0]] + q[1..];
    }
  }

  // ----- the URL-safe engine ---------------------------------------------------------------

  function UrlEncode(b: seq<byte>): string {
    ToChars(UrlSafe, Sextets(b))
  }

  function UrlDecode(s: string): Option<seq<byte>> {
    match FromChars(UrlSafe, s)
    case None => None
    case Some(q) => Bytes(q)
  }

  /** Encoding then decoding gives the bytes back, and no encoding contains a dot. */
  lemma UrlRoundTrip(b: seq<byte>)
    ensures UrlDecode(UrlEncode(b)) == Some(b)
    ensures '.' !in UrlEncode(b)
  {
    hide Sextets, Bytes, FromChars;
    FromCharsToChars(UrlSafe, Sextets(b));
    BytesOfSextets(b);
  }

  /** Only the encoding itself decodes: a byte sequence has a single textual form. */
  lemma UrlCanonical(s: string)
    requires UrlDecode(s).Some?
    ensures UrlEncode(UrlDecode(s).value) == s
  {
    SextetsOfBytes(FromChars(UrlSafe, s).value);
  }

  // ----- the standard engine ---------------------------------------------------------------

  function Padding(n: nat): (s: string)
    ensures |s| <= 2 && forall c :: c in s ==> c == '='
  {
    if n % 3 == 0 then "" else if n % 3 == 1 then "==" else "="
  }

  function StdEncode(b: seq<byte>): (s: string)
    ensures |s| % 4 == 0
  {
    SextetsModFour(b);
    ToChars(Standard, Sextets(b)) + Padding(|b|)
  }

  lemma {:induction false} SextetsModFour(b: seq<byte>)
    ensures (|Sextets(b)| + |Padding(|b|)|) % 4 == 0
  {
  }

  /** How many `=` to take off the end. */
  function PadCount(s: string): (n: nat)
    ensures n <= 2 && n <= |s|
  {
    if |s| >= 2 && s[|s| - 1] == '=' && s[|s| - 2] == '=' then 2
    else if |s| >= 1 && s[|s| - 1] == '=' then 1
    else 0
  }

  function StdDecode(s: string): Option<seq<byte>> {
    if |s| % 4 != 0 then None
    else
      match FromChars(Standard, s[..|s| - PadCount(s)])
      case None => None
      case Some(q) => Bytes(q)
  }

  lemma PadCountOfPadded(body: string, n: nat)
    requires '=' !in body
    ensures PadCount(body + Padding(n)) == |Padding(n)|
    ensures (body + Padding(n))[..|body|] == body
  {
    assert |body| > 0 ==> body[|body| - 1] in body;
  }

  lemma StdRoundTrip(b: seq<byte>)
    ensures StdDecode(StdEncode(b)) == Some(b)
  {
    hide Sextets, Bytes, FromChars, ToChars, PadCount, Padding;
    var q := Sextets(b);
    FromCharsToChars(Standard, q);
    BytesOfSextets(b);
    NoPaddingInside(q);
    PadCountOfPadded(ToChars(Standard, q), |b|);
  }

  lemma NoPaddingInside(q: seq<sextet>)
    ensures '=' !in ToChars(Standard, q)
  {
  }

  lemma Steps(n: nat, m: nat)
    ensures (n + 4) % 4 == n % 4 && (m + 3) % 3 == m % 3
  {
  }

  lemma {:induction false} BytesLength(q: seq<sextet>)
    requires Bytes(q).Some?
    ensures |q| % 4 == 0 ==> |Bytes(q).value| % 3 == 0
    ensures |q| % 4 == 2 ==> |Bytes(q).value| % 3 == 1
    ensures |q| % 4 == 3 ==> |Bytes(q).value| % 3 == 2
    ensures |q| % 4 != 1
  {
    if |q| >= 4 {
      BytesLength(q[4..]);
      Steps(|q[4..]|, |Bytes(q[4..]).value|);
    }
  }

  lemma PaddingTakenOff(s: string)
    requires |s| % 4 == 0 && (|s| - PadCount(s)) % 4 != 1
    ensures (|s| - PadCount(s)) % 4 == 0 ==> s[|s| - PadCount(s)..] == ""
    ensures (|s| - PadCount(s)) % 4 == 2 ==> s[|s| - PadCount(s)..] == "=="
    ensures (|s| - PadCount(s)) % 4 == 3 ==> s[|s| - PadCount(s)..] == "="
  {
  }

  lemma StdCanonical(s: string)
    requires StdDecode(s).Some?
    ensures StdEncode(StdDecode(s).value) == s
  {
    hide Sextets, Bytes, FromChars, ToChars, PadCount;
    var n := PadCount(s);
    var q := FromChars(Standard, s[..|s| - n]).value;
    SextetsOfBytes(q);
    BytesLength(q);
    PaddingTakenOff(s);
    assert s == s[..|s| - n] + s[|s| - n..];
  }

  // ----- the alphabets and the examples of RFC 4648 ----------------------------------------

  /** Tables 1 and 2: the letters, the digits, and two characters that differ. */
  lemma AlphabetsExactly(a: Alphabet, v: sextet)
    ensures ToChar(a, 0) == 'A' && ToChar(a, 25) == 'Z'
    ensures ToChar(a, 26) == 'a' && ToChar(a, 51) == 'z'
    ensures ToChar(a, 52) == '0' && ToChar(a, 61) == '9'
    ensures ToChar(Standard, 62) == '+' && ToChar(Standard, 63) == '/'
    ensures ToChar(UrlSafe, 62) == '-' && ToChar(UrlSafe, 63) == '_'
    ensures v < 61 && v != 25 && v != 51 ==> ToChar(a, v + 1) as int == ToChar(a, v) as int + 1
  {
  }

  /** Examples of section 10: `f`, `fo` and `foobar`. */
  lemma Rfc4648Examples()
    ensures StdEncode([102]) == "Zg=="
    ensures StdEncode([102, 111]) == "Zm8="
    ensures StdEncode([102, 111, 111, 98, 97, 114]) == "Zm9vYmFy"
  {
    hide Sextets, ToChars;
    SextetsOfExamples();
    assert ToChars(Standard, [25, 32]) == "Zg";
    assert ToChars(Standard, [25, 38, 60]) == "Zm8";
    assert ToChars(Standard, [25, 38, 61, 47, 24, 38, 5, 50]) == "Zm9vYmFy";
  }

  lemma SextetsOfExamples()
    ensures Sextets([102]) == [25, 32] && Sextets([102, 111]) == [25, 38, 60]
    ensures Sextets([102, 111, 111, 98, 97, 114]) == [25, 38, 61, 47, 24, 38, 5, 50]
  {
    assert [102, 111, 111, 98, 97, 114][3..] == [98, 97, 114] && [98, 97, 114][3..] == [];
    assert Sextets([98, 97, 114]) == [24, 38, 5, 50];
  }
}
