/** UTF-8: `str::as_bytes` and the strict `String::from_utf8`. A `char` is a Unicode scalar value,
    in Dafny as in Rust, so every `string` has an encoding and surrogates do not exist. */
module Utf8 {
  import opened Text

  function EncodeChar(c: char): (r: seq<byte>)
    ensures 1 <= |r| <= 4
  {
    var n := c as int;
    if n < 0x80 then [n]
    else if n < 0x800 then [0xC0 + n / 64, 0x80 + n % 64]
    else if n < 0x10000 then [0xE0 + n / 4096, 0x80 + n / 64 % 64, 0x80 + n % 64]
    else [0xF0 + n / 262144, 0x80 + n / 4096 % 64, 0x80 + n / 64 % 64, 0x80 + n % 64]
  }

  function Encode(s: string): (r: seq<byte>)
    ensures |s| <= |r|
  {
    if s == [] then [] else EncodeChar(s[0]) + Encode(s[1..])
  }

  predicate Continuation(b: byte) { 0x80 <= b < 0xC0 }

  /** The numbers that two, three and four byte forms stand for. */
  function Join2(a: int, b: int): int { (a - 0xC0) * 64 + (b - 0x80) }

  function Join3(a: int, b: int, c: int): int { (a - 0xE0) * 4096 + (b - 0x80) * 64 + (c - 0x80) }

  function Join4(a: int, b: int, c: int, d: int): int {
    (a - 0xF0) * 262144 + (b - 0x80) * 4096 + (c - 0x80) * 64 + (d - 0x80)
  }

  /** The first character of `b` and the number of bytes it takes. Overlong forms, surrogates and
      values above U+10FFFF are refused. */
  function DecodeFirst(b: seq<byte>): (r: Option<(char, nat)>)
    requires b != []
    ensures r.Some? ==> 1 <= r.value.1 <= |b| && r.value.1 <= 4
  {
    if b[0] < 0x80 then
      Some((b[0] as char, 1))
    else if 0xC0 <= b[0] < 0xE0 && |b| >= 2 && Continuation(b[1]) then
      var n := Join2(b[0], b[1]);
      if n >= 0x80 then Some((n as char, 2)) else None
    else if 0xE0 <= b[0] < 0xF0 && |b| >= 3 && Continuation(b[1]) && Continuation(b[2]) then
      var n := Join3(b[0], b[1], b[2]);
      if n >= 0x800 && !(0xD800 <= n < 0xE000) then Some((n as char, 3)) else None
    else if 0xF0 <= b[0] < 0xF8 && |b| >= 4 && Continuation(b[1]) && Continuation(b[2])
            && Continuation(b[3]) then
      var n := Join4(b[0], b[1], b[2], b[3]);
      if 0x10000 <= n < 0x110000 then Some((n as char, 4)) else None
    else None
  }

  function Decode(b: seq<byte>): (r: Option<string>)
    decreases |b|
  {
    if b == [] then Some([]) else
    match DecodeFirst(b)
    case None => None
    case Some((c, k)) =>
      match Decode(b[k..])
      case None => None
      case Some(rest) => Some([c] + rest)
  }

  lemma JoinParts(n: nat)
    ensures Join2(0xC0 + n / 64, 0x80 + n % 64) == n
    ensures Join3(0xE0 + n / 4096, 0x80 + n / 64 % 64, 0x80 + n % 64) == n
    ensures Join4(0xF0 + n / 262144, 0x80 + n / 4096 % 64, 0x80 + n / 64 % 64, 0x80 + n % 64) == n
  {
    var m := n / 64;
    var k := m / 64;
    assert n / 4096 == k && n / 262144 == k / 64;
    assert n == 64 * m + n % 64 && m == 64 * k + m % 64 && k == 64 * (k / 64) + k % 64;
  }

  lemma DecodeFirstOfEncoded(c: char, rest: seq<byte>)
    ensures DecodeFirst(EncodeChar(c) + rest) == Some((c, |EncodeChar(c)|))
  {
    hide Join2, Join3, Join4;
    JoinParts(c as int);
  }

  lemma Join3Parts(a: int, b: int, c: int)
    requires 0xE0 <= a < 0xF0 && 0x80 <= b < 0xC0 && 0x80 <= c < 0xC0
    ensures var n := Join3(a, b, c);
            n / 4096 == a - 0xE0 && n / 64 % 64 == b - 0x80 && n % 64 == c - 0x80
  {
    Peel(64 * (a - 0xE0) + (b - 0x80), c - 0x80);
    Peel(a - 0xE0, b - 0x80);
  }

  lemma Join4Parts(a: int, b: int, c: int, d: int)
    requires 0xF0 <= a < 0xF8 && 0x80 <= b < 0xC0 && 0x80 <= c < 0xC0 && 0x80 <= d < 0xC0
    ensures var n := Join4(a, b, c, d);
            && n / 262144 == a - 0xF0 && n / 4096 % 64 == b - 0x80
            && n / 64 % 64 == c - 0x80 && n % 64 == d - 0x80
  {
    var k := 64 * (a - 0xF0) + (b - 0x80);
    var m := 64 * k + (c - 0x80);
    var n := Join4(a, b, c, d);
    assert n == 64 * m + (d - 0x80);
    Peel(m, d - 0x80);
    Peel(k, c - 0x80);
    Peel(a - 0xF0, b - 0x80);
    assert n / 4096 == n / 64 / 64 && n / 262144 == n / 64 / 64 / 64;
  }

  lemma Peel(high: nat, low: nat)
    requires low < 64
    ensures (64 * high + low) / 64 == high && (64 * high + low) % 64 == low
  {
  }

  lemma EncodeOfDecodedFirst(b: seq<byte>)
    requires b != [] && DecodeFirst(b).Some?
    ensures var (c, k) := DecodeFirst(b).value; EncodeChar(c) == b[..k]
  {
    var (c, k) := DecodeFirst(b).value;
    if k == 2 {
      Peel(b[0] - 0xC0, b[1] - 0x80);
    } else if k == 3 {
      Join3Parts(b[0], b[1], b[2]);
    } else if k == 4 {
      Join4Parts(b[0], b[1], b[2], b[3]);
    }
  }

  /** Every string survives the trip through bytes. */
  lemma {:induction false} DecodeEncode(s: string)
    ensures Decode(Encode(s)) == Some(s)
  {
    hide DecodeFirst, EncodeChar;
    if s != [] {
      var first, rest := EncodeChar(s[0]), Encode(s[1..]);
      DecodeFirstOfEncoded(s[0], rest);
      assert (first + rest)[|first|..] == rest;
      DecodeEncode(s[1..]);
      assert s == [s[0]] + s[1..];
    }
  }

  /** The decoder is strict: what it accepts is exactly the encoding of what it returns. */
  lemma {:induction false} EncodeDecode(b: seq<byte>)
    requires Decode(b).Some?
    ensures Encode(Decode(b).value) == b
    decreases |b|
  {
    hide DecodeFirst, EncodeChar;
    if b != [] {
      var (c, k) := DecodeFirst(b).value;
      EncodeOfDecodedFirst(b);
      EncodeDecode(b[k..]);
      var s := Decode(b).value;
      assert s[0] == c && s[1..] == Decode(b[k..]).value;
      assert b == b[..k] + b[k..];
    }
  }

  predicate Ascii(s: string) { forall c :: c in s ==> c < 128 as char }

  lemma {:induction false} EncodeAscii(s: string)
    requires Ascii(s)
    ensures |Encode(s)| == |s|
    ensures forall i :: 0 <= i < |s| ==> Encode(s)[i] == s[i] as int < 0x80
  {
    if s != [] {
      assert s[0] in s && forall c :: c in s[1..] ==> c in s;
      EncodeAscii(s[1..]);
    }
  }

  lemma {:induction false} EncodeConcat(a: string, b: string)
    ensures Encode(a + b) == Encode(a) + Encode(b)
  {
    if a == [] {
      assert a + b == b;
    } else {
      assert (a + b)[1..] == a[1..] + b;
      EncodeConcat(a[1..], b);
    }
  }

  /** ASCII text appended to arbitrary bytes can neither complete nor break a character: the whole
      is valid exactly when the bytes before it were. */
  lemma {:induction false} DecodeAsciiSuffix(b: seq<byte>, suffix: string)
    requires Ascii(suffix)
    ensures Decode(b + Encode(suffix)).Some? <==> Decode(b).Some?
    ensures Decode(b).Some? ==> Decode(b + Encode(suffix)) == Some(Decode(b).value + suffix)
    decreases |b|
  {
    hide DecodeFirst, EncodeChar;
    var e := Encode(suffix);
    if b == [] {
      assert b + e == e;
      DecodeEncode(suffix);
      assert [] + suffix == suffix;
    } else {
      EncodeAscii(suffix);
      assert forall i :: 0 <= i < |e| ==> e[i] < 0x80;
      DecodeFirstIgnoresAscii(b, e);
      if DecodeFirst(b).Some? {
        var (c, k) := DecodeFirst(b).value;
        assert (b + e)[k..] == b[k..] + e;
        DecodeAsciiSuffix(b[k..], suffix);
        if Decode(b[k..]).Some? {
          assert [c] + (Decode(b[k..]).value + suffix) == Decode(b).value + suffix;
        }
      }
    }
  }

  lemma DecodeFirstIgnoresAscii(b: seq<byte>, e: seq<byte>)
    requires b != [] && forall i :: 0 <= i < |e| ==> e[i] < 0x80
    ensures DecodeFirst(b + e) == DecodeFirst(b)
  {
    var s := b + e;
    assert |b| == 1 && |e| >= 1 ==> s[1] == e[0];
    assert |b| == 2 && |e| >= 1 ==> s[2] == e[0];
    assert |b| == 3 && |e| >= 1 ==> s[3] == e[0];
  }

  /** The characters of the examples in section 7 of RFC 3629: one, two, three and four bytes. */
  lemma Rfc3629Examples()
    ensures EncodeChar('A') == [0x41]
    ensures EncodeChar('\U{0391}') == [0xCE, 0x91]
    ensures EncodeChar('\U{2262}') == [0xE2, 0x89, 0xA2]
    ensures EncodeChar('\U{65E5}') == [0xE6, 0x97, 0xA5]
    ensures EncodeChar('\U{233B4}') == [0xF0, 0xA3, 0x8E, 0xB4]
  {
  }
}
