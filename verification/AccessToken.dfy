/** The access-token format: `base64url(payload).base64url(tag)`, where the payload is a version
    byte, the family and the expiry as big-endian 64-bit numbers, and the user's name in UTF-8.
    The tag is computed by `sign`, which stands for HMAC-SHA256 under the service's key. */
module AccessToken {
  import opened Text
  import Utf8
  import Base64

  const TWO_64: int := 0x1_0000_0000_0000_0000
  const ACCESS_TOKEN_VERSION: byte := 1

  type u64 = x: int | 0 <= x < 0x1_0000_0000_0000_0000

  datatype Payload = Payload(family: u64, expires: u64, user: string)

  type Signer = seq<byte> -> seq<byte>

  // ----- big-endian numbers -----------------------------------------------------------------

  /** The low `n` bytes of `x`, most significant first. */
  function BigEndian(x: nat, n: nat): (b: seq<byte>)
    ensures |b| == n
  {
    if n == 0 then [] else BigEndian(x / 256, n - 1) + [x % 256]
  }

  function FromBigEndian(b: seq<byte>): nat {
    if b == [] then 0 else FromBigEndian(b[..|b| - 1]) * 256 + b[|b| - 1]
  }

  function Pow256(n: nat): nat {
    if n == 0 then 1 else 256 * Pow256(n - 1)
  }

  lemma {:induction false} BigEndianRoundTrip(x: nat, n: nat)
    requires x < Pow256(n)
    ensures FromBigEndian(BigEndian(x, n)) == x
  {
    if n > 0 {
      BigEndianRoundTrip(x / 256, n - 1);
      assert BigEndian(x, n)[..n - 1] == BigEndian(x / 256, n - 1);
    }
  }

  lemma {:induction false} BigEndianCanonical(b: seq<byte>)
    ensures BigEndian(FromBigEndian(b), |b|) == b
    ensures FromBigEndian(b) < Pow256(|b|)
  {
    if b != [] {
      BigEndianCanonical(b[..|b| - 1]);
      assert b == b[..|b| - 1] + [b[|b| - 1]];
    }
  }

  lemma Pow256Of8()
    ensures Pow256(8) == TWO_64
  {
    assert Pow256(4) == 0x1_0000_0000;
    assert Pow256(8) == 256 * 256 * 256 * 256 * Pow256(4);
  }

  // ----- payloads -----------------------------------------------------------------------------

  function PayloadBytes(p: Payload): seq<byte> {
    [ACCESS_TOKEN_VERSION] + BigEndian(p.family, 8) + BigEndian(p.expires, 8) + Utf8.Encode(p.user)
  }

  function ParsePayload(b: seq<byte>): Option<Payload> {
    if |b| < 17 || b[0] != ACCESS_TOKEN_VERSION then None
    else
      Bounded(b[1..9]); Bounded(b[9..17]);
      match Utf8.Decode(b[17..])
      case None => None
      case Some(user) => Some(Payload(FromBigEndian(b[1..9]), FromBigEndian(b[9..17]), user))
  }

  lemma Bounded(b: seq<byte>)
    requires |b| == 8
    ensures FromBigEndian(b) < 0x1_0000_0000_0000_0000
  {
    BigEndianCanonical(b);
    Pow256Of8();
  }

  lemma ParsePayloadBytes(p: Payload)
    ensures ParsePayload(PayloadBytes(p)) == Some(p)
  {
    var b := PayloadBytes(p);
    var f, e, u := BigEndian(p.family, 8), BigEndian(p.expires, 8), Utf8.Encode(p.user);
    assert b[1..9] == f && b[9..17] == e && b[17..] == u;
    Pow256Of8();
    BigEndianRoundTrip(p.family, 8);
    BigEndianRoundTrip(p.expires, 8);
    Utf8.DecodeEncode(p.user);
  }

  lemma PayloadBytesOfParsed(b: seq<byte>)
    requires ParsePayload(b).Some?
    ensures PayloadBytes(ParsePayload(b).value) == b
  {
    BigEndianCanonical(b[1..9]);
    BigEndianCanonical(b[9..17]);
    Utf8.EncodeDecode(b[17..]);
    assert b == [b[0]] + b[1..9] + b[9..17] + b[17..];
  }

  // ----- tokens -------------------------------------------------------------------------------

  function Mint(sign: Signer, p: Payload): string {
    var payload := PayloadBytes(p);
    Base64.UrlEncode(payload) + "." + Base64.UrlEncode(sign(payload))
  }

  /** The payload of a token whose tag is right: `verify_access` up to its two state checks. */
  function Open(sign: Signer, token: string): Option<Payload> {
    match SplitOnce(token, '.')
    case None => None
    case Some((payload, tag)) =>
      match (Base64.UrlDecode(payload), Base64.UrlDecode(tag))
      case (Some(p), Some(t)) => if t == sign(p) then ParsePayload(p) else None
      case _ => None
  }

  /** Completeness: a minted token opens to exactly what was minted, whatever the user's name. */
  lemma OpenMint(sign: Signer, p: Payload)
    ensures Open(sign, Mint(sign, p)) == Some(p)
  {
    var payload := PayloadBytes(p);
    Base64.UrlRoundTrip(payload);
    Base64.UrlRoundTrip(sign(payload));
    SplitOnceAt(Base64.UrlEncode(payload), '.', Base64.UrlEncode(sign(payload)));
    ParsePayloadBytes(p);
  }

  /** Soundness: the only text that opens to a payload is the token minted for it. There is no
      second spelling of a token. */
  lemma MintOpen(sign: Signer, token: string)
    requires Open(sign, token).Some?
    ensures Mint(sign, Open(sign, token).value) == token
  {
    var (payload, tag) := SplitOnce(token, '.').value;
    Base64.UrlCanonical(payload);
    Base64.UrlCanonical(tag);
    PayloadBytesOfParsed(Base64.UrlDecode(payload).value);
  }

  /** Different payloads never share a token. */
  lemma MintInjective(sign: Signer, p: Payload, q: Payload)
    requires Mint(sign, p) == Mint(sign, q)
    ensures p == q
  {
    OpenMint(sign, p);
    OpenMint(sign, q);
  }

  // ----- the layout, byte by byte -------------------------------------------------------------

  /** The high byte comes first. */
  lemma BigEndianExample()
    ensures BigEndian(0x01020304, 4) == [1, 2, 3, 4]
  {
    assert BigEndian(0x01, 1) == [1] && BigEndian(0x0102, 2) == [1, 2] && BigEndian(0x010203, 3) == [1, 2, 3];
  }

  /** A token is two parts around its only separator: the payload, which is the version, the family and
      the expiry, and the user's name; and the payload's tag. */
  lemma TokenLayout(sign: Signer, p: Payload) returns (payload: seq<byte>)
    ensures |payload| >= 17 && payload[0] == 1
    ensures payload[1..9] == BigEndian(p.family, 8) && payload[9..17] == BigEndian(p.expires, 8)
    ensures Utf8.Decode(payload[17..]) == Some(p.user)
    ensures var parts := SplitOnce(Mint(sign, p), '.');
            && parts.Some? && '.' !in parts.value.1
            && Base64.UrlDecode(parts.value.0) == Some(payload)
            && Base64.UrlDecode(parts.value.1) == Some(sign(payload))
  {
    hide BigEndian, Base64.UrlEncode, Base64.UrlDecode, Utf8.Encode, Utf8.Decode;
    payload := PayloadBytes(p);
    assert payload[17..] == Utf8.Encode(p.user);
    Utf8.DecodeEncode(p.user);
    Base64.UrlRoundTrip(payload);
    Base64.UrlRoundTrip(sign(payload));
    SplitOnceAt(Base64.UrlEncode(payload), '.', Base64.UrlEncode(sign(payload)));
  }
}
