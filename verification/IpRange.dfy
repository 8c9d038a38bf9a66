/** Address ranges in CIDR notation. Addresses are numbers of 32 or 128 bits; `&` and `<<` work on
    their binary digits, for any width. */
module IpRange {
  import opened Text

  type u32 = x: int | 0 <= x < 0x1_0000_0000
  type u128 = x: int | 0 <= x < 0x1_00000000_00000000_00000000_00000000

  datatype Ip = V4(v4: u32) | V6(v6: u128)
  {
    /** The number, and how many bits it has. */
    function Bits(): nat { if V4? then v4 else v6 }
    function Width(): nat { if V4? then 32 else 128 }
  }

  /** `to_canonical`: an IPv4-mapped IPv6 address (section 2.5.5.2 of RFC 4291) as IPv4. */
  function Canonical(ip: Ip): Ip {
    if ip.V6? && ip.v6 / 0x1_0000_0000 == 0xFFFF then V4(ip.v6 % 0x1_0000_0000) else ip
  }

  /** An IPv4 address comes out exactly of itself and of the address that maps it into IPv6; every other
      address stays what it is. */
  lemma CanonicalExactly(ip: Ip, v4: u32)
    ensures Canonical(ip) == V4(v4) <==> ip == V4(v4) || ip == V6(0xFFFF * 0x1_0000_0000 + v4)
    ensures Canonical(ip).V6? ==> Canonical(ip) == ip
  {
  }

  // ----- binary digits ------------------------------------------------------------------------

  function Pow2(k: nat): (r: nat)
    ensures r > 0
  {
    if k == 0 then 1 else 2 * Pow2(k - 1)
  }

  /** `a & b`. */
  function And(a: nat, b: nat): nat {
    if a == 0 || b == 0 then 0
    else 2 * And(a / 2, b / 2) + (if a % 2 == 1 && b % 2 == 1 then 1 else 0)
  }

  /** `x >> k`. */
  function Shr(x: nat, k: nat): nat {
    if k == 0 then x else Shr(x / 2, k - 1)
  }

  function Bit(x: nat, i: nat): nat { Shr(x, i) % 2 }

  /** `MAX.checked_shl(k).unwrap_or(0)` on `width` bits. */
  function ShiftedMax(k: nat, width: nat): nat {
    if k >= width then 0 else (Pow2(width) - 1) * Pow2(k) % Pow2(width)
  }

  lemma {:induction false} Pow2Adds(a: nat, b: nat)
    ensures Pow2(a + b) == Pow2(a) * Pow2(b)
  {
    if a > 0 {
      Pow2Adds(a - 1, b);
    }
  }

  lemma {:induction false} Gap(a: nat, b: nat, n: nat)
    requires a < b
    ensures a * n + n <= b * n
  {
    if a + 1 < b {
      Gap(a, b - 1, n);
    }
    assert b * n == (b - 1) * n + n;
  }

  /** Division with remainder is unique. */
  lemma ModOfMultiple(q: nat, n: nat, r: nat)
    requires r < n
    ensures (q * n + r) % n == r && (q * n + r) / n == q
  {
    var q', r' := (q * n + r) / n, (q * n + r) % n;
    assert q * n + r == q' * n + r';
    if q < q' {
      Gap(q, q', n);
    } else if q' < q {
      Gap(q', q, n);
    }
  }

  /** The mask has its `width - k` highest bits set. */
  lemma MaskValue(k: nat, width: nat)
    requires k <= width
    ensures Pow2(k) <= Pow2(width)
    ensures ShiftedMax(k, width) == Pow2(width) - Pow2(k)
  {
    hide Pow2;
    var p, n := Pow2(k), Pow2(width);
    Pow2Adds(k, width - k);
    Grows(p, Pow2(width - k));
    if k < width {
      ShiftMod(n, p);
    }
  }

  lemma ShiftMod(n: nat, p: nat)
    requires 0 < p <= n
    ensures (n - 1) * p % n == n - p
  {
    var x := (n - 1) * p;
    Distributes(n, p);
    assert x == (p - 1) * n + (n - p);
    ModOfMultiple(p - 1, n, n - p);
  }

  lemma Grows(a: nat, b: nat)
    requires b > 0
    ensures a <= a * b
  {
    if b > 1 {
      Gap(1, b, a);
    }
    assert a * b == b * a;
  }

  lemma Distributes(n: nat, p: nat)
    requires p > 0
    ensures (n - 1) * p == (p - 1) * n + (n - p)
  {
    assert (n - 1) * p == n * p - p;
    assert (p - 1) * n == p * n - n;
    assert n * p == p * n;
  }

  lemma HalfMask(k: nat, width: nat)
    requires 0 < k <= width
    ensures Pow2(k) <= Pow2(width) && Pow2(k - 1) <= Pow2(width - 1)
    ensures (Pow2(width) - Pow2(k)) / 2 == Pow2(width - 1) - Pow2(k - 1)
    ensures (Pow2(width) - Pow2(k)) % 2 == 0
  {
    MaskValue(k, width);
    MaskValue(k - 1, width - 1);
  }

  /** Masking takes off the low `k` bits and nothing else. */
  lemma {:induction false} AndMask(x: nat, k: nat, width: nat)
    requires k <= width && x < Pow2(width) && Pow2(k) <= Pow2(width)
    ensures And(x, Pow2(width) - Pow2(k)) == Shr(x, k) * Pow2(k)
    decreases width
  {
    hide And;
    if width == 0 {
      AndStep(0, 0);
      assert And(x, 0) == 0 && Shr(x, k) == 0;
    } else {
      var mask := Pow2(width) - Pow2(k);
      AndStep(x, mask);
      if k == 0 {
        AndMask(x / 2, 0, width - 1);
        assert mask == 2 * (Pow2(width - 1) - 1) + 1;
      } else {
        HalfMask(k, width);
        AndMask(x / 2, k - 1, width - 1);
        assert Shr(x, k) * Pow2(k) == 2 * (Shr(x / 2, k - 1) * Pow2(k - 1)) by {
          Doubled(Shr(x / 2, k - 1), Pow2(k - 1));
        }
      }
    }
  }

  lemma Doubled(a: nat, b: nat)
    ensures a * (2 * b) == 2 * (a * b)
  {
  }

  lemma AndStep(a: nat, b: nat)
    ensures And(a, b) == 2 * And(a / 2, b / 2) + (if a % 2 == 1 && b % 2 == 1 then 1 else 0)
  {
  }

  lemma DivisionInParts(h: nat, n: nat, q: nat, r: nat)
    requires n > 0 && q == h / n && r == h % n
    ensures h == q * n + r && r < n
  {
  }

  lemma HalveThenDivide(x: nat, n: nat)
    requires n > 0
    ensures x / 2 / n == x / (2 * n)
  {
    var h, b := x / 2, x % 2;
    var q, r := h / n, h % n;
    DivisionInParts(h, n, q, r);
    Doubled(q, n);
    ModOfMultiple(q, 2 * n, 2 * r + b);
  }

  lemma {:induction false} ShrIsDivision(x: nat, k: nat)
    ensures Shr(x, k) == x / Pow2(k)
  {
    if k > 0 {
      ShrIsDivision(x / 2, k - 1);
      HalveThenDivide(x, Pow2(k - 1));
    }
  }

  lemma {:induction false} ShrTwice(x: nat, a: nat, b: nat)
    ensures Shr(x, a + b) == Shr(Shr(x, a), b)
  {
    if a > 0 {
      ShrTwice(x / 2, a - 1, b);
    }
  }

  lemma {:induction false} ShrOfSmall(x: nat, width: nat)
    requires x < Pow2(width)
    ensures Shr(x, width) == 0
  {
    if width > 0 {
      ShrOfSmall(x / 2, width - 1);
    }
  }

  /** Two numbers agree above bit `k` exactly when all their bits from `k` on agree. */
  lemma {:induction false} ShrEqualsBits(x: nat, y: nat, k: nat, width: nat)
    requires k <= width && x < Pow2(width) && y < Pow2(width)
    ensures Shr(x, k) == Shr(y, k) <==> forall i :: k <= i < width ==> Bit(x, i) == Bit(y, i)
    decreases width - k
  {
    if k == width {
      ShrOfSmall(x, width);
      ShrOfSmall(y, width);
    } else {
      ShrEqualsBits(x, y, k + 1, width);
      ShrTwice(x, k, 1);
      ShrTwice(y, k, 1);
      assert Shr(x, k + 1) == Shr(x, k) / 2 && Shr(y, k + 1) == Shr(y, k) / 2;
      assert Bit(x, k) == Shr(x, k) % 2 && Bit(y, k) == Shr(y, k) % 2;
    }
  }

  // ----- ranges -------------------------------------------------------------------------------

  datatype IpRange = IpRange(addr: Ip, prefix: nat)

  /** What `from_str` lets through. */
  predicate Proper(r: IpRange) {
    Canonical(r.addr) == r.addr && r.prefix <= r.addr.Width()
  }

  predicate Contains(r: IpRange, ip: Ip)
    requires Proper(r)
  {
    var ip := Canonical(ip);
    r.addr.V4? == ip.V4? &&
    var mask := ShiftedMax(r.addr.Width() - r.prefix, r.addr.Width());
    And(r.addr.Bits(), mask) == And(ip.Bits(), mask)
  }

  /** `from_str`, with the standard library's parsers for addresses and for `u8` as parameters. */
  function ParseRange(input: string, parseIp: string -> Option<Ip>, parseU8: string -> Option<nat>)
    : (r: Option<IpRange>)
    ensures r.Some? ==> Proper(r.value)
  {
    var (addrText, prefixText) :=
      match SplitOnce(input, '/')
      case Some((a, p)) => (a, Some(p))
      case None => (input, None);
    match parseIp(Trim(addrText))
    case None => None
    case Some(addr) =>
      if Canonical(addr) != addr then None
      else if prefixText.None? then Some(IpRange(addr, addr.Width()))
      else match parseU8(Trim(prefixText.value))
        case None => None
        case Some(prefix) => if prefix <= addr.Width() then Some(IpRange(addr, prefix)) else None
  }

  /** The two ways to write a range: an address alone, for a range of one, or with a prefix length. */
  predicate Writes(input: string, parseIp: string -> Option<Ip>, parseU8: string -> Option<nat>,
                   r: IpRange) {
    || ('/' !in input && parseIp(Trim(input)) == Some(r.addr) && r.prefix == r.addr.Width())
    || exists i :: 0 <= i < |input| && input[i] == '/' && '/' !in input[..i]
                   && parseIp(Trim(input[..i])) == Some(r.addr)
                   && parseU8(Trim(input[i + 1..])) == Some(r.prefix)
  }

  /** Exactly the proper ranges that are written so are accepted, and as what they are written as. */
  lemma ParseRangeExactly(input: string, parseIp: string -> Option<Ip>,
                          parseU8: string -> Option<nat>, r: IpRange)
    ensures ParseRange(input, parseIp, parseU8) == Some(r) <==>
              Writes(input, parseIp, parseU8, r) && Proper(r)
  {
    hide Trim, Canonical, IndexOf;
    var i := IndexOf(input, '/');
    forall j | 0 <= j < |input| && input[j] == '/' && '/' !in input[..j] ensures j == i {
      IndexOfFirst(input, '/', j);
    }
  }

  lemma Pow2Square(k: nat, v: nat)
    requires Pow2(k) == v
    ensures Pow2(2 * k) == v * v
  {
    hide Pow2;
    Pow2Adds(k, k);
  }

  lemma Pow2Of4()
    ensures Pow2(4) == 16
  {
  }

  lemma Pow2Squares()
    ensures Pow2(32) == 0x1_0000_0000
    ensures Pow2(128) == 0x1_00000000_00000000_00000000_00000000
  {
    hide Pow2;
    Pow2Of4();
    Pow2Square(4, 16);
    Pow2Square(8, 0x100);
    Pow2Square(16, 0x1_0000);
    Pow2Square(32, 0x1_0000_0000);
    Pow2Square(64, 0x1_00000000_00000000);
  }

  lemma WidthIsEnough(ip: Ip)
    ensures ip.Bits() < Pow2(ip.Width())
  {
    Pow2Squares();
  }

  /** Membership in terms of leading bits. */
  predicate SameLeadingBits(a: Ip, b: Ip, prefix: nat)
    requires prefix <= a.Width()
  {
    a.V4? == b.V4? && a.Bits() / Pow2(a.Width() - prefix) == b.Bits() / Pow2(a.Width() - prefix)
  }

  lemma ContainsShr(r: IpRange, ip: Ip)
    requires Proper(r)
    ensures Contains(r, ip) <==>
              && r.addr.V4? == Canonical(ip).V4?
              && Shr(r.addr.Bits(), r.addr.Width() - r.prefix)
                 == Shr(Canonical(ip).Bits(), r.addr.Width() - r.prefix)
  {
    var ip := Canonical(ip);
    if r.addr.V4? == ip.V4? {
      var w := r.addr.Width();
      var k := w - r.prefix;
      WidthIsEnough(r.addr);
      WidthIsEnough(ip);
      MaskValue(k, w);
      AndMask(r.addr.Bits(), k, w);
      AndMask(ip.Bits(), k, w);
      CancelRight(Shr(r.addr.Bits(), k), Shr(ip.Bits(), k), Pow2(k));
    }
  }

  lemma CancelRight(a: nat, b: nat, n: nat)
    requires n > 0
    ensures a * n == b * n <==> a == b
  {
    if a < b {
      assert b * n == a * n + (b - a) * n;
    } else if b < a {
      assert a * n == b * n + (a - b) * n;
    }
  }

  /** The shift-and-mask test asks for exactly the first `prefix` bits to agree: as numbers after
      division by a power of two, and bit by bit. Prefixes 0 and the full width included. */
  lemma ContainsIsLeadingBits(r: IpRange, ip: Ip)
    requires Proper(r)
    ensures Contains(r, ip) <==> SameLeadingBits(r.addr, Canonical(ip), r.prefix)
    ensures r.addr.V4? == Canonical(ip).V4? ==>
              (Contains(r, ip) <==> forall i :: r.addr.Width() - r.prefix <= i < r.addr.Width()
                                      ==> Bit(r.addr.Bits(), i) == Bit(Canonical(ip).Bits(), i))
  {
    var c, w := Canonical(ip), r.addr.Width();
    ContainsShr(r, ip);
    ShrIsDivision(r.addr.Bits(), w - r.prefix);
    ShrIsDivision(c.Bits(), w - r.prefix);
    if r.addr.V4? == c.V4? {
      WidthIsEnough(r.addr);
      WidthIsEnough(c);
      ShrEqualsBits(r.addr.Bits(), c.Bits(), w - r.prefix, w);
    }
  }

  /** Any two ranges are nested or disjoint: the longer prefix is inside the shorter, or they share
      no address. */
  lemma NestedOrDisjoint(a: IpRange, b: IpRange)
    requires Proper(a) && Proper(b) && a.prefix <= b.prefix
    ensures (forall ip :: Contains(b, ip) ==> Contains(a, ip))
            || (forall ip :: !(Contains(a, ip) && Contains(b, ip)))
  {
    var w := a.addr.Width();
    if a.addr.V4? == b.addr.V4? {
      var ka, kb := w - a.prefix, w - b.prefix;
      ShrTwice(b.addr.Bits(), kb, ka - kb);
      forall ip
        ensures Contains(b, ip) ==>
                  (Contains(a, ip) <==> Shr(a.addr.Bits(), ka) == Shr(b.addr.Bits(), ka))
      {
        ContainsShr(a, ip);
        ContainsShr(b, ip);
        ShrTwice(Canonical(ip).Bits(), kb, ka - kb);
      }
    }
  }

  /** A dual-stack listener's IPv4-mapped peer is in a range exactly when its IPv4 form is. */
  lemma MappedPeerMatches(r: IpRange, v4: u32)
    requires Proper(r)
    ensures Contains(r, V6(0xFFFF * 0x1_0000_0000 + v4)) <==> Contains(r, V4(v4))
  {
    hide And, ShiftedMax;
  }
}
